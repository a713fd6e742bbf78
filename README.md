# cflag in Dafny

A model of the cflag command-line flag library and proofs about it. It covers the library's two designs.

**flag.c** is the current design. A `Flagset` owns a fixed-capacity, append-only table of flag slots.
- `flag_init` clears the table.
- `flag_register` (reached through the `flag_var*` wrappers) refuses a duplicate name or a full table. Otherwise it fills the next slot: the destination, size, adapter, name and description, the type hint taken from between backticks, and the rendered default.
- `flag_parse` makes one left-to-right pass over the arguments:
  - A help token anywhere diverts to `errFunc`.
  - The scan stops at `-`, `--` or a token without a dash where a flag is expected (a consumed value token does not stop it).
  - It strips one or two dashes and splits on the first `=`.
  - It looks the key up; the last registered match wins.
  - It hands the inline text, or the following token, to the matched flag's parser. A boolean flag never takes the following token.
  - On success it records the leftover view: the program name followed by everything from the boundary on.

**flag.h** is the earlier header-only design, with a process-global table of at most MAXFLAGS + 2 entries.
- `_flaginit` only prints a warning about a duplicate name and appends it anyway.
- `flagparse` registers temporary `h`/`help` entries and scans. It answers with the codes 1 (unknown flag), 2 (missing argument) and 3 (already parsed). On success it drops two table entries and publishes the tokens after the flags, without the program name.

The modules:
- `CStrings`: C strings as NUL-free sequences; `strchr`, `strncpy`, clipped copies, and the text `atoi`/`atoll` read.
- `Memory`: the caller's storage, as a heap of typed cells addressed by index.
- `FlagAdapters`: the built-in parsers and displays, and `zero`.
- `FlagSet`: the `Flagset` class and the functions that specify registration and the parse.
- `FlagSetFacts`: properties of those functions.
- `Findings`: three out-of-bounds accesses in flag.c, as written and corrected.
- `FlagHeader`: the flag.h globals as a class, and its specification functions.
- `FlagHeaderFacts`: properties of the flag.h model.
- `FlagVariants`: the two designs compared on the same inputs.

How C behaviour is represented:
- **Calls that end the process:** `exit(2)` is an `Exited(2)` outcome.
- **Undefined behaviour:** an `Undefined` outcome. This covers an out-of-range `atoi`/`atoll`, a destination of the wrong type or too narrow, and a key that overruns its buffer.
- **`errFunc`:** either the default `errfunc`, which prints and exits with status 2, or a caller-installed callback that returns. The messages passed to it are returned as a sequence.

## Model

| member | source | states |
|---|---|---|
| FlagAdapters.Zero | flag.c:14-23 | the result is true exactly when the first s bytes are all NUL |
| FlagSet.ExtractTypeName | flag.c:25-46 | the buffer becomes the text between the first two backticks, clipped to len and NUL-terminated; with fewer than two backticks it is untouched; the caller need only make room for the clipped hint and its terminator |
| FlagSetFacts.TypeHintIffTwoBackticks | flag.c:25-46 | a type hint exists exactly when the description holds at least two backticks |
| FlagSetFacts.BackticksFrom | flag.c:30-40 | the backtick search consumes exactly one backtick of the text per hit |
| FlagSetFacts.TypeHintBetweenFirstTwo | flag.c:30-40 | the hint is the text strictly between the first and second backtick and contains no backtick |
| FlagSetFacts.TypeNameReadsBack | flag.c:41-45 | the written buffer reads back as the clipped hint, terminated at an index no greater than len |
| FlagSet.Flagset.constructor | flag.c:264-278 | an empty, unparsed set with the given capacity and the default errFunc; each of the first cap slots has its type hint and default cleared |
| FlagSet.Flagset.Register | flag.c:105-144 | a taken name is refused first, then a full table, and nothing is written in either case; otherwise slot count is filled and count grows by one; the set stays valid, which includes distinct names |
| FlagSet.Flagset.Fill | flag.c:130-143 | slot count becomes the flag with its type hint and rendered default, count grows by one, and the names stay distinct |
| FlagSetFacts.RegisteredKeepsDistinct | flag.c:116-128 | a name that passes both checks keeps the table's names distinct and within capacity |
| FlagSet.Flagset.VarBool | flag.c:226-229 | registers a one-byte boolean destination with the boolean marker set |
| FlagSet.Flagset.VarInt | flag.c:231-234 | registers a 4-byte int destination, not boolean |
| FlagSet.Flagset.VarLong | flag.c:236-239 | registers an 8-byte long long destination, not boolean |
| FlagSet.Flagset.VarString | flag.c:246-249 | registers a string destination of the given width, not boolean |
| FlagAdapters.ParseValue | flag.c:146-188 | the destination after the parser equals the specification: bool accepts true/1/false/0; int stores atoi and complains about non-"0" zeros; long stores atoll; string copies size bytes |
| FlagAdapters.IntRejectsNonNumeric | flag.c:164-171 | text without leading digits other than "0" is reported, and 0 is still stored when errFunc returns |
| FlagAdapters.IntRejectsZeroText | flag.c:168-170 | any text other than "0" that atoi reads as 0 is reported |
| FlagAdapters.IntRejectsOtherZeros | flag.c:168-170 | "00", "-0" and " 0" are reported although they denote zero |
| FlagAdapters.StringStaysInBounds | flag.c:185-188 | the string parser writes only the first size bytes; a shorter value reads back unchanged |
| FlagAdapters.Display | flag.c:191-223 | a rendered default never exceeds the 98 characters snprintf leaves room for |
| FlagAdapters.BoolDisplayRoundTrip | flag.c:146-199 | parsing the displayed boolean gives the boolean back |
| FlagAdapters.IntDisplayRoundTrip | flag.c:164-205 | parsing the displayed int gives the int back, with no complaint |
| FlagAdapters.LongDisplayRoundTrip | flag.c:173-211 | parsing the displayed long long gives it back |
| FlagAdapters.DecimalFits | flag.c:207-211 | a long long's decimal text is never clipped by the 99-byte limit |
| CStrings.AtoiOfDecimal | flag.c:167 | atoi reads back the decimal text of any integer |
| CStrings.AtoiSkipsSpace | flag.c:167 | atoi skips leading white space |
| CStrings.IndexOf | flag.c:318 | the result is the first index of the character at or after from, or none exists |
| CStrings.StrNCpyText | flag.c:187 | strncpy writes exactly the first n bytes, and a shorter source reads back |
| CStrings.WriteTextReadsBack | flag.c:195-197 | a copied text reads back up to its terminator |
| Memory.Heap.Store | flag.c:170 | the write through a destination pointer changes that cell only |
| FlagSet.HelpRequested | flag.c:287-297 | true exactly when some token, the program name included, is a help spelling |
| FlagSet.LastMatch | flag.c:321-324 | the index found carries the key and no later slot does; none is found only when no slot carries it |
| FlagSet.Flagset.FindLast | flag.c:321-324 | the lookup loop finds the last slot whose name equals the key |
| FlagSetFacts.LastRegisteredWins | flag.c:321-324 | the flag registered last under a name is the one found |
| FlagSetFacts.OtherNameKeepsMatch | flag.c:321-324 | appending another name does not change what a key finds |
| FlagSetFacts.DistinctNamesMatchUniquely | flag.c:321-324 | with distinct names the lookup finds the one flag of that name |
| FlagSet.Resolve | flag.c:302-348 | a bound token resumes the scan after its own token or after the one it consumed, never past the end |
| FlagSet.Flagset.ResolveToken | flag.c:307-348 | the boundary test, dash stripping, key split, lookup and value selection agree with the specification |
| FlagSet.Refuse | flag.c:325-330 | a refusal always halts the scan |
| FlagSet.Apply | flag.c:333-350 | applying a value never ends the scan at a boundary, and a successful application resumes where the token said |
| FlagSet.ApplyFlag | flag.c:333-350 | the parser call writes the destination as the specification says and halts on exit or undefined behaviour |
| FlagSet.Step | flag.c:302-351 | a step that goes on strictly advances the token index |
| FlagSet.Flagset.ScanToken | flag.c:302-351 | one loop pass writes the storage exactly as the step specification says, and nothing on a halt |
| FlagSet.Run | flag.c:302-351 | a finished scan ends at an index between its start and the argument count |
| FlagSet.Flagset.ScanAll | flag.c:302-351 | the loop's result and final storage are those of the scan specification |
| FlagSetFacts.UnknownKeyHalts | flag.c:325-330 | an unregistered key halts the scan with ErrFlagUnknown (or exit), writes nothing and reads no later token |
| FlagSetFacts.BoolTakesNoToken | flag.c:332-339 | a boolean flag parses its inline text or "true" and resumes at the very next token |
| FlagSetFacts.ValueInline | flag.c:341-350 | a non-boolean flag with '=' parses the inline text and resumes at the next token |
| FlagSetFacts.ValueFromNextToken | flag.c:341-350 | a non-boolean flag without '=' consumes the following token as its value |
| FlagSetFacts.MissingValueHalts | flag.c:341-348 | a non-boolean flag without '=' as the last token halts with ErrFlagNoArg (or exit) |
| FlagSetFacts.FinishedAtBoundary | flag.c:302-312 | a finished scan stopped at the end or at a `-`, `--` or dashless token |
| FlagSetFacts.HaltedNeverOK | flag.c:325-348 | a halted scan never reports FlagOK |
| FlagSetFacts.ScanWritesOnlyDestinations | flag.c:302-351 | the scan leaves every cell that is no flag's destination unchanged and the storage size unchanged |
| FlagSetFacts.StepWritesOnlyDestinations | flag.c:333-350 | a step that goes on bound its token to a registered flag, and every cell other than that flag's destination is unchanged |
| FlagSetFacts.PassedTokens | flag.c:302-350 | every token the scan passed over was read in flag position and is no boundary, or is the value token consumed by the non-boolean flag just before it |
| FlagSetFacts.StepHaltKeepsCells | flag.c:325-348 | a halted step leaves the storage as it was |
| FlagSetFacts.BoundIsRegistered | flag.c:321-330 | the flag a token binds to is one of the registered flags |
| FlagSetFacts.AdaptKeepsShape | flag.c:146-188 | a parser that returns keeps its destination's type and width |
| FlagSetFacts.SameShapeFits | flag.c:146-188 | a destination that keeps its type and width still fits every adapter that fitted it |
| FlagSetFacts.StepKeepsTypes | flag.c:333-350 | one step keeps every destination typed, even when destinations alias |
| FlagSetFacts.ScanKeepsTypes | flag.c:302-351 | the whole scan keeps every destination typed |
| FlagSetFacts.UndefinedOnlyOnOverflow | flag.c:164-177 | on typed destinations a step is undefined only when atoi or atoll reads a number out of range |
| FlagSet.Leftover | flag.c:353-361 | the leftover view holds argc minus the boundary index plus one entries |
| FlagSet.Flagset.SetLeftover | flag.c:360-361 | the copy loop leaves the program name followed by the tokens from the boundary on, and the other slots untouched |
| FlagSet.Flagset.Parse | flag.c:280-364 | the outcome, parsed flag, argc, argv, storage and errFunc messages are those of the parse specification, and the set stays valid |
| FlagSet.Flagset.Publish | flag.c:353-363 | the set is marked parsed and argc counts the program name and the leftovers; more than 100 exits with status 2 and leaves argv alone, otherwise argv holds the leftover view |
| FlagSetFacts.ParsedSetUnchanged | flag.c:282-283 | a parsed set answers ErrFlagAlreadyParsed and changes nothing |
| FlagSetFacts.HelpWins | flag.c:287-297 | a help token anywhere, even as the program name, reaches errFunc; the set stays unparsed and no storage cell is written |
| FlagSetFacts.SuccessLeavesLeftover | flag.c:353-363 | success marks the set parsed; argc and argv hold the program name followed by everything from the boundary token where the scan stopped |
| FlagSetFacts.TooManyLeftoversExit | flag.c:355-359 | more than 100 leftovers end the process with status 2 |
| FlagSetFacts.ExampleBool | flag.c:336-338 | on the worked command line, `-v` sets the boolean true |
| FlagSetFacts.ExampleAtoi | flag.c:167 | atoi reads "7" as 7 |
| FlagSetFacts.ExampleIntToken | flag.c:314-342 | `--n=7` binds "7" to `n` |
| FlagSetFacts.ExampleInt | flag.c:350 | `--n=7` stores 7 |
| FlagSetFacts.ExampleNoHelp | flag.c:287-297 | no token of the worked command line is a help spelling |
| FlagSetFacts.ExampleScan | flag.c:302-351 | the worked scan sets both flags and stops at `file` |
| FlagSetFacts.ExampleParse | flag.c:280-364 | `prog -v --n=7 file -x` succeeds with v true, n 7, and leftovers `prog file -x` |
| FlagSet.ErrStr | flag.c:366-381 | every error has a name; FlagOK has none, and there the source aborts |
| FlagSetFacts.ErrStrInjective | flag.c:366-381 | distinct errors have distinct names |
| Findings.ValueReadPastEnd | flag.c:321-343 | as written, the value selection reads args[argc], past the vector, exactly when the last token names a registered non-boolean flag and has no '=' |
| Findings.CorrectedValueReadInBounds | flag.c:341-348 | where the code reads an existing value token the corrected scan binds that token, and it reports ErrFlagNoArg exactly where the code reads past the end |
| Findings.KeyAsWritten | flag.c:299-319 | the key as written is the full name clipped to 7 chars, and the copy overruns the key exactly when the token has '=' and the name has 8 or more chars |
| Findings.LongNameTruncated | flag.c:319 | `--verbosity` is looked up as "verbosi" |
| Findings.LongInlineNameOverflows | flag.c:319 | `--verbosity=2` copies 9 chars into the 8-byte key |
| Findings.KeysAgreeOnShortNames | flag.c:318-319 | the as-written and corrected keys agree exactly when the name is shorter than 8 chars |
| Findings.EveryNameReachable | flag.c:314-319 | with the corrected key every name without '=' is reachable, as `--name` and `--name=value` |
| Findings.TypeNameEnd | flag.c:41-44 | the terminator lands at an index no greater than len, exactly when there is a hint |
| Findings.TypeNameEndAsWritten | flag.c:138-139 | as called, the terminator lands at index TypeNameWidth, one past the buffer, exactly when the hint has TypeNameWidth or more chars |
| Findings.LongHintOverflows | flag.c:138-139 | a 16-char hint puts the terminator one past the typeName buffer |
| Findings.CorrectedTypeNameInBounds | flag.c:138-139 | with len one less than the width the terminator stays inside the buffer and the hint reads back |
| Memory.Heap.Alloc | flag.h:69 | malloc of one object yields a fresh address holding the stored value |
| FlagHeader.Duplicates | flag.h:49-53 | every warning names the argument, and there is one exactly when a stored entry carries that name |
| FlagHeader.DuplicatesCount | flag.h:49-53 | there are as many warnings as stored entries whose name equals the argument |
| FlagHeader.Registered | flag.h:47-65 | the table grows by one unless full; the earlier entries are unchanged |
| FlagHeader.Globals.constructor | flag.h:38-45 | an empty, unparsed table with no leftovers |
| FlagHeader.Globals.FlagInit | flag.h:47-65 | the warnings printed and the table written are those of the registration specification |
| FlagHeader.Globals.FlagBool | flag.h:67-73 | fresh storage holds the default, then it is registered as a boolean |
| FlagHeader.Globals.FlagInt | flag.h:75-81 | fresh storage holds the default, then it is registered as an int |
| FlagHeader.Globals.FlagString | flag.h:91-97 | 50 zeroed chars hold at most 49 chars of the default, then they are registered as a string |
| FlagHeader.Globals.FlagVar | flag.h:99-118 | caller storage is registered under the given type |
| FlagHeaderFacts.DuplicateStillAppended | flag.h:49-64 | a duplicate is reported and still appended, so two entries of the name coexist |
| FlagHeaderFacts.FullTableUnchanged | flag.h:54-58 | a full table takes nothing more and prints the limit warning |
| FlagHeaderFacts.StoredTextClipped | flag.h:62-63 | the stored name and description are the first 24 and 99 chars |
| FlagHeader.HeaderKey | flag.h:178-179 | the key is the name before '=' (or the whole text) clipped to 24 chars; it is undefined exactly when '=' comes after more than 24 chars |
| FlagHeader.LastEntry | flag.h:181-184 | the index found carries the key and no later entry does |
| FlagHeader.Globals.FindLast | flag.h:181-184 | the lookup loop finds the last entry whose name equals the key |
| FlagHeader.Resolve | flag.h:170-199 | a bound token resumes after itself or after the token it consumed, never past the end |
| FlagHeader.Globals.ResolveToken | flag.h:170-199 | token resolution agrees with the specification |
| FlagHeader.Step | flag.h:169-220 | a step that goes on advances and keeps the storage size; a halt writes nothing |
| FlagHeader.Globals.ScanToken | flag.h:169-220 | one loop pass writes the storage exactly as the step specification says |
| FlagHeader.Run | flag.h:169-220 | a finished scan ends between its start and the end; the storage size is kept |
| FlagHeader.Globals.ScanAll | flag.h:169-220 | the loop's result and final storage are those of the scan specification |
| FlagHeader.Globals.ScanAndPublish | flag.h:221-232 | after the scan: help exits with status 2, success drops two entries and publishes the leftovers |
| FlagHeader.Globals.RegisterTemporaries | flag.h:165-166 | the temporary h and help entries are registered on two fresh false cells, as two registrations in a row |
| FlagHeader.Globals.FlagParse | flag.h:157-233 | the outcome, table, parsed flag, flagargc, flagargv, storage and output are those of the parse specification |
| FlagHeaderFacts.HaltedCodes | flag.h:185-197 | a halted scan answers 1 or 2, or is undefined |
| FlagHeaderFacts.FinishedAtNonDash | flag.h:169-174 | a finished scan stopped at the end or at a token not starting with '-' |
| FlagHeaderFacts.PassedTokens | flag.h:169-199 | every token the scan passed over starts with '-', or is the value token consumed by the non-boolean entry just before it |
| FlagHeaderFacts.StepPasses | flag.h:169-199 | a step that goes on read a dash token and skips one more token only as a non-boolean entry's value |
| FlagHeaderFacts.BoolTakesNoToken | flag.h:190-199 | a boolean entry never takes the next token |
| FlagHeaderFacts.BoolAssign | flag.h:202-209 | no text or "true" sets, "false" clears, and anything else leaves the value |
| FlagHeaderFacts.MissingArgumentCode | flag.h:193-197 | a non-boolean flag without '=' as the last token answers 2 |
| FlagHeaderFacts.ParsedAnswers3 | flag.h:159-162 | once parsed, the answer is 3 and nothing changes |
| FlagHeaderFacts.TemporariesRegistered | flag.h:164-165 | on a table with room, `h` and `help` land right after the user's entries |
| FlagHeaderFacts.ScannedTable | flag.h:221-229 | success drops two entries; every other outcome keeps the table and leaves the set unparsed |
| FlagHeaderFacts.SuccessLeftovers | flag.h:227-229 | success publishes the tokens from the one where the scan stopped, which does not start with '-', without the program name, and flagargc counts them |
| FlagHeaderFacts.SuccessRestoresTable | flag.h:222-225 | with room for both temporaries, success restores the table |
| FlagHeaderFacts.EarlyReturnKeepsTemporaries | flag.h:185-197 | after answer 1 or 2 the temporaries stay registered |
| FlagHeaderFacts.CrowdedTableLosesFlags | flag.h:222-225 | with more than 20 entries, success leaves 20, so user flags are lost |
| FlagHeaderFacts.TemporaryShadowsUserH | flag.h:164-184 | the temporary `h` shadows a user flag of that name |
| FlagVariants.HeaderTemporaries | flag.h:164-165 | on the worked table the temporaries land in slots 2 and 3 with no warning |
| FlagVariants.HeaderTemporarySlots | flag.h:59-63 | the temporaries' stored entries are `h` and `help` at addresses 2 and 3 |
| FlagVariants.HeaderBoolToken | flag.h:174-199 | `-v` binds no text to `v` |
| FlagVariants.HeaderBool | flag.h:202-205 | `-v` sets the boolean |
| FlagVariants.HeaderIntToken | flag.h:174-199 | `--n=7` binds "7" to `n` |
| FlagVariants.HeaderInt | flag.h:210-212 | `--n=7` stores 7 |
| FlagVariants.HeaderScan | flag.h:169-220 | the worked scan sets both flags and stops at `file` |
| FlagVariants.HeaderParse | flag.h:157-233 | `prog -v --n=7 file -x` answers 0, restores the table and publishes `file -x` |
| FlagVariants.LeftoversDiffer | flag.h:228-229 | on the same command line, flag.c's leftovers keep the program name and flag.h's do not |
| FlagVariants.DashTokenDiffers | flag.h:174-188 | `-` ends flag.c's scan, but flag.h looks up the empty key and answers 1 |
| FlagVariants.DuplicateDiffers | flag.h:49-64 | flag.c refuses a taken name; flag.h appends it |
| FlagVariants.NonNumericIntDiffers | flag.h:210-212 | flag.c reports "abc" for an int; flag.h silently stores 0 |
| FlagVariants.AtoiOfLetters | flag.h:211 | atoi reads "abc" as 0 |
| FlagVariants.BoolOneDiffers | flag.h:207-208 | flag.c reads "1" as true; flag.h ignores it |

## Left out

- Usage printing: `flag_print_defaults`, `print_flag_description`, the default `errfunc` and `_flagsprint` write to stdout and exit. They are represented only by their effect: the messages handed to errFunc, and an `Exited(2)` outcome.
- The printed text of flag.c's fatal registration paths and of `perror`: only the outcome is modelled.
- The double adapters, `flagdouble` and `flagvardouble`: they work with floating point.
- `flag_var` with caller-supplied parser and display routines: these are foreign code. Only the built-in adapter kinds are modelled.
- The function-pointer aliases exported for tests (flag.c:384-387): they are trivial aliases.
- `free` in flag.h's `flagparse`: storage is never released in the model. On a table with more than 20 entries the source frees a user's storage, which is undefined for `flagvar*` storage; `FlagHeaderFacts.CrowdedTableLosesFlags` captures only the count.
- An empty argument vector (argc == 0): both parse models require the program name to be present.
- FlagSet.TypeNameWidth: the width of `Flag_.typeName` is not shown by the modelled files, so 16 is assumed.
- Findings.NameCap: `sizeof` of the `name` pointer is taken as 8 (LP64).
- FlagSet.Flagset.Register: requires a destination of the adapter's type, with a NUL inside a string buffer, because the source's display routine would otherwise read outside the object.
- FlagAdapters.ParseValue: writes a string value as `strncpy` does, `size` bytes with no guaranteed terminator. A "copies size-1 bytes and terminates" reading of the string adapter does not match the code.
- FlagSet.Flagset.Parse: the help pre-scan includes `args[0]`, and after a returning errFunc the result is FlagOK with the set still unparsed. The model follows the code in both.
- The flag.c model uses the corrected behaviour for the three accesses listed under Findings. The flag.h model follows its code as written, including its key width and undefined behaviour.

## Findings

| source | as written | input that shows it | evidently intended | confidence | as-written member | corrected member |
|---|---|---|---|---|---|---|
| flag.c:342-343 | the value token `args[++i]` is read before `i >= argc` is checked | `prog -n` with `n` a non-boolean flag reads `args[2]`, one past the two entries; only a vector ending in a NULL, as `main`'s does, makes this read defined | check the bound first, then read | not executed | Findings.ValueReadPastEnd | Findings.CorrectedValueReadInBounds |
| flag.c:299-319 | the key buffer has `sizeof` a pointer (8) bytes: without '=' names are cut to 7 chars; with '=' at 8 or later strncpy runs past it | `--verbosity` is looked up as "verbosi"; `--verbosity=2` copies 9 bytes into 8 | the key is the whole name before '=' | not executed | Findings.LongNameTruncated | Findings.EveryNameReachable |
| flag.c:42-44, 138-139 | `flag_register` passes the full `sizeof typeName` as len, so `buf[l] = '\0'` can land one past the buffer | a description with a hint of TypeNameWidth chars between backticks | pass the width minus one | not executed | Findings.LongHintOverflows | Findings.CorrectedTypeNameInBounds |
