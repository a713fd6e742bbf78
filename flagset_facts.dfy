/**
 * Properties of the flag.c model: what `extract_type_name` keeps, how a key is
 * looked up, what one step of the `flag_parse` scan does with a token, and what
 * the whole scan and `flag_parse` leave behind.
 */
module FlagSetFacts {
  import opened Wrappers
  import opened CStrings
  import opened Memory
  import opened FlagAdapters
  import opened FlagSet

  // ---------------------------------------------------------------------
  // Type hints

  /** Counting backticks from `from` on: none if there is no next one, else one more than after it. */
  lemma BackticksFrom(s: CString, from: nat)
    requires from <= |s|
    ensures IndexOf(s, Backtick, from).None? ==> multiset(s[from..])[Backtick] == 0
    ensures IndexOf(s, Backtick, from).Some? ==>
      multiset(s[from..])[Backtick] == 1 + multiset(s[IndexOf(s, Backtick, from).value + 1..])[Backtick]
  {
    match IndexOf(s, Backtick, from)
    case None =>
      assert Backtick !in s[from..];
    case Some(a) =>
      assert s[from..] == s[from..a] + [s[a]] + s[a + 1..];
      assert Backtick !in s[from..a];
  }

  /** A description yields a type hint exactly when it holds at least two backticks. */
  lemma TypeHintIffTwoBackticks(desc: CString)
    ensures TypeHint(desc).Some? <==> multiset(desc)[Backtick] >= 2
  {
    assert desc[0..] == desc;
    BackticksFrom(desc, 0);
    match IndexOf(desc, Backtick, 0)
    case None =>
    case Some(a) =>
      BackticksFrom(desc, a + 1);
  }

  /** The hint lies strictly between the first and the second backtick. */
  lemma TypeHintBetweenFirstTwo(desc: CString)
    requires TypeHint(desc).Some?
    ensures exists a, b :: (0 <= a < b < |desc| && desc[a] == Backtick && desc[b] == Backtick &&
      Backtick !in desc[..a] && TypeHint(desc).value == desc[a + 1..b] && Backtick !in desc[a + 1..b])
  {
    var a := IndexOf(desc, Backtick, 0).value;
    var b := IndexOf(desc, Backtick, a + 1).value;
    assert Backtick !in desc[..a];
    assert Backtick !in desc[a + 1..b];
  }

  /** After `extract_type_name` the buffer reads back as the hint clipped to len, terminated at an index <= len; without a hint it is untouched. */
  lemma TypeNameReadsBack(buf: seq<char>, desc: CString, len: nat)
    requires len < |buf|
    ensures |WithTypeName(buf, desc, len)| == |buf|
    ensures TypeHint(desc).None? ==> WithTypeName(buf, desc, len) == buf
    ensures TypeHint(desc).Some? ==>
      var t := Text(WithTypeName(buf, desc, len));
      t == Clip(TypeHint(desc).value, len) && |t| <= len && WithTypeName(buf, desc, len)[|t|] == NUL
  {
    if TypeHint(desc).Some? {
      WriteTextReadsBack(buf, Clip(TypeHint(desc).value, len));
    }
  }

  // ---------------------------------------------------------------------
  // Registration and lookup

  /** A name the verdict accepts keeps the names of the grown table distinct. */
  lemma RegisteredKeepsDistinct(flags: seq<Flag>, capacity: nat, f: Flag)
    requires NamesDistinct(flags) && RegisterVerdict(flags, capacity, f.name) == Registered
    ensures NamesDistinct(flags + [f]) && |flags + [f]| <= capacity
  {
  }

  /** The flag registered last under a name is the one a lookup finds. */
  lemma LastRegisteredWins(flags: seq<Flag>, f: Flag)
    ensures LastMatch(flags + [f], f.name) == Some(|flags|)
  {
  }

  /** Registering another name does not change what a key finds. */
  lemma OtherNameKeepsMatch(flags: seq<Flag>, f: Flag, key: CString)
    requires f.name != key
    ensures LastMatch(flags + [f], key) == LastMatch(flags, key)
  {
    assert (flags + [f])[..|flags|] == flags;
  }

  /** With distinct names, the lookup finds the one flag of that name. */
  lemma DistinctNamesMatchUniquely(flags: seq<Flag>, j: nat)
    requires NamesDistinct(flags) && j < |flags|
    ensures LastMatch(flags, flags[j].name) == Some(j)
  {
  }

  // ---------------------------------------------------------------------
  // One step of the scan

  /** The key token i asks for; meaningful when the token is not a boundary. */
  function TokenKey(args: seq<CString>, i: nat): CString
    requires i < |args| && |args[i]| > 0
  {
    Key(FlagBody(args[i]))
  }

  /** An unregistered key stops the scan: errFunc is told, nothing is written, later tokens are not looked at. */
  lemma UnknownKeyHalts(flags: seq<Flag>, args: seq<CString>, ef: ErrFunc, s: Scan)
    requires 1 <= s.i < |args| && !IsBoundary(args[s.i])
    requires LastMatch(flags, TokenKey(args, s.i)).None?
    ensures Run(flags, args, ef, s) ==
      Halted(if ef == UsageAndExit then Exited(2) else Returned(ErrFlagUnknown),
             s.(calls := s.calls + [UnknownMsg(TokenKey(args, s.i))]))
  {
  }

  /** A boolean flag parses its inline text, or "true" without one, and the scan goes on at the very next token. */
  lemma BoolTakesNoToken(flags: seq<Flag>, args: seq<CString>, ef: ErrFunc, s: Scan)
    requires 1 <= s.i < |args| && !IsBoundary(args[s.i])
    requires var m := LastMatch(flags, TokenKey(args, s.i)); m.Some? && flags[m.value].boolFlag
    ensures var f := flags[LastMatch(flags, TokenKey(args, s.i)).value];
            var inline := InlineValue(FlagBody(args[s.i]));
            Step(flags, args, ef, s) == Apply(f, if inline.Some? then inline.value else "true", ef, s, s.i + 1)
  {
  }

  /** A non-boolean flag parses its inline text and resumes at the next token. */
  lemma ValueInline(flags: seq<Flag>, args: seq<CString>, ef: ErrFunc, s: Scan)
    requires 1 <= s.i < |args| && !IsBoundary(args[s.i])
    requires var m := LastMatch(flags, TokenKey(args, s.i)); m.Some? && !flags[m.value].boolFlag
    requires InlineValue(FlagBody(args[s.i])).Some?
    ensures Step(flags, args, ef, s) ==
      Apply(flags[LastMatch(flags, TokenKey(args, s.i)).value], InlineValue(FlagBody(args[s.i])).value, ef, s, s.i + 1)
  {
  }

  /** A non-boolean flag without inline text consumes the following token as its value. */
  lemma ValueFromNextToken(flags: seq<Flag>, args: seq<CString>, ef: ErrFunc, s: Scan)
    requires 1 <= s.i && s.i + 1 < |args| && !IsBoundary(args[s.i])
    requires var m := LastMatch(flags, TokenKey(args, s.i)); m.Some? && !flags[m.value].boolFlag
    requires InlineValue(FlagBody(args[s.i])).None?
    ensures Step(flags, args, ef, s) ==
      Apply(flags[LastMatch(flags, TokenKey(args, s.i)).value], args[s.i + 1], ef, s, s.i + 2)
  {
    var body := FlagBody(args[s.i]);
    var j := LastMatch(flags, Key(body)).value;
    assert !flags[j].boolFlag && InlineValue(body).None?;
    assert Resolve(flags, args, s.i) == Bound(flags[j], args[s.i + 1], s.i + 2);
  }

  /** A non-boolean flag without inline text as the last token ends the scan with ErrFlagNoArg. */
  lemma MissingValueHalts(flags: seq<Flag>, args: seq<CString>, ef: ErrFunc, s: Scan)
    requires s.i + 1 == |args| && s.i >= 1 && !IsBoundary(args[s.i])
    requires var m := LastMatch(flags, TokenKey(args, s.i)); m.Some? && !flags[m.value].boolFlag
    requires InlineValue(FlagBody(args[s.i])).None?
    ensures Run(flags, args, ef, s) ==
      Halted(if ef == UsageAndExit then Exited(2) else Returned(ErrFlagNoArg),
             s.(calls := s.calls + [NoArgMsg(TokenKey(args, s.i))]))
  {
  }

  // ---------------------------------------------------------------------
  // The whole scan

  /** A finished scan stopped at a boundary token or at the end of the arguments. */
  lemma {:induction false} FinishedAtBoundary(flags: seq<Flag>, args: seq<CString>, ef: ErrFunc, s: Scan)
    requires 1 <= s.i <= |args|
    requires Run(flags, args, ef, s).Finished?
    ensures var t := Run(flags, args, ef, s).s;
            s.i <= t.i <= |args| && (t.i == |args| || IsBoundary(args[t.i]))
    decreases |args| - s.i
  {
    if s.i < |args| {
      match Step(flags, args, ef, s)
      case Stop =>
        assert Resolve(flags, args, s.i).Boundary?;
      case Halt(_, _) =>
      case Next(n) =>
        FinishedAtBoundary(flags, args, ef, n);
    }
  }

  /**
   * Every token a finished scan passed over was read in flag position and is no
   * boundary, or is the value token the non-boolean flag just before it consumed.
   */
  lemma PassedTokens(flags: seq<Flag>, args: seq<CString>, ef: ErrFunc, s: Scan)
    requires 1 <= s.i <= |args|
    requires Run(flags, args, ef, s).Finished?
    ensures forall k :: s.i <= k < Run(flags, args, ef, s).s.i ==> PassedOver(flags, args, s.i, k)
  {
    forall k | s.i <= k < Run(flags, args, ef, s).s.i
      ensures PassedOver(flags, args, s.i, k)
    {
      PassedToken(flags, args, ef, s, k);
    }
  }

  /** Token k, passed over by a scan that began at `from`, is no boundary or is the value of the non-boolean flag at k - 1. */
  predicate PassedOver(flags: seq<Flag>, args: seq<CString>, from: nat, k: nat)
    requires 1 <= from <= k < |args|
  {
    !IsBoundary(args[k]) ||
    (from < k && Resolve(flags, args, k - 1).Bound? && !Resolve(flags, args, k - 1).f.boolFlag &&
     Resolve(flags, args, k - 1).next == k + 1 && Resolve(flags, args, k - 1).inp == args[k])
  }

  lemma {:induction false} PassedToken(flags: seq<Flag>, args: seq<CString>, ef: ErrFunc, s: Scan, k: nat)
    requires 1 <= s.i <= |args| && Run(flags, args, ef, s).Finished?
    requires s.i <= k < Run(flags, args, ef, s).s.i
    ensures PassedOver(flags, args, s.i, k)
    decreases |args| - s.i
  {
    RunMoved(flags, args, ef, s);
    var n := Step(flags, args, ef, s).next;
    assert Resolve(flags, args, s.i).Bound?;
    if k == s.i {
    } else if k < n.i {
      assert k == s.i + 1 && n.i == s.i + 2;
    } else {
      PassedToken(flags, args, ef, n, k);
    }
  }

  /** A scan that finished past its start took a step and went on from there. */
  lemma RunMoved(flags: seq<Flag>, args: seq<CString>, ef: ErrFunc, s: Scan)
    requires 1 <= s.i <= |args| && Run(flags, args, ef, s).Finished? && s.i < Run(flags, args, ef, s).s.i
    ensures s.i < |args| && Step(flags, args, ef, s).Next?
    ensures Run(flags, args, ef, s) == Run(flags, args, ef, Step(flags, args, ef, s).next)
  {
  }

  /** A scan that halts never reports success: it halts with an error code, an exit, or undefined behaviour. */
  lemma {:induction false} HaltedNeverOK(flags: seq<Flag>, args: seq<CString>, ef: ErrFunc, s: Scan)
    requires 1 <= s.i <= |args|
    requires Run(flags, args, ef, s).Halted?
    ensures Run(flags, args, ef, s).outcome != Returned(FlagOK)
    decreases |args| - s.i
  {
    match Step(flags, args, ef, s)
    case Stop =>
    case Halt(_, _) =>
      assert !Resolve(flags, args, s.i).Boundary?;
    case Next(n) =>
      HaltedNeverOK(flags, args, ef, n);
  }

  /** No flag's destination is at address p. */
  predicate NotADestination(flags: seq<Flag>, p: nat) {
    forall j :: 0 <= j < |flags| ==> flags[j].value != p
  }

  /** The scan writes destinations only: every other cell, and the number of cells, stay as they were. */
  lemma {:induction false} ScanWritesOnlyDestinations(flags: seq<Flag>, args: seq<CString>, ef: ErrFunc, s: Scan, p: nat)
    requires 1 <= s.i <= |args|
    requires p < |s.cells| && NotADestination(flags, p)
    ensures |Run(flags, args, ef, s).s.cells| == |s.cells|
    ensures Run(flags, args, ef, s).s.cells[p] == s.cells[p]
    decreases |args| - s.i
  {
    if s.i < |args| {
      match Step(flags, args, ef, s)
      case Stop =>
      case Halt(_, _) =>
        StepHaltKeepsCells(flags, args, ef, s);
      case Next(n) =>
        StepWritesOnlyDestinations(flags, args, ef, s, p);
        ScanWritesOnlyDestinations(flags, args, ef, n, p);
    }
  }

  lemma StepHaltKeepsCells(flags: seq<Flag>, args: seq<CString>, ef: ErrFunc, s: Scan)
    requires 1 <= s.i < |args| && Step(flags, args, ef, s).Halt?
    ensures Step(flags, args, ef, s).last.cells == s.cells
  {
  }

  /** The flag a token binds to is a registered one. */
  lemma BoundIsRegistered(flags: seq<Flag>, args: seq<CString>, i: nat)
    requires 1 <= i < |args| && Resolve(flags, args, i).Bound?
    ensures Resolve(flags, args, i).f in flags
  {
  }

  /** A step that goes on bound its token to a registered flag and changed at most that flag's destination. */
  lemma StepWritesOnlyDestinations(flags: seq<Flag>, args: seq<CString>, ef: ErrFunc, s: Scan, p: nat)
    requires 1 <= s.i < |args| && Step(flags, args, ef, s).Next?
    requires p < |s.cells|
    ensures Resolve(flags, args, s.i).Bound? && Resolve(flags, args, s.i).f in flags
    ensures |Step(flags, args, ef, s).next.cells| == |s.cells|
    ensures p != Resolve(flags, args, s.i).f.value ==> Step(flags, args, ef, s).next.cells[p] == s.cells[p]
  {
    BoundIsRegistered(flags, args, s.i);
  }

  /** `w` has the C type of `v`, and a string buffer keeps its width. */
  predicate SameShape(v: Val, w: Val) {
    v.B? == w.B? && v.I? == w.I? && v.L? == w.L? && v.S? == w.S? && (v.S? ==> |v.chars| == |w.chars|)
  }

  /** A parser that returns leaves its destination's type and width as they were. */
  lemma AdaptKeepsShape(kind: Kind, size: nat, inp: CString, ef: ErrFunc, v: Val)
    requires Adapt(kind, size, inp, ef, v).Stored?
    ensures SameShape(v, Adapt(kind, size, inp, ef, v).v)
  {
  }

  lemma SameShapeFits(kind: Kind, size: nat, v: Val, w: Val)
    requires SameShape(v, w) && Fits(kind, size, v)
    ensures Fits(kind, size, w)
  {
  }

  /** One step keeps every destination typed, even when destinations alias. */
  lemma StepKeepsTypes(flags: seq<Flag>, args: seq<CString>, ef: ErrFunc, s: Scan)
    requires 1 <= s.i < |args| && Step(flags, args, ef, s).Next? && Typed(flags, s.cells)
    ensures Typed(flags, Step(flags, args, ef, s).next.cells)
  {
    var res := Resolve(flags, args, s.i);
    BoundIsRegistered(flags, args, s.i);
    var f, inp := res.f, res.inp;
    var v := s.cells[f.value];
    AdaptKeepsShape(f.kind, f.size, inp, ef, v);
    var w := Adapt(f.kind, f.size, inp, ef, v).v;
    var cells' := Step(flags, args, ef, s).next.cells;
    assert cells' == s.cells[f.value := w];
    forall j | 0 <= j < |flags|
      ensures flags[j].value < |cells'| && Fits(flags[j].kind, flags[j].size, cells'[flags[j].value])
    {
      if flags[j].value == f.value {
        SameShapeFits(flags[j].kind, flags[j].size, v, w);
      }
    }
  }

  /** The scan keeps every destination typed. */
  lemma {:induction false} ScanKeepsTypes(flags: seq<Flag>, args: seq<CString>, ef: ErrFunc, s: Scan)
    requires 1 <= s.i <= |args| && Typed(flags, s.cells)
    ensures Typed(flags, Run(flags, args, ef, s).s.cells)
    decreases |args| - s.i
  {
    if s.i < |args| {
      match Step(flags, args, ef, s)
      case Stop =>
      case Halt(_, _) =>
        StepHaltKeepsCells(flags, args, ef, s);
      case Next(n) =>
        StepKeepsTypes(flags, args, ef, s);
        ScanKeepsTypes(flags, args, ef, n);
    }
  }

  /** On typed destinations a step is undefined only when atoi/atoll reads a number out of range. */
  lemma UndefinedOnlyOnOverflow(flags: seq<Flag>, args: seq<CString>, ef: ErrFunc, s: Scan)
    requires 1 <= s.i < |args| && Typed(flags, s.cells)
    requires Step(flags, args, ef, s) == Halt(Undefined, s)
    ensures var res := Resolve(flags, args, s.i);
      res.Bound? &&
      ((res.f.kind == IntKind && !InIntRange(Atoi(res.inp))) ||
       (res.f.kind == LongKind && !InLongRange(Atoi(res.inp))))
  {
    BoundIsRegistered(flags, args, s.i);
  }

  // ---------------------------------------------------------------------
  // flag_parse

  /** A set already parsed is left as it is, with no call to errFunc. */
  lemma ParsedSetUnchanged(flags: seq<Flag>, ef: ErrFunc, argc: nat, argv: seq<CString>, args: seq<CString>, cells: seq<Val>)
    requires |args| >= 1 && |argv| == ArgvSlots
    ensures ParseSpec(flags, ef, true, argc, argv, args, cells) ==
      ParseEffect(Returned(ErrFlagAlreadyParsed), true, argc, argv, cells, [])
  {
  }

  /** A help token anywhere, even as the program name, wins over every flag: errFunc is told and nothing is parsed. */
  lemma HelpWins(flags: seq<Flag>, ef: ErrFunc, argc: nat, argv: seq<CString>, args: seq<CString>, cells: seq<Val>, k: nat)
    requires |args| >= 1 && |argv| == ArgvSlots && k < |args| && IsHelp(args[k])
    ensures var r := ParseSpec(flags, ef, false, argc, argv, args, cells);
      !r.parsed && r.cells == cells && r.calls == [HelpMsg] && r.argc == argc &&
      r.outcome == (if ef == UsageAndExit then Exited(2) else Returned(FlagOK))
  {
  }

  /** A successful parse marks the set parsed and leaves the program name followed by everything from the boundary token where the scan stopped. */
  lemma SuccessLeavesLeftover(flags: seq<Flag>, ef: ErrFunc, parsed: bool, argc: nat, argv: seq<CString>,
                              args: seq<CString>, cells: seq<Val>)
    requires |args| >= 1 && |argv| == ArgvSlots
    requires ParseSpec(flags, ef, parsed, argc, argv, args, cells).outcome == Returned(FlagOK)
    requires !HasHelp(args)
    ensures var r := ParseSpec(flags, ef, parsed, argc, argv, args, cells);
      var t := Run(flags, args, ef, Scan(1, cells, []));
      r.parsed && !parsed && |r.argv| == ArgvSlots && 1 <= r.argc <= ArgvSlots && t.Finished? &&
      (t.s.i == |args| || IsBoundary(args[t.s.i])) &&
      r.argc == |args| - t.s.i + 1 && r.argv[..r.argc] == [args[0]] + args[t.s.i..]
  {
    var start := Scan(1, cells, []);
    var run := Run(flags, args, ef, start);
    if run.Halted? {
      HaltedNeverOK(flags, args, ef, start);
    } else {
      FinishedAtBoundary(flags, args, ef, start);
      var i := run.s.i;
      var r := ParseSpec(flags, ef, parsed, argc, argv, args, cells);
      assert r.argv[..r.argc] == [args[0]] + args[i..];
    }
  }

  /** The leftover view holds at most 100 entries; more leftovers end the process. */
  lemma TooManyLeftoversExit(flags: seq<Flag>, ef: ErrFunc, argc: nat, argv: seq<CString>, args: seq<CString>, cells: seq<Val>)
    requires |args| >= 1 && |argv| == ArgvSlots && !HasHelp(args)
    requires Run(flags, args, ef, Scan(1, cells, [])).Finished?
    requires |args| - Run(flags, args, ef, Scan(1, cells, [])).s.i + 1 > ArgvSlots
    ensures ParseSpec(flags, ef, false, argc, argv, args, cells).outcome == Exited(2)
  {
  }

  // ---------------------------------------------------------------------
  // A worked example

  /** A set with a boolean `-v` at address 0 and an int `-n` at address 1. */
  function ExampleFlags(): seq<Flag> {
    var tn := seq(TypeNameWidth, _ => NUL);
    var dv := seq(DisplayWidth, _ => NUL);
    [Flag(0, 1, BoolKind, "v", "be verbose", tn, dv, true),
     Flag(1, 4, IntKind, "n", "`count` of items", tn, dv, false)]
  }

  function ExampleArgs(): seq<CString> {
    ["prog", "-v", "--n=7", "file", "-x"]
  }

  /** `-v` sets the boolean to true. */
  lemma ExampleBool()
    ensures Step(ExampleFlags(), ExampleArgs(), UsageAndExit, Scan(1, [B(false), I(0)], [])) ==
      Next(Scan(2, [B(true), I(0)], []))
  {
    assert Key("v") == "v";
  }

  lemma ExampleAtoi()
    ensures Atoi("7") == 7
  {
    AtoiOfDigits("7");
  }

  /** `--n=7` binds the inline text "7" to `-n`. */
  lemma ExampleIntToken()
    ensures Resolve(ExampleFlags(), ExampleArgs(), 2) == Bound(ExampleFlags()[1], "7", 3)
  {
    assert FlagBody("--n=7") == "n=7";
    assert IndexOf("n=7", '=', 0) == Some(1);
    assert Key("n=7") == "n" && InlineValue("n=7") == Some("7");
  }

  /** `--n=7` stores 7 through the int destination. */
  lemma ExampleInt()
    ensures Step(ExampleFlags(), ExampleArgs(), UsageAndExit, Scan(2, [B(true), I(0)], [])) ==
      Next(Scan(3, [B(true), I(7)], []))
  {
    ExampleIntToken();
    ExampleAtoi();
    assert Adapt(IntKind, 4, "7", UsageAndExit, I(0)) == Stored(I(7), None);
  }

  /** No token of the example asks for help. */
  lemma ExampleNoHelp()
    ensures !HasHelp(ExampleArgs())
  {
    var args := ExampleArgs();
    forall k | 0 <= k < |args| ensures !IsHelp(args[k]) {
    }
  }

  /** The scan sets both flags and stops at the positional `file`. */
  lemma ExampleScan()
    ensures Run(ExampleFlags(), ExampleArgs(), UsageAndExit, Scan(1, [B(false), I(0)], [])) ==
      Finished(Scan(3, [B(true), I(7)], []))
  {
    var flags, args := ExampleFlags(), ExampleArgs();
    var s3 := Scan(3, [B(true), I(7)], []);
    ExampleBool();
    ExampleInt();
    assert IsBoundary(args[3]);
    assert Step(flags, args, UsageAndExit, s3) == Stop;
  }

  /** `prog -v --n=7 file -x`: both flags are set, and the scan stops at `file`, so `-x` is a leftover. */
  lemma ExampleParse(argv: seq<CString>)
    requires |argv| == ArgvSlots
    ensures ParseSpec(ExampleFlags(), UsageAndExit, false, 0, argv, ExampleArgs(), [B(false), I(0)]) ==
      ParseEffect(Returned(FlagOK), true, 3, ["prog", "file", "-x"] + argv[3..], [B(true), I(7)], [])
  {
    ExampleNoHelp();
    ExampleScan();
    assert Leftover(ExampleArgs(), 3) == ["prog", "file", "-x"];
  }

  // ---------------------------------------------------------------------
  // flag_err_str

  /** Distinct errors have distinct names. */
  lemma ErrStrInjective(a: FlagErr, b: FlagErr)
    requires ErrStr(a) == ErrStr(b)
    ensures a == b
  {
  }
}
