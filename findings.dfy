/**
 * Three out-of-bounds accesses of flag.c, each written as the code does it next
 * to an input that triggers it; the rest of the model uses the corrected
 * behaviour, and the lemmas here connect the two.
 */
module Findings {
  import opened Wrappers
  import opened CStrings
  import opened FlagSet
  import opened FlagSetFacts

  // ---------------------------------------------------------------------
  // 1. The value token is read before the bound check (flag.c:342-343).

  /**
   * The index of `args` that token i's value selection reads as written: for a
   * matched non-boolean flag without '=', `args[++i]` runs before the `i >= argc`
   * check; None where no value token is read. The key is the corrected one, so
   * that this finding stands apart from the next.
   */
  function ValueIndexAsWritten(flags: seq<Flag>, args: seq<CString>, i: nat): Option<nat>
    requires 1 <= i < |args|
  {
    var tok := args[i];
    if IsBoundary(tok) then None
    else
      var body := FlagBody(tok);
      match LastMatch(flags, Key(body))
      case None => None
      case Some(j) => if flags[j].boolFlag || InlineValue(body).Some? then None else Some(i + 1)
  }

  /** The code reads `args[argc]`, one past the vector's argc entries, exactly when the last token names a non-boolean flag without '='. */
  lemma ValueReadPastEnd(flags: seq<Flag>, args: seq<CString>, i: nat)
    requires 1 <= i < |args|
    ensures ValueIndexAsWritten(flags, args, i) == Some(|args|) <==>
      (i == |args| - 1 && !IsBoundary(args[i]) && InlineValue(FlagBody(args[i])).None? &&
       LastMatch(flags, Key(FlagBody(args[i]))).Some? &&
       !flags[LastMatch(flags, Key(FlagBody(args[i]))).value].boolFlag)
  {
  }

  /**
   * Corrected: the scan binds the value token the code reads whenever that token
   * exists, and reports ErrFlagNoArg exactly where the code reads past the end.
   */
  lemma CorrectedValueReadInBounds(flags: seq<Flag>, args: seq<CString>, i: nat)
    requires 1 <= i < |args|
    ensures var k := ValueIndexAsWritten(flags, args, i);
      k.Some? && k.value < |args| ==>
        Resolve(flags, args, i).Bound? && Resolve(flags, args, i).inp == args[k.value] &&
        Resolve(flags, args, i).next == k.value + 1
    ensures ValueIndexAsWritten(flags, args, i) == Some(|args|) <==>
      (Resolve(flags, args, i).Refused? && Resolve(flags, args, i).err == ErrFlagNoArg)
  {
  }

  // ---------------------------------------------------------------------
  // 2. The key buffer has the width of a pointer (flag.c:299, 304, 319).

  /** `sizeof(((Flag *)0)->name)`: `name` is a `const char *`, 8 bytes wide on LP64 platforms. */
  const NameCap: nat := 8

  /**
   * The key as written: with no '=' the first NameCap - 1 chars; with '=' at e,
   * strncpy of e chars into NameCap bytes, which needs e < NameCap to stay in
   * bounds and leave a terminator (None: the copy runs past `key`).
   */
  function KeyAsWritten(body: CString): (r: Option<CString>)
    ensures r.Some? ==> r.value == Clip(Key(body), NameCap - 1)
    ensures r.None? <==> (InlineValue(body).Some? && |Key(body)| >= NameCap)
  {
    match IndexOf(body, '=', 0)
    case None => Some(Clip(body, NameCap - 1))
    case Some(e) => if e < NameCap then Some(body[..e]) else None
  }

  /** `--verbosity` is looked up as "verbosi", so a flag registered as "verbosity" is never found. */
  lemma LongNameTruncated()
    ensures KeyAsWritten(FlagBody("--verbosity")) == Some("verbosi")
  {
    assert FlagBody("--verbosity") == "verbosity";
    assert IndexOf("verbosity", '=', 0) == None;
    assert "verbosity"[..7] == "verbosi";
  }

  /** `--verbosity=2` asks strncpy to copy 9 chars into the 8-byte key. */
  lemma LongInlineNameOverflows()
    ensures KeyAsWritten(FlagBody("--verbosity=2")).None?
  {
    assert FlagBody("--verbosity=2") == "verbosity=2";
    assert IndexOf("verbosity=2", '=', 0) == Some(9);
  }

  /** The two keys agree exactly when the name is shorter than the pointer width. */
  lemma KeysAgreeOnShortNames(body: CString)
    ensures KeyAsWritten(body) == Some(Key(body)) <==> |Key(body)| < NameCap
  {
    if IndexOf(body, '=', 0).None? {
      assert body[..|body|] == body;
    }
  }

  /** Corrected: every name without '=' can be reached, as `--name` and as `--name=value`. */
  lemma EveryNameReachable(name: CString, value: CString)
    requires '=' !in name
    ensures Key(FlagBody("--" + name)) == name
    ensures Key(FlagBody("--" + name + "=" + value)) == name
    ensures InlineValue(FlagBody("--" + name + "=" + value)) == Some(value)
  {
    assert FlagBody("--" + name) == name;
    assert IndexOf(name, '=', 0).None?;
    var body := name + "=" + value;
    assert FlagBody("--" + name + "=" + value) == body;
    assert body[|name|] == '=';
    assert forall k :: 0 <= k < |name| ==> body[k] == name[k];
    assert IndexOf(body, '=', 0) == Some(|name|);
    assert body[..|name|] == name;
    assert body[|name| + 1..] == value;
  }

  // ---------------------------------------------------------------------
  // 3. The type hint's terminator can land one past `typeName` (flag.c:42-44, 138-139).

  /** Where `extract_type_name(desc, buf, len)` puts the NUL: after the hint clipped to len. */
  function TypeNameEnd(desc: CString, len: nat): (r: Option<nat>)
    ensures r.Some? <==> TypeHint(desc).Some?
    ensures r.Some? ==> r.value <= len
  {
    match TypeHint(desc)
    case None => None
    case Some(h) => Some(Min(|h|, len))
  }

  /** As written, `flag_register` passes len == sizeof typeName. */
  function TypeNameEndAsWritten(desc: CString): (r: Option<nat>)
    ensures r.Some? ==> r.value <= TypeNameWidth
    ensures (r.Some? && r.value == TypeNameWidth) <==> (TypeHint(desc).Some? && |TypeHint(desc).value| >= TypeNameWidth)
  {
    TypeNameEnd(desc, TypeNameWidth)
  }

  function LongHintDesc(): CString {
    "`" + seq(TypeNameWidth, _ => 'x') + "` of the hint"
  }

  /** A hint of TypeNameWidth chars makes the code write its terminator at typeName[TypeNameWidth]. */
  lemma LongHintOverflows()
    ensures TypeNameEndAsWritten(LongHintDesc()) == Some(TypeNameWidth)
  {
    var d := LongHintDesc();
    assert d[0] == Backtick;
    assert IndexOf(d, Backtick, 0) == Some(0);
    assert d[TypeNameWidth + 1] == Backtick;
    assert forall k :: 1 <= k < TypeNameWidth + 1 ==> d[k] == 'x';
    assert IndexOf(d, Backtick, 1) == Some(TypeNameWidth + 1);
    assert TypeHint(d) == Some(d[1..TypeNameWidth + 1]);
  }

  /** Corrected: with len == TypeNameWidth - 1 the terminator always lies inside `typeName`, and the hint reads back. */
  lemma CorrectedTypeNameInBounds(buf: seq<char>, desc: CString)
    requires |buf| == TypeNameWidth
    ensures TypeNameEnd(desc, TypeNameWidth - 1).Some? ==> TypeNameEnd(desc, TypeNameWidth - 1).value < |buf|
    ensures TypeHint(desc).Some? ==>
      Text(WithTypeName(buf, desc, TypeNameWidth - 1)) == Clip(TypeHint(desc).value, TypeNameWidth - 1)
  {
    TypeNameReadsBack(buf, desc, TypeNameWidth - 1);
  }
}
