/**
 * Properties of the flag.h model: a table that warns about duplicates but still
 * appends them, the codes `flagparse` answers with, the leftovers it publishes,
 * and what becomes of the two temporary help entries.
 */
module FlagHeaderFacts {
  import opened Wrappers
  import opened CStrings
  import opened Memory
  import opened FlagHeader

  // ---------------------------------------------------------------------
  // Registration

  /** A duplicate name is reported once per earlier entry, yet appended, so two entries of that name coexist. */
  lemma DuplicateStillAppended(slots: seq<Entry>, count: nat, value: nat, name: CString, desc: CString, t: FlagType, k: nat)
    requires |slots| == Slots && k < count < Slots && slots[k].name == name && |name| <= NameWidth
    ensures var r := Registered(slots, count, value, name, desc, t);
      r.count == count + 1 && |r.out| > 0 && r.out[0] == DuplicateMsg(name) &&
      r.slots[k].name == name && r.slots[count].name == name
  {
    var r := Registered(slots, count, value, name, desc, t);
    assert slots[..count][k] == slots[k];
    assert name[..|name|] == name;
    assert r.slots[..count][k] == r.slots[k];
  }

  /** A full table takes nothing more; it only warns. */
  lemma FullTableUnchanged(slots: seq<Entry>, value: nat, name: CString, desc: CString, t: FlagType)
    requires |slots| == Slots
    ensures var r := Registered(slots, Slots, value, name, desc, t);
      r.slots == slots && r.count == Slots && r.out[|r.out| - 1] == LimitMsg
  {
  }

  /** The stored name and description are the first 24 and 99 chars of the arguments. */
  lemma StoredTextClipped(slots: seq<Entry>, count: nat, value: nat, name: CString, desc: CString, t: FlagType)
    requires |slots| == Slots && count < Slots
    ensures var e := Registered(slots, count, value, name, desc, t).slots[count];
      e == Entry(t, value, e.name, e.desc) &&
      |e.name| == Min(|name|, NameWidth) && e.name == name[..|e.name|] &&
      |e.desc| == Min(|desc|, DescWidth) && e.desc == desc[..|e.desc|]
  {
  }

  // ---------------------------------------------------------------------
  // The scan

  /** A halted scan answers 1 (unknown flag), 2 (missing argument), or runs into undefined behaviour. */
  lemma {:induction false} HaltedCodes(entries: seq<Entry>, args: seq<CString>, s: Scan)
    requires 1 <= s.i <= |args| && Run(entries, args, s).Halted?
    ensures Run(entries, args, s).outcome in {Returned(1), Returned(2), Undefined}
    decreases |args| - s.i
  {
    match Step(entries, args, s)
    case Stop =>
    case Halt(_, _) =>
      assert !Resolve(entries, args, s.i).Boundary?;
    case Next(n) =>
      HaltedCodes(entries, args, n);
  }

  /** A finished scan stopped at the end or at a token not starting with '-'. */
  lemma {:induction false} FinishedAtNonDash(entries: seq<Entry>, args: seq<CString>, s: Scan)
    requires 1 <= s.i <= |args| && Run(entries, args, s).Finished?
    ensures var t := Run(entries, args, s).s;
      t.i == |args| || |args[t.i]| == 0 || args[t.i][0] != '-'
    decreases |args| - s.i
  {
    if s.i < |args| {
      match Step(entries, args, s)
      case Stop =>
        assert Resolve(entries, args, s.i).Boundary?;
      case Halt(_, _) =>
      case Next(n) =>
        FinishedAtNonDash(entries, args, n);
    }
  }

  /**
   * Every token a finished scan passed over started with '-' and was read as a
   * flag, or is the value token the non-boolean entry just before it consumed.
   */
  lemma PassedTokens(entries: seq<Entry>, args: seq<CString>, s: Scan)
    requires 1 <= s.i <= |args| && Run(entries, args, s).Finished?
    ensures forall k :: s.i <= k < Run(entries, args, s).s.i ==> PassedOver(entries, args, s.i, k)
  {
    forall k | s.i <= k < Run(entries, args, s).s.i
      ensures PassedOver(entries, args, s.i, k)
    {
      PassedToken(entries, args, s, k);
    }
  }

  /** Token k, passed over by a scan that began at `from`, starts with '-' or is the value of the non-boolean entry at k - 1. */
  predicate PassedOver(entries: seq<Entry>, args: seq<CString>, from: nat, k: nat)
    requires 1 <= from <= k < |args|
  {
    (|args[k]| > 0 && args[k][0] == '-') ||
    (from < k && Resolve(entries, args, k - 1).Bound? && Resolve(entries, args, k - 1).e.kind != BoolType &&
     Resolve(entries, args, k - 1).next == k + 1 && Resolve(entries, args, k - 1).inp == Some(args[k]))
  }

  lemma {:induction false} PassedToken(entries: seq<Entry>, args: seq<CString>, s: Scan, k: nat)
    requires 1 <= s.i <= |args| && Run(entries, args, s).Finished?
    requires s.i <= k < Run(entries, args, s).s.i
    ensures PassedOver(entries, args, s.i, k)
    decreases |args| - s.i
  {
    RunMoved(entries, args, s);
    var n := Step(entries, args, s).next;
    StepPasses(entries, args, s);
    if k == s.i {
    } else if k < n.i {
      assert k == s.i + 1 && n.i == s.i + 2;
    } else {
      PassedToken(entries, args, n, k);
    }
  }

  /** A scan that finished past its start took a step and went on from there. */
  lemma RunMoved(entries: seq<Entry>, args: seq<CString>, s: Scan)
    requires 1 <= s.i <= |args| && Run(entries, args, s).Finished? && s.i < Run(entries, args, s).s.i
    ensures s.i < |args| && Step(entries, args, s).Next?
    ensures Run(entries, args, s) == Run(entries, args, Step(entries, args, s).next)
  {
  }

  /** A step that goes on read a dash token, and moved past one more token only as the value of a non-boolean entry. */
  lemma StepPasses(entries: seq<Entry>, args: seq<CString>, s: Scan)
    requires 1 <= s.i < |args| && Step(entries, args, s).Next?
    ensures |args[s.i]| > 0 && args[s.i][0] == '-'
    ensures var n := Step(entries, args, s).next.i;
      n == s.i + 1 ||
      (n == s.i + 2 && Resolve(entries, args, s.i).Bound? && Resolve(entries, args, s.i).e.kind != BoolType &&
       Resolve(entries, args, s.i).next == s.i + 2 && Resolve(entries, args, s.i).inp == Some(args[s.i + 1]))
  {
    assert Resolve(entries, args, s.i).Bound?;
  }

  /** A boolean entry never takes the next token. */
  lemma BoolTakesNoToken(entries: seq<Entry>, args: seq<CString>, i: nat)
    requires 1 <= i < |args|
    requires var r := Resolve(entries, args, i); r.Bound? && r.e.kind == BoolType
    ensures Resolve(entries, args, i).next == i + 1
  {
  }

  /** Boolean text: none or "true" sets, "false" clears, anything else leaves the value. */
  lemma BoolAssign(inp: Option<CString>, b: bool)
    ensures Assign(BoolType, inp, B(b)) ==
      Some(B(if inp.None? || inp.value == "true" then true else if inp.value == "false" then false else b))
  {
  }

  /** A non-boolean flag without '=' as the last token answers 2 and names its key. */
  lemma MissingArgumentCode(entries: seq<Entry>, args: seq<CString>, i: nat)
    requires i + 1 == |args| && i >= 1 && |args[i]| > 0 && args[i][0] == '-'
    requires var c := DashesOff(args[i]);
      HeaderKey(c).Some? && Inline(c).None? &&
      var m := LastEntry(entries, HeaderKey(c).value); m.Some? && entries[m.value].kind != BoolType
    ensures Resolve(entries, args, i) == Refused(2, NoArgumentMsg(HeaderKey(DashesOff(args[i])).value))
  {
  }

  // ---------------------------------------------------------------------
  // flagparse

  /** Once parsed, `flagparse` answers 3 and changes nothing. */
  lemma ParsedAnswers3(slots: seq<Entry>, count: nat, argc: int, argv: seq<CString>, args: seq<CString>, cells: seq<Val>)
    requires |slots| == Slots && count <= Slots && |args| >= 1
    ensures ParseSpec(slots, count, true, argc, argv, args, cells) ==
      Effect(Returned(3), slots, count, true, argc, argv, cells, [AlreadyParsedMsg])
  {
  }

  /** The table after the two temporaries on a table with room for both. */
  lemma TemporariesRegistered(slots: seq<Entry>, count: nat, n: nat)
    requires |slots| == Slots && count <= MaxFlags
    ensures var r1 := Registered(slots, count, n, "h", "", BoolType);
            var r2 := Registered(r1.slots, r1.count, n + 1, "help", "", BoolType);
      r2.count == count + 2 && r2.slots[..count] == slots[..count] &&
      r2.slots[count] == Entry(BoolType, n, "h", "") && r2.slots[count + 1] == Entry(BoolType, n + 1, "help", "")
  {
    var r1 := Registered(slots, count, n, "h", "", BoolType);
    var r2 := Registered(r1.slots, r1.count, n + 1, "help", "", BoolType);
    assert r2.slots[..count] == r2.slots[..count + 1][..count];
    assert Clip("h", NameWidth) == "h" && Clip("", DescWidth) == "";
    assert Clip("help", NameWidth) == "help";
  }

  /** The table `flagparse` leaves after its scan: success drops two entries; every other outcome keeps them. */
  lemma ScannedTable(slots: seq<Entry>, count: nat, argc: int, argv: seq<CString>, args: seq<CString>,
                     cells: seq<Val>, hp: nat, helpp: nat, out: seq<CString>)
    requires count <= |slots| && |args| >= 1 && hp < |cells| && helpp < |cells|
    ensures var r := Scanned(slots, count, argc, argv, args, cells, hp, helpp, out);
      r.slots == slots &&
      (r.outcome == Returned(0) ==> r.parsed && r.count == (if count >= 2 then count - 2 else 0)) &&
      (r.outcome != Returned(0) ==> !r.parsed && r.count == count)
  {
    var start := Scan(1, cells, out);
    if Run(slots[..count], args, start).Halted? {
      HaltedCodes(slots[..count], args, start);
    }
  }

  /** A successful parse publishes the tokens from where the scan stopped, a token not starting with '-', without the program name. */
  lemma SuccessLeftovers(slots: seq<Entry>, count: nat, argc: int, argv: seq<CString>, args: seq<CString>, cells: seq<Val>)
    requires |slots| == Slots && count <= Slots && |args| >= 1
    requires ParseSpec(slots, count, false, argc, argv, args, cells).outcome == Returned(0)
    ensures var r := ParseSpec(slots, count, false, argc, argv, args, cells);
      var r1 := Registered(slots, count, |cells|, "h", "", BoolType);
      var r2 := Registered(r1.slots, r1.count, |cells| + 1, "help", "", BoolType);
      var t := Run(r2.slots[..r2.count], args, Scan(1, cells + [B(false), B(false)], r1.out + r2.out));
      r.parsed && r.argc == |r.argv| && t.Finished? &&
      (t.s.i == |args| || |args[t.s.i]| == 0 || args[t.s.i][0] != '-') && r.argv == args[t.s.i..]
  {
    var r1 := Registered(slots, count, |cells|, "h", "", BoolType);
    var r2 := Registered(r1.slots, r1.count, |cells| + 1, "help", "", BoolType);
    var start := Scan(1, cells + [B(false), B(false)], r1.out + r2.out);
    var run := Run(r2.slots[..r2.count], args, start);
    if run.Halted? {
      HaltedCodes(r2.slots[..r2.count], args, start);
    } else {
      FinishedAtNonDash(r2.slots[..r2.count], args, start);
    }
  }

  /** With room for both temporaries, success removes them again and the table is as before. */
  lemma SuccessRestoresTable(slots: seq<Entry>, count: nat, argc: int, argv: seq<CString>, args: seq<CString>, cells: seq<Val>)
    requires |slots| == Slots && count <= MaxFlags && |args| >= 1
    requires ParseSpec(slots, count, false, argc, argv, args, cells).outcome == Returned(0)
    ensures var r := ParseSpec(slots, count, false, argc, argv, args, cells);
      r.count == count && r.slots[..count] == slots[..count]
  {
    TemporariesRegistered(slots, count, |cells|);
    var r1 := Registered(slots, count, |cells|, "h", "", BoolType);
    var r2 := Registered(r1.slots, r1.count, |cells| + 1, "help", "", BoolType);
    ScannedTable(r2.slots, r2.count, argc, argv, args, cells + [B(false), B(false)], |cells|, |cells| + 1, r1.out + r2.out);
  }

  /** An unknown flag or a missing argument returns early, and the temporaries stay registered after the user's entries. */
  lemma EarlyReturnKeepsTemporaries(slots: seq<Entry>, count: nat, argc: int, argv: seq<CString>, args: seq<CString>, cells: seq<Val>)
    requires |slots| == Slots && count <= MaxFlags && |args| >= 1
    requires ParseSpec(slots, count, false, argc, argv, args, cells).outcome in {Returned(1), Returned(2)}
    ensures var r := ParseSpec(slots, count, false, argc, argv, args, cells);
      !r.parsed && r.count == count + 2 && r.slots[..count] == slots[..count] &&
      r.slots[count].name == "h" && r.slots[count + 1].name == "help"
  {
    TemporariesRegistered(slots, count, |cells|);
    var r1 := Registered(slots, count, |cells|, "h", "", BoolType);
    var r2 := Registered(r1.slots, r1.count, |cells| + 1, "help", "", BoolType);
    ScannedTable(r2.slots, r2.count, argc, argv, args, cells + [B(false), B(false)], |cells|, |cells| + 1, r1.out + r2.out);
  }

  /** On a table with more than MAXFLAGS entries the temporaries do not all fit, yet two entries are dropped: user flags are lost. */
  lemma CrowdedTableLosesFlags(slots: seq<Entry>, count: nat, argc: int, argv: seq<CString>, args: seq<CString>, cells: seq<Val>)
    requires |slots| == Slots && MaxFlags < count <= Slots && |args| >= 1
    requires ParseSpec(slots, count, false, argc, argv, args, cells).outcome == Returned(0)
    ensures var r := ParseSpec(slots, count, false, argc, argv, args, cells);
      r.count == MaxFlags < count && r.slots[..r.count] == slots[..MaxFlags]
  {
    var r1 := Registered(slots, count, |cells|, "h", "", BoolType);
    var r2 := Registered(r1.slots, r1.count, |cells| + 1, "help", "", BoolType);
    assert r2.count == Slots;
    ScannedTable(r2.slots, r2.count, argc, argv, args, cells + [B(false), B(false)], |cells|, |cells| + 1, r1.out + r2.out);
    assert r2.slots[..MaxFlags] == r2.slots[..count][..MaxFlags];
    assert slots[..MaxFlags] == slots[..count][..MaxFlags];
    assert r1.slots[..MaxFlags] == r1.slots[..count][..MaxFlags];
  }

  /** The temporary `h` shadows a user flag of the same name, so `-h` always reaches the help check. */
  lemma TemporaryShadowsUserH(slots: seq<Entry>, count: nat, n: nat)
    requires |slots| == Slots && count <= MaxFlags
    ensures var r1 := Registered(slots, count, n, "h", "", BoolType);
            var r2 := Registered(r1.slots, r1.count, n + 1, "help", "", BoolType);
      LastEntry(r2.slots[..r2.count], "h") == Some(count)
  {
    TemporariesRegistered(slots, count, n);
  }
}
