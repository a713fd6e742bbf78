/**
 * flag.c against flag.h on the same inputs: where the two designs answer
 * differently for one command line or one registration.
 */
module FlagVariants {
  import opened Wrappers
  import opened CStrings
  import opened Memory
  import FA = FlagAdapters
  import FS = FlagSet
  import FSF = FlagSetFacts
  import FH = FlagHeader

  // ---------------------------------------------------------------------
  // The worked command line of FlagSetFacts, on flag.h

  /** flag.h's table with a boolean `v` at address 0 and an int `n` at address 1. */
  function HeaderSlots(): seq<FH.Entry> {
    seq(FH.Slots, k => if k == 0 then FH.Entry(FH.BoolType, 0, "v", "")
                       else if k == 1 then FH.Entry(FH.IntType, 1, "n", "")
                       else FH.Entry(FH.BoolType, 0, "", ""))
  }

  function HeaderEntries(): seq<FH.Entry> {
    [FH.Entry(FH.BoolType, 0, "v", ""), FH.Entry(FH.IntType, 1, "n", ""),
     FH.Entry(FH.BoolType, 2, "h", ""), FH.Entry(FH.BoolType, 3, "help", "")]
  }

  /** The two temporaries land in slots 2 and 3, with no warning. */
  lemma HeaderTemporaries()
    ensures var r1 := FH.Registered(HeaderSlots(), 2, 2, "h", "", FH.BoolType);
            var r2 := FH.Registered(r1.slots, r1.count, 3, "help", "", FH.BoolType);
      r2.count == 4 && r2.slots[..4] == HeaderEntries() && r1.out + r2.out == []
  {
    var slots := HeaderSlots();
    assert slots[..2] == [slots[0], slots[1]];
    var r1 := FH.Registered(slots, 2, 2, "h", "", FH.BoolType);
    assert FH.Duplicates(slots[..2], "h") == [] by {
      assert forall k :: 0 <= k < 2 ==> slots[..2][k].name != "h";
    }
    assert r1.slots[..3] == [slots[0], slots[1], r1.slots[2]];
    assert FH.Duplicates(r1.slots[..3], "help") == [] by {
      assert forall k :: 0 <= k < 3 ==> r1.slots[..3][k].name != "help";
    }
    HeaderTemporarySlots(slots);
  }

  /** The slots the two temporaries fill on the worked table. */
  lemma HeaderTemporarySlots(slots: seq<FH.Entry>)
    requires slots == HeaderSlots()
    ensures var r1 := FH.Registered(slots, 2, 2, "h", "", FH.BoolType);
            var r2 := FH.Registered(r1.slots, r1.count, 3, "help", "", FH.BoolType);
      r2.slots[..4] == HeaderEntries()
  {
    var r1 := FH.Registered(slots, 2, 2, "h", "", FH.BoolType);
    var r2 := FH.Registered(r1.slots, r1.count, 3, "help", "", FH.BoolType);
    assert Clip("h", FH.NameWidth) == "h" && Clip("", FH.DescWidth) == "";
    assert Clip("help", FH.NameWidth) == "help";
    assert r2.slots[..4] == [slots[0], slots[1], r2.slots[2], r2.slots[3]];
  }

  /** `-v` binds no text to `v`. */
  lemma HeaderBoolToken()
    ensures FH.Resolve(HeaderEntries(), FSF.ExampleArgs(), 1) == FH.Bound(HeaderEntries()[0], None, 2)
  {
    assert FH.DashesOff("-v") == "v";
    assert IndexOf("v", '=', 0) == None;
    assert Clip("v", FH.KeyWidth) == "v";
    assert FH.HeaderKey("v") == Some("v") && FH.Inline("v") == None;
  }

  /** `-v` sets the boolean. */
  lemma HeaderBool()
    ensures FH.Step(HeaderEntries(), FSF.ExampleArgs(), FH.Scan(1, [B(false), I(0), B(false), B(false)], [])) ==
      FH.Next(FH.Scan(2, [B(true), I(0), B(false), B(false)], []))
  {
    HeaderBoolToken();
  }

  /** `--n=7` binds the inline text "7" to `n`. */
  lemma HeaderIntToken()
    ensures FH.Resolve(HeaderEntries(), FSF.ExampleArgs(), 2) == FH.Bound(HeaderEntries()[1], Some("7"), 3)
  {
    assert FH.DashesOff("--n=7") == "n=7";
    assert IndexOf("n=7", '=', 0) == Some(1);
    assert "n=7"[..1] == "n" && "n=7"[2..] == "7";
    assert FH.HeaderKey("n=7") == Some("n") && FH.Inline("n=7") == Some("7");
  }

  /** `--n=7` stores 7. */
  lemma HeaderInt()
    ensures FH.Step(HeaderEntries(), FSF.ExampleArgs(), FH.Scan(2, [B(true), I(0), B(false), B(false)], [])) ==
      FH.Next(FH.Scan(3, [B(true), I(7), B(false), B(false)], []))
  {
    HeaderIntToken();
    FSF.ExampleAtoi();
  }

  /** flag.h's scan of the worked command line: both flags set, stop at `file`. */
  lemma HeaderScan()
    ensures FH.Run(HeaderEntries(), FSF.ExampleArgs(), FH.Scan(1, [B(false), I(0), B(false), B(false)], [])) ==
      FH.Finished(FH.Scan(3, [B(true), I(7), B(false), B(false)], []))
  {
    HeaderBool();
    HeaderInt();
    assert FH.Step(HeaderEntries(), FSF.ExampleArgs(), FH.Scan(3, [B(true), I(7), B(false), B(false)], [])) == FH.Stop;
  }

  /** `flagparse` on `prog -v --n=7 file -x`: code 0, the table restored, and the leftovers `file -x`. */
  lemma HeaderParse()
    ensures FH.ParseSpec(HeaderSlots(), 2, false, 0, [], FSF.ExampleArgs(), [B(false), I(0)]).outcome == FH.Returned(0)
    ensures var r := FH.ParseSpec(HeaderSlots(), 2, false, 0, [], FSF.ExampleArgs(), [B(false), I(0)]);
      r.count == 2 && r.parsed && r.argc == 2 && r.argv == ["file", "-x"] &&
      r.cells == [B(true), I(7), B(false), B(false)] && r.out == []
  {
    HeaderTemporaries();
    HeaderScan();
    assert [B(false), I(0)] + [B(false), B(false)] == [B(false), I(0), B(false), B(false)];
    assert FSF.ExampleArgs()[3..] == ["file", "-x"];
  }

  /** On the same command line flag.c's leftover view keeps the program name and flag.h's does not. */
  lemma LeftoversDiffer(argv: seq<CString>)
    requires |argv| == FS.ArgvSlots
    ensures var c := FS.ParseSpec(FSF.ExampleFlags(), FA.UsageAndExit, false, 0, argv, FSF.ExampleArgs(), [B(false), I(0)]);
            var h := FH.ParseSpec(HeaderSlots(), 2, false, 0, [], FSF.ExampleArgs(), [B(false), I(0)]);
      c.argc == h.argc + 1 && c.argv[..c.argc] == [FSF.ExampleArgs()[0]] + h.argv
  {
    FSF.ExampleParse(argv);
    HeaderParse();
  }

  // ---------------------------------------------------------------------
  // Single decisions

  /** "-" ends flag.c's scan; flag.h looks it up as the empty key and answers 1. */
  lemma DashTokenDiffers(entries: seq<FH.Entry>)
    requires FH.LastEntry(entries, "").None?
    ensures FS.IsBoundary("-")
    ensures FH.Resolve(entries, ["prog", "-", "x"], 1) == FH.Refused(1, FH.NotFoundMsg(""))
  {
    assert FH.DashesOff("-") == "";
    assert Clip("", FH.KeyWidth) == "";
  }

  /** flag.c refuses a taken name; flag.h warns and appends it. */
  lemma DuplicateDiffers(flags: seq<FS.Flag>, capacity: nat, k: nat,
                         slots: seq<FH.Entry>, count: nat, value: nat, desc: CString, j: nat)
    requires k < |flags|
    requires |slots| == FH.Slots && j < count < FH.Slots && slots[j].name == flags[k].name
    requires |flags[k].name| <= FH.NameWidth
    ensures FS.RegisterVerdict(flags, capacity, flags[k].name) == FS.AlreadyDefined
    ensures FH.Registered(slots, count, value, flags[k].name, desc, FH.BoolType).count == count + 1
  {
  }

  /** flag.c reports text that atoi reads as 0; flag.h stores the 0 silently. */
  lemma NonNumericIntDiffers()
    ensures FA.Adapt(FA.IntKind, 4, "abc", FA.Resume, I(5)) == FA.Stored(I(0), Some(FA.IntErrMsg))
    ensures FH.Assign(FH.IntType, Some("abc"), I(5)) == Some(I(0))
  {
    LettersReportedByFlagC();
    LettersStoredByFlagH();
  }

  lemma LettersReportedByFlagC()
    ensures FA.Adapt(FA.IntKind, 4, "abc", FA.Resume, I(5)) == FA.Stored(I(0), Some(FA.IntErrMsg))
  {
    AtoiOfLetters();
    FA.IntRejectsZeroText("abc", 4, FA.Resume, I(5));
  }

  lemma LettersStoredByFlagH()
    ensures FH.Assign(FH.IntType, Some("abc"), I(5)) == Some(I(0))
  {
    AtoiOfLetters();
  }

  lemma AtoiOfLetters()
    ensures Atoi("abc") == 0
  {
    assert !IsSpace('a') && !IsDigit('a');
    assert SkipSpace("abc") == "abc";
    assert LeadingDigits("abc") == [];
    assert SignedValue("abc") == DigitsValue([]);
  }

  /** flag.c reads "1" as true; flag.h ignores it. */
  lemma BoolOneDiffers(ef: FA.ErrFunc)
    ensures FA.Adapt(FA.BoolKind, 1, "1", ef, B(false)) == FA.Stored(B(true), None)
    ensures FH.Assign(FH.BoolType, Some("1"), B(false)) == Some(B(false))
  {
  }
}
