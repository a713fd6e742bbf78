/**
 * flag.h, the header-only variant: one process-global table of at most
 * MAXFLAGS + 2 entries that only warns about duplicate names, and a `flagparse`
 * that registers temporary `h`/`help` entries, answers with numeric codes, and
 * leaves the tokens after the flags, without the program name, in `flagargv`.
 */
module FlagHeader {
  import opened Wrappers
  import opened CStrings
  import opened Memory

  const MaxFlags: nat := 20
  /** Length of `_flags.vals`: MAXFLAGS plus the two temporary help entries. */
  const Slots: nat := MaxFlags + 2
  /** Chars kept of a name (`char name[25]`, copied with strncpy(…, 25-1)). */
  const NameWidth: nat := 24
  /** Chars kept of a description (`char desc[100]`, copied with strncpy(…, 100-1)). */
  const DescWidth: nat := 99
  /** Chars of a token's name that fit the lookup key (`char key[25]`). */
  const KeyWidth: nat := 24
  /** Width of the storage `flagstring` allocates. */
  const StringWidth: nat := 50
  /** Bytes a string value copies: strncpy(…, 50-1). */
  const StringCopy: nat := 49

  /** `_flagtype_t` without `_DOUBLE`. */
  datatype FlagType = BoolType | IntType | StringType

  /** One `_flag_t`: type, destination address, name and description as stored. */
  datatype Entry = Entry(kind: FlagType, value: nat, name: CString, desc: CString)

  /** How `flagparse` ends: a returned code, exit with a status, or behaviour C leaves undefined. */
  datatype Outcome = Returned(code: int) | Exited(status: nat) | Undefined

  const LimitMsg: CString := "WARNING: flaglimit reached; " + "buffer overflow prevented.\n"
  const AlreadyParsedMsg: CString := "FLAGS_ALREADY_PARSED"

  function DuplicateMsg(name: CString): CString { "FLAG_ALREADY_DEFINED " + name + "\n" }
  function NotFoundMsg(key: CString): CString { "FLAG_NOT_FOUND " + key + "\n" }
  function NoArgumentMsg(key: CString): CString { "NO_ARGUMENT for " + key + "\n" }

  // ---------------------------------------------------------------------
  // Registration

  /** The names of the stored entries, in order. */
  function Names(entries: seq<Entry>): (r: seq<CString>)
    ensures |r| == |entries| && forall k :: 0 <= k < |r| ==> r[k] == entries[k].name
  {
    seq(|entries|, k requires 0 <= k < |entries| => entries[k].name)
  }

  /** The warnings the duplicate check of `_flaginit` prints: one per stored entry whose name equals `name`. */
  function Duplicates(entries: seq<Entry>, name: CString): (r: seq<CString>)
    ensures forall k :: 0 <= k < |r| ==> r[k] == DuplicateMsg(name)
    ensures |r| > 0 <==> exists k :: 0 <= k < |entries| && entries[k].name == name
  {
    if |entries| == 0 then []
    else
      var rest := Duplicates(entries[..|entries| - 1], name);
      if entries[|entries| - 1].name == name then rest + [DuplicateMsg(name)] else rest
  }

  /** There are exactly as many warnings as stored entries named `name`. */
  lemma {:induction false} DuplicatesCount(entries: seq<Entry>, name: CString)
    ensures |Duplicates(entries, name)| == multiset(Names(entries))[name]
  {
    if |entries| > 0 {
      var init := entries[..|entries| - 1];
      assert Names(entries) == Names(init) + [entries[|entries| - 1].name];
      DuplicatesCount(init, name);
    }
  }

  /** The table after `_flaginit`, and what it printed. */
  datatype Init = Init(slots: seq<Entry>, count: nat, out: seq<CString>)

  /** `_flaginit`: warn about every duplicate, then append the clipped entry unless the table is full. */
  function Registered(slots: seq<Entry>, count: nat, value: nat, name: CString, desc: CString, t: FlagType): (r: Init)
    requires |slots| == Slots && count <= Slots
    ensures |r.slots| == Slots && r.count == (if count == Slots then count else count + 1)
    ensures r.slots[..count] == slots[..count]
  {
    var warn := Duplicates(slots[..count], name);
    if count == Slots then Init(slots, count, warn + [LimitMsg])
    else Init(slots[count := Entry(t, value, Clip(name, NameWidth), Clip(desc, DescWidth))], count + 1, warn)
  }

  // ---------------------------------------------------------------------
  // Parsing

  /** The token without its one or two leading dashes; the token starts with '-'. */
  function DashesOff(tok: CString): CString
    requires |tok| > 0
  {
    var c := tok[1..];
    if |c| > 0 && c[0] == '-' then c[1..] else c
  }

  /** Where the name part of c ends: at its first '=', or at its end. */
  function NameEnd(c: CString): (r: nat)
    ensures r <= |c| && '=' !in c[..r]
    ensures r < |c| ==> c[r] == '='
  {
    match IndexOf(c, '=', 0)
    case None => |c|
    case Some(e) => e
  }

  /** The key `strncpy(key, c, end ? end-c : 25-1)` builds; None where it would run past `key` or leave it unterminated. */
  function HeaderKey(c: CString): (r: Option<CString>)
    ensures r.None? <==> (IndexOf(c, '=', 0).Some? && IndexOf(c, '=', 0).value > KeyWidth)
    ensures r.Some? ==> r.value == Clip(c[..NameEnd(c)], KeyWidth)
  {
    match IndexOf(c, '=', 0)
    case None => Some(Clip(c, KeyWidth))
    case Some(e) => if e <= KeyWidth then Some(c[..e]) else None
  }

  /** The text after the first '=', if any. */
  function Inline(c: CString): Option<CString> {
    match IndexOf(c, '=', 0)
    case None => None
    case Some(e) => Some(c[e + 1..])
  }

  /** Index of the last entry stored under `key`. */
  function LastEntry(entries: seq<Entry>, key: CString): (r: Option<nat>)
    ensures r.Some? ==> r.value < |entries| && entries[r.value].name == key
    ensures r.Some? ==> forall k :: r.value < k < |entries| ==> entries[k].name != key
    ensures r.None? ==> forall k :: 0 <= k < |entries| ==> entries[k].name != key
  {
    if |entries| == 0 then None
    else if entries[|entries| - 1].name == key then Some(|entries| - 1)
    else LastEntry(entries[..|entries| - 1], key)
  }

  /** The switch on the entry's type: the new destination value, or None where C leaves the behaviour undefined. */
  function Assign(kind: FlagType, inp: Option<CString>, v: Val): Option<Val> {
    match kind
    case BoolType =>
      if !v.B? then None
      else if inp.None? || inp.value == "true" then Some(B(true))
      else if inp.value == "false" then Some(B(false))
      else Some(v)
    case IntType =>
      if !v.I? || inp.None? then None
      else
        var j := Atoi(inp.value);
        if InIntRange(j) then Some(I(j)) else None
    case StringType =>
      if !v.S? || |v.chars| < StringCopy || inp.None? then None
      else Some(S(StrNCpy(v.chars, inp.value, StringCopy)))
  }

  /** What token i asks for: it ends the scan, overflows the key, is refused with a code, or binds its text to an entry. */
  datatype Resolution =
    | Boundary
    | KeyOverflow
    | Refused(code: int, msg: CString)
    | Bound(e: Entry, inp: Option<CString>, next: nat)

  function Resolve(entries: seq<Entry>, args: seq<CString>, i: nat): (r: Resolution)
    requires 1 <= i < |args|
    ensures r.Bound? ==> (r.next == i + 1 || r.next == i + 2) && r.next <= |args|
  {
    var tok := args[i];
    if |tok| == 0 || tok[0] != '-' then Boundary
    else
      var c := DashesOff(tok);
      match HeaderKey(c)
      case None => KeyOverflow
      case Some(key) =>
        match LastEntry(entries, key)
        case None => Refused(1, NotFoundMsg(key))
        case Some(j) =>
          var e := entries[j];
          var inline := Inline(c);
          if e.kind != BoolType && inline.None? then
            if i + 1 >= |args| then Refused(2, NoArgumentMsg(key))
            else Bound(e, Some(args[i + 1]), i + 2)
          else Bound(e, inline, i + 1)
  }

  /** Where the scan stands: token index, the caller's storage, and the lines printed so far. */
  datatype Scan = Scan(i: nat, cells: seq<Val>, out: seq<CString>)

  datatype StepResult = Next(next: Scan) | Stop | Halt(outcome: Outcome, last: Scan)

  /** One iteration of the scanning loop of `flagparse`. */
  function Step(entries: seq<Entry>, args: seq<CString>, s: Scan): (r: StepResult)
    requires 1 <= s.i < |args|
    ensures r.Next? ==> s.i < r.next.i <= |args| && |r.next.cells| == |s.cells|
    ensures r.Halt? ==> r.last.cells == s.cells
  {
    match Resolve(entries, args, s.i)
    case Boundary => Stop
    case KeyOverflow => Halt(Undefined, s)
    case Refused(code, msg) => Halt(Returned(code), s.(out := s.out + [msg]))
    case Bound(e, inp, next) =>
      if e.value >= |s.cells| then Halt(Undefined, s)
      else match Assign(e.kind, inp, s.cells[e.value])
        case None => Halt(Undefined, s)
        case Some(v) => Next(Scan(next, s.cells[e.value := v], s.out))
  }

  datatype RunResult = Finished(s: Scan) | Halted(outcome: Outcome, s: Scan)

  /** The scanning loop from token s.i on. */
  function Run(entries: seq<Entry>, args: seq<CString>, s: Scan): (r: RunResult)
    requires 1 <= s.i <= |args|
    ensures r.Finished? ==> s.i <= r.s.i <= |args|
    ensures |r.s.cells| == |s.cells|
    decreases |args| - s.i
  {
    if s.i == |args| then Finished(s)
    else match Step(entries, args, s)
      case Stop => Finished(s)
      case Halt(o, last) => Halted(o, last)
      case Next(next) => Run(entries, args, next)
  }

  /** Everything `flagparse` leaves behind. */
  datatype Effect = Effect(outcome: Outcome, slots: seq<Entry>, count: nat, parsed: bool,
                           argc: int, argv: seq<CString>, cells: seq<Val>, out: seq<CString>)

  /** `flagparse` on the globals and the caller's storage `cells`. */
  function ParseSpec(slots: seq<Entry>, count: nat, parsed: bool, argc: int, argv: seq<CString>,
                     args: seq<CString>, cells: seq<Val>): Effect
    requires |slots| == Slots && count <= Slots && |args| >= 1
  {
    if parsed then Effect(Returned(3), slots, count, parsed, argc, argv, cells, [AlreadyParsedMsg])
    else
      var r1 := Registered(slots, count, |cells|, "h", "", BoolType);
      var r2 := Registered(r1.slots, r1.count, |cells| + 1, "help", "", BoolType);
      Scanned(r2.slots, r2.count, argc, argv, args, cells + [B(false), B(false)], |cells|, |cells| + 1, r1.out + r2.out)
  }

  /** The part of `flagparse` after the temporary entries at hp and helpp are registered. */
  function Scanned(slots: seq<Entry>, count: nat, argc: int, argv: seq<CString>, args: seq<CString>,
                   cells: seq<Val>, hp: nat, helpp: nat, out: seq<CString>): Effect
    requires count <= |slots| && |args| >= 1 && hp < |cells| && helpp < |cells|
  {
    match Run(slots[..count], args, Scan(1, cells, out))
    case Halted(o, s) => Effect(o, slots, count, false, argc, argv, s.cells, s.out)
    case Finished(s) =>
      if s.cells[hp] == B(true) || s.cells[helpp] == B(true) then
        Effect(Exited(2), slots, count, false, argc, argv, s.cells, s.out)
      else
        Effect(Returned(0), slots, if count >= 2 then count - 2 else 0, true, |args| - s.i, args[s.i..], s.cells, s.out)
  }

  // ---------------------------------------------------------------------

  /** The globals of flag.h: `_flags`, `flagsparsed`, `flagargc`, `flagargv`. */
  class Globals {
    var vals: array<Entry>
    var count: nat
    var flagsparsed: bool
    var flagargc: int
    var flagargv: seq<CString>

    ghost predicate Valid()
      reads this
    {
      vals.Length == Slots && count <= Slots
    }

    /** The stored entries, in registration order. */
    function Entries(): seq<Entry>
      reads this, vals
      requires count <= vals.Length
    {
      vals[..count]
    }

    /** Static zero-initialised storage: an empty table, not parsed. Slots beyond `count` are never read. */
    constructor ()
      ensures Valid() && fresh(vals) && count == 0
      ensures !flagsparsed && flagargc == 0 && flagargv == []
    {
      vals := new Entry[Slots](_ => Entry(BoolType, 0, "", ""));
      count := 0;
      flagsparsed := false;
      flagargc := 0;
      flagargv := [];
    }

    /** `_flaginit`: print a warning per duplicate, then append unless the table is full. */
    method FlagInit(val: nat, name: CString, desc: CString, t: FlagType) returns (out: seq<CString>)
      requires Valid()
      modifies vals, this`count
      ensures Valid()
      ensures Init(vals[..], count, out) == Registered(old(vals[..]), old(count), val, name, desc, t)
    {
      out := [];
      var i := 0;
      while i < count
        invariant 0 <= i <= count
        invariant out == Duplicates(vals[..i], name)
      {
        assert vals[..i + 1][..i] == vals[..i];
        if vals[i].name == name {
          out := out + [DuplicateMsg(name)];
        }
        i := i + 1;
      }
      assert vals[..count] == vals[..i];
      if count == Slots {
        out := out + [LimitMsg];
        return;
      }
      vals[count] := Entry(t, val, Clip(name, NameWidth), Clip(desc, DescWidth));
      count := count + 1;
    }

    /** `flagbool`: fresh storage holding the default, registered as a boolean. */
    method FlagBool(heap: Heap, name: CString, defval: bool, desc: CString) returns (p: nat, out: seq<CString>)
      requires Valid()
      modifies heap, vals, this`count
      ensures Valid()
      ensures p == old(|heap.cells|) && heap.cells == old(heap.cells) + [B(defval)]
      ensures Init(vals[..], count, out) == Registered(old(vals[..]), old(count), p, name, desc, BoolType)
    {
      p := heap.Alloc(B(defval));
      out := FlagInit(p, name, desc, BoolType);
    }

    /** `flagint`: fresh storage holding the default, registered as an int. */
    method FlagInt(heap: Heap, name: CString, defval: int, desc: CString) returns (p: nat, out: seq<CString>)
      requires Valid() && InIntRange(defval)
      modifies heap, vals, this`count
      ensures Valid()
      ensures p == old(|heap.cells|) && heap.cells == old(heap.cells) + [I(defval)]
      ensures Init(vals[..], count, out) == Registered(old(vals[..]), old(count), p, name, desc, IntType)
    {
      p := heap.Alloc(I(defval));
      out := FlagInit(p, name, desc, IntType);
    }

    /** `flagstring`: 50 zeroed chars holding at most 49 of the default, registered as a string. */
    method FlagString(heap: Heap, name: CString, defval: CString, desc: CString) returns (p: nat, out: seq<CString>)
      requires Valid()
      modifies heap, vals, this`count
      ensures Valid()
      ensures p == old(|heap.cells|)
      ensures heap.cells == old(heap.cells) + [S(StrNCpy(seq(StringWidth, _ => NUL), defval, StringCopy))]
      ensures Init(vals[..], count, out) == Registered(old(vals[..]), old(count), p, name, desc, StringType)
    {
      p := heap.Alloc(S(StrNCpy(seq(StringWidth, _ => NUL), defval, StringCopy)));
      out := FlagInit(p, name, desc, StringType);
    }

    /** `flagvarbool`, `flagvarint`, `flagvarstring`: register caller storage at address `v`. */
    method FlagVar(v: nat, name: CString, desc: CString, t: FlagType) returns (out: seq<CString>)
      requires Valid()
      modifies vals, this`count
      ensures Valid()
      ensures Init(vals[..], count, out) == Registered(old(vals[..]), old(count), v, name, desc, t)
    {
      out := FlagInit(v, name, desc, t);
    }

    /** The lookup loop of `flagparse`: every match overwrites the previous one. */
    method FindLast(key: CString) returns (m: Option<nat>)
      requires count <= vals.Length
      ensures m == LastEntry(Entries(), key)
    {
      m := None;
      var j := 0;
      while j < count
        invariant 0 <= j <= count
        invariant m == LastEntry(vals[..j], key)
      {
        assert vals[..j + 1][..j] == vals[..j];
        if vals[j].name == key {
          m := Some(j);
        }
        j := j + 1;
      }
      assert vals[..count] == vals[..j];
    }

    /** Token resolution inside the scanning loop of `flagparse`. */
    method ResolveToken(args: seq<CString>, i: nat) returns (r: Resolution)
      requires count <= vals.Length && 1 <= i < |args|
      ensures r == Resolve(Entries(), args, i)
    {
      var tok := args[i];
      if |tok| == 0 || tok[0] != '-' {
        return Boundary;
      }
      var c := DashesOff(tok);
      var key := HeaderKey(c);
      if key.None? {
        return KeyOverflow;
      }
      var m := FindLast(key.value);
      if m.None? {
        return Refused(1, NotFoundMsg(key.value));
      }
      var e := vals[m.value];
      var inline := Inline(c);
      if e.kind != BoolType && inline.None? {
        if i + 1 >= |args| {
          return Refused(2, NoArgumentMsg(key.value));
        }
        r := Bound(e, Some(args[i + 1]), i + 2);
      } else {
        r := Bound(e, inline, i + 1);
      }
    }

    /** One pass of the scanning loop of `flagparse` over token i. */
    method ScanToken(args: seq<CString>, heap: Heap, s: Scan) returns (r: StepResult)
      requires count <= vals.Length && 1 <= s.i < |args| && s.cells == heap.cells
      modifies heap
      ensures r == Step(Entries(), args, s)
      ensures heap.cells == if r.Next? then r.next.cells else old(heap.cells)
    {
      var res := ResolveToken(args, s.i);
      match res {
        case Boundary =>
          r := Stop;
        case KeyOverflow =>
          r := Halt(Undefined, s);
        case Refused(code, msg) =>
          r := Halt(Returned(code), s.(out := s.out + [msg]));
        case Bound(e, inp, next) =>
          if e.value >= |heap.cells| {
            return Halt(Undefined, s);
          }
          var v := Assign(e.kind, inp, heap.cells[e.value]);
          if v.None? {
            return Halt(Undefined, s);
          }
          heap.Store(e.value, v.value);
          r := Next(Scan(next, heap.cells, s.out));
      }
    }

    /** The scanning loop of `flagparse`, from token 1 on. */
    method ScanAll(args: seq<CString>, heap: Heap, out: seq<CString>) returns (res: RunResult)
      requires count <= vals.Length && |args| >= 1
      modifies heap
      ensures res == Run(Entries(), args, Scan(1, old(heap.cells), out))
      ensures heap.cells == res.s.cells
    {
      ghost var start := Run(Entries(), args, Scan(1, heap.cells, out));
      var s := Scan(1, heap.cells, out);
      while s.i < |args|
        modifies heap
        invariant 1 <= s.i <= |args| && s.cells == heap.cells
        invariant Run(Entries(), args, s) == start
        decreases |args| - s.i
      {
        var r := ScanToken(args, heap, s);
        match r {
          case Stop =>
            return Finished(s);
          case Halt(o, last) =>
            return Halted(o, last);
          case Next(n) =>
            s := n;
        }
      }
      res := Finished(s);
    }

    /** `flagparse`: register h/help, scan, print usage and exit if help was set, else drop the two temporaries and publish the leftovers. */
    method FlagParse(args: seq<CString>, heap: Heap) returns (outcome: Outcome, out: seq<CString>)
      requires Valid() && |args| >= 1
      modifies vals, this`count, this`flagsparsed, this`flagargc, this`flagargv, heap
      ensures Valid()
      ensures Effect(outcome, vals[..], count, flagsparsed, flagargc, flagargv, heap.cells, out) ==
              ParseSpec(old(vals[..]), old(count), old(flagsparsed), old(flagargc), old(flagargv), args, old(heap.cells))
    {
      if flagsparsed {
        return Returned(3), [AlreadyParsedMsg];
      }
      var h, help, out0 := RegisterTemporaries(heap);
      outcome, out := ScanAndPublish(args, heap, h, help, out0);
    }

    /** The start of `flagparse`: `flagbool("h", …)` and `flagbool("help", …)` on fresh storage. */
    method RegisterTemporaries(heap: Heap) returns (h: nat, help: nat, out: seq<CString>)
      requires Valid()
      modifies vals, this`count, heap
      ensures Valid()
      ensures h == old(|heap.cells|) && help == h + 1 && heap.cells == old(heap.cells) + [B(false), B(false)]
      ensures var r1 := Registered(old(vals[..]), old(count), h, "h", "", BoolType);
              var r2 := Registered(r1.slots, r1.count, help, "help", "", BoolType);
              vals[..] == r2.slots && count == r2.count && out == r1.out + r2.out
    {
      ghost var r1 := Registered(vals[..], count, |heap.cells|, "h", "", BoolType);
      var p1, out1 := FlagBool(heap, "h", false, "");
      assert vals[..] == r1.slots && count == r1.count && out1 == r1.out;
      ghost var r2 := Registered(r1.slots, r1.count, p1 + 1, "help", "", BoolType);
      var p2, out2 := FlagBool(heap, "help", false, "");
      assert vals[..] == r2.slots && count == r2.count && out2 == r2.out;
      h, help := p1, p2;
      out := out1 + out2;
    }

    /** The scan of `flagparse` after the temporaries are registered, the help check, and the epilogue. */
    method ScanAndPublish(args: seq<CString>, heap: Heap, h: nat, help: nat, out0: seq<CString>)
      returns (outcome: Outcome, out: seq<CString>)
      requires Valid() && !flagsparsed && |args| >= 1 && h < |heap.cells| && help < |heap.cells|
      modifies this`count, this`flagsparsed, this`flagargc, this`flagargv, heap
      ensures Valid()
      ensures Effect(outcome, vals[..], count, flagsparsed, flagargc, flagargv, heap.cells, out) ==
              Scanned(vals[..], old(count), old(flagargc), old(flagargv), args, old(heap.cells), h, help, out0)
    {
      var res := ScanAll(args, heap, out0);
      out := res.s.out;
      if res.Halted? {
        return res.outcome, out;
      }
      if heap.cells[h] == B(true) || heap.cells[help] == B(true) {
        return Exited(2), out;
      }
      count := if count >= 2 then count - 2 else 0;
      flagsparsed := true;
      flagargc := |args| - res.s.i;
      flagargv := args[res.s.i..];
      outcome := Returned(0);
    }
  }
}
