/**
 * flag.c: a flag set is a fixed-capacity, append-only table of flag slots,
 * filled by registration, and one left-to-right scan of the argument vector
 * that writes the parsed values through the slots' destinations.
 */
module FlagSet {
  import opened Wrappers
  import opened CStrings
  import opened Memory
  import opened FlagAdapters

  /** Width of `Flag_.typeName`; the struct is not among the modelled files, so a width is assumed. */
  const TypeNameWidth: nat := 16
  /** Slots of the leftover view `Flagset.argv`; more leftovers than this abort the process. */
  const ArgvSlots: nat := 100
  /** Longest message `snprintf(buf, 100-1, ...)` can produce. */
  const MessageLimit: nat := 98

  datatype FlagErr = FlagOK | ErrFlagNoArg | ErrFlagAlreadyParsed | ErrFlagInvalidValue | ErrFlagUnknown

  /** How a call ends: a returned code, process exit with a status, or behaviour C leaves undefined. */
  datatype Outcome = Returned(err: FlagErr) | Exited(status: nat) | Undefined

  /** One slot of `vals_`: destination address and size, adapter pair, name, description, cached type hint and default, boolean marker. */
  datatype Flag = Flag(value: nat, size: nat, kind: Kind, name: CString, desc: CString,
                       typeName: seq<char>, defValue: seq<char>, boolFlag: bool)

  predicate SlotShaped(f: Flag) {
    |f.typeName| == TypeNameWidth && |f.defValue| == DisplayWidth
  }

  predicate NamesDistinct(flags: seq<Flag>) {
    forall j, k :: 0 <= j < k < |flags| ==> flags[j].name != flags[k].name
  }

  /** Every destination exists and has the type its adapter writes, strings at least `size` wide. */
  predicate Typed(flags: seq<Flag>, cells: seq<Val>) {
    forall j :: 0 <= j < |flags| ==>
      flags[j].value < |cells| && Fits(flags[j].kind, flags[j].size, cells[flags[j].value])
  }

  /** The destination can be rendered: it has its adapter's type, and a string buffer holds a NUL. */
  predicate Displayable(kind: Kind, v: Val) {
    Fits(kind, 0, v) && (kind == StringKind ==> NUL in v.chars)
  }

  // ---------------------------------------------------------------------
  // Registration

  const Backtick: char := '`'

  /** The type hint of a description: the text between its first and second backtick, if it has two. */
  function TypeHint(desc: CString): Option<CString> {
    match IndexOf(desc, Backtick, 0)
    case None => None
    case Some(a) =>
      match IndexOf(desc, Backtick, a + 1)
      case None => None
      case Some(b) => Some(desc[a + 1..b])
  }

  /** The buffer after `extract_type_name(desc, buf, len)`: the hint clipped to len and NUL-terminated, or buf untouched. */
  function WithTypeName(buf: seq<char>, desc: CString, len: nat): seq<char>
    requires TypeHint(desc).None? || Min(|TypeHint(desc).value|, len) < |buf|
  {
    match TypeHint(desc)
    case None => buf
    case Some(h) => WriteText(buf, Clip(h, len))
  }

  /** `extract_type_name`: find the first two backticks, then copy what lies between them into buf. */
  method ExtractTypeName(inp: CString, buf: array<char>, len: nat)
    requires TypeHint(inp).None? || Min(|TypeHint(inp).value|, len) < buf.Length
    modifies buf
    ensures buf[..] == WithTypeName(old(buf[..]), inp, len)
  {
    var start, end := 0, 0;
    var i := 0;
    while i < |inp|
      invariant 0 <= i <= |inp| && end == 0
      invariant start == 0 ==> forall k :: 0 <= k < i ==> inp[k] != Backtick
      invariant start > 0 ==> IndexOf(inp, Backtick, 0) == Some(start - 1) && start <= i
      invariant start > 0 ==> forall k :: start <= k < i ==> inp[k] != Backtick
    {
      if start == 0 {
        if inp[i] == Backtick {
          start := i + 1;
        }
      } else if inp[i] == Backtick {
        end := i;
        break;
      }
      i := i + 1;
    }
    if start > 0 && end > 0 {
      assert IndexOf(inp, Backtick, start) == Some(end);
      assert TypeHint(inp) == Some(inp[start..end]);
      var l := if end - start > len then len else end - start;
      assert l == Min(|TypeHint(inp).value|, len) < buf.Length;
      var k := 0;
      while k < l
        invariant 0 <= k <= l
        invariant forall m :: 0 <= m < k ==> buf[m] == inp[start + m]
        invariant forall m :: k <= m < buf.Length ==> buf[m] == old(buf[m])
      {
        buf[k] := inp[start + k];
        k := k + 1;
      }
      buf[l] := NUL;
      ghost var hint := Clip(inp[start..end], len);
      assert |hint| == l && forall m :: 0 <= m < l ==> hint[m] == inp[start + m];
      assert buf[..l] == hint;
      assert buf[..] == WriteText(old(buf[..]), hint);
    } else {
      assert TypeHint(inp) == None;
    }
  }

  /** How `flag_register` ends: the slot is filled, or the process exits with status 2. */
  datatype RegResult = Registered | AlreadyDefined | LimitReached

  /** The decision of `flag_register`: a taken name is refused first, then a full table. */
  function RegisterVerdict(flags: seq<Flag>, capacity: nat, name: CString): RegResult {
    if exists k :: 0 <= k < |flags| && flags[k].name == name then AlreadyDefined
    else if |flags| >= capacity then LimitReached
    else Registered
  }

  /** The slot `flag_register` writes over `old`: the given binding, the type hint taken from desc and the rendered default. */
  function Filled(old_: Flag, value: nat, size: nat, kind: Kind, name: CString, desc: CString, boolFlag: bool, v: Val): Flag
    requires SlotShaped(old_) && Displayable(kind, v)
  {
    Flag(value, size, kind, name, desc,
         WithTypeName(old_.typeName, desc, TypeNameWidth - 1),
         Render(kind, v, old_.defValue),
         boolFlag)
  }

  /** `flag_init`: clear the first byte of each slot's type hint and cached default. */
  function Cleared(f: Flag): Flag
    requires SlotShaped(f)
  {
    f.(typeName := f.typeName[0 := NUL], defValue := f.defValue[0 := NUL])
  }

  // ---------------------------------------------------------------------
  // Parsing

  const HelpMsg: CString := "Explicit invocation of help"

  predicate IsHelp(tok: CString) {
    tok == "-h" || tok == "-help" || tok == "--h" || tok == "--help"
  }

  predicate HasHelp(args: seq<CString>) {
    exists k :: 0 <= k < |args| && IsHelp(args[k])
  }

  /** A token that ends flag scanning: "-", "--", or one that does not start with '-'. */
  predicate IsBoundary(tok: CString) {
    tok == "-" || tok == "--" || |tok| == 0 || tok[0] != '-'
  }

  /** The token without its one or two leading dashes. */
  function FlagBody(tok: CString): CString
    requires |tok| > 0
  {
    var b := tok[1..];
    if |b| > 0 && b[0] == '-' then b[1..] else b
  }

  /** The flag name a body asks for: the text before its first '='. */
  function Key(body: CString): CString {
    match IndexOf(body, '=', 0)
    case None => body
    case Some(e) => body[..e]
  }

  /** The inline value of a body: the text after its first '=', if it has one. */
  function InlineValue(body: CString): Option<CString> {
    match IndexOf(body, '=', 0)
    case None => None
    case Some(e) => Some(body[e + 1..])
  }

  /** Index of the last flag registered under `key`. */
  function LastMatch(flags: seq<Flag>, key: CString): (r: Option<nat>)
    ensures r.Some? ==> r.value < |flags| && flags[r.value].name == key
    ensures r.Some? ==> forall k :: r.value < k < |flags| ==> flags[k].name != key
    ensures r.None? ==> forall k :: 0 <= k < |flags| ==> flags[k].name != key
  {
    if |flags| == 0 then None
    else if flags[|flags| - 1].name == key then Some(|flags| - 1)
    else LastMatch(flags[..|flags| - 1], key)
  }

  function UnknownMsg(key: CString): CString {
    Clip("unkon flag '" + key + "'", MessageLimit)
  }

  function NoArgMsg(key: CString): CString {
    Clip("flag '" + key + "' has no argument", MessageLimit)
  }

  function CallsOf(call: Option<CString>): seq<CString> {
    if call.Some? then [call.value] else []
  }

  /** Where the scan stands: the token index, the caller's storage, and the messages given to errFunc so far. */
  datatype Scan = Scan(i: nat, cells: seq<Val>, calls: seq<CString>)

  datatype StepResult = Next(next: Scan) | Stop | Halt(outcome: Outcome, last: Scan)

  /** errFunc(fset, msg) followed by `return err` (reached only when errFunc returns). */
  function Refuse(ef: ErrFunc, msg: CString, err: FlagErr, s: Scan): (r: StepResult)
    ensures r.Halt?
  {
    Halt(if ef == UsageAndExit then Exited(2) else Returned(err), s.(calls := s.calls + [msg]))
  }

  /** The matched flag's parser applied to `inp`; on return the scan resumes at `next`. */
  function Apply(f: Flag, inp: CString, ef: ErrFunc, s: Scan, next: nat): (r: StepResult)
    ensures r.Next? ==> r.next.i == next
    ensures !r.Stop?
  {
    if f.value >= |s.cells| then Halt(Undefined, s)
    else match Adapt(f.kind, f.size, inp, ef, s.cells[f.value])
      case Stored(v, call) => Next(Scan(next, s.cells[f.value := v], s.calls + CallsOf(call)))
      case Terminated(msg) => Halt(Exited(2), s.(calls := s.calls + [msg]))
      case UndefinedBehaviour => Halt(Undefined, s)
  }

  /** What a token asks for: it ends the scan, it is refused with a message and an error, or it binds `inp` to flag `f`. */
  datatype Resolution = Boundary | Refused(msg: CString, err: FlagErr) | Bound(f: Flag, inp: CString, next: nat)

  /** The token-resolution part of the scanning loop of `flag_parse`, at token i. */
  function Resolve(flags: seq<Flag>, args: seq<CString>, i: nat): (r: Resolution)
    requires 1 <= i < |args|
    ensures r.Bound? ==> (r.next == i + 1 || r.next == i + 2) && r.next <= |args|
  {
    var tok := args[i];
    if IsBoundary(tok) then Boundary
    else
      var body := FlagBody(tok);
      var key := Key(body);
      match LastMatch(flags, key)
      case None => Refused(UnknownMsg(key), ErrFlagUnknown)
      case Some(j) =>
        var f := flags[j];
        var inline := InlineValue(body);
        if f.boolFlag then Bound(f, if inline.Some? then inline.value else "true", i + 1)
        else if inline.Some? then Bound(f, inline.value, i + 1)
        else if i + 1 < |args| then Bound(f, args[i + 1], i + 2)
        else Refused(NoArgMsg(key), ErrFlagNoArg)
  }

  /** One iteration of the scanning loop of `flag_parse`, at token s.i. */
  function Step(flags: seq<Flag>, args: seq<CString>, ef: ErrFunc, s: Scan): (r: StepResult)
    requires 1 <= s.i < |args|
    ensures r.Next? ==> s.i < r.next.i <= |args|
  {
    match Resolve(flags, args, s.i)
    case Boundary => Stop
    case Refused(msg, err) => Refuse(ef, msg, err, s)
    case Bound(f, inp, next) => Apply(f, inp, ef, s, next)
  }

  datatype RunResult = Finished(s: Scan) | Halted(outcome: Outcome, s: Scan)

  /** The scanning loop from token s.i on: it finishes at a boundary token or the end, or halts. */
  function Run(flags: seq<Flag>, args: seq<CString>, ef: ErrFunc, s: Scan): (r: RunResult)
    requires 1 <= s.i <= |args|
    ensures r.Finished? ==> s.i <= r.s.i <= |args|
    decreases |args| - s.i
  {
    if s.i == |args| then Finished(s)
    else match Step(flags, args, ef, s)
      case Stop => Finished(s)
      case Halt(o, last) => Halted(o, last)
      case Next(next) => Run(flags, args, ef, next)
  }

  /** The program name followed by the tokens from the boundary on. */
  function Leftover(args: seq<CString>, i: nat): (r: seq<CString>)
    requires 1 <= i <= |args|
    ensures |r| == |args| - i + 1
  {
    [args[0]] + args[i..]
  }

  /** What `flag_parse` leaves behind: its outcome, the set's parsed/argc/argv, the caller's storage, the errFunc messages. */
  datatype ParseEffect = ParseEffect(outcome: Outcome, parsed: bool, argc: nat, argv: seq<CString>,
                                     cells: seq<Val>, calls: seq<CString>)

  function ParseSpec(flags: seq<Flag>, ef: ErrFunc, parsed: bool, argc: nat, argv: seq<CString>,
                     args: seq<CString>, cells: seq<Val>): ParseEffect
    requires |args| >= 1 && |argv| == ArgvSlots
  {
    if parsed then ParseEffect(Returned(ErrFlagAlreadyParsed), parsed, argc, argv, cells, [])
    else
      var argv0 := argv[0 := args[0]];
      if HasHelp(args) then
        ParseEffect(if ef == UsageAndExit then Exited(2) else Returned(FlagOK), false, argc, argv0, cells, [HelpMsg])
      else match Run(flags, args, ef, Scan(1, cells, []))
        case Halted(o, s) => ParseEffect(o, false, argc, argv0, s.cells, s.calls)
        case Finished(s) =>
          var n := |args| - s.i + 1;
          if n > ArgvSlots then ParseEffect(Exited(2), true, n, argv0, s.cells, s.calls)
          else ParseEffect(Returned(FlagOK), true, n, Leftover(args, s.i) + argv0[n..], s.cells, s.calls)
  }

  /** `flag_err_str`: the display name of each error; FlagOK has none (the source aborts with status 3). */
  function ErrStr(e: FlagErr): (r: Option<CString>)
    ensures r.None? <==> e == FlagOK
  {
    match e
    case ErrFlagNoArg => Some("ErrFlagNoArg")
    case ErrFlagAlreadyParsed => Some("ErrFlagAlreadyParsed")
    case ErrFlagInvalidValue => Some("ErrFlagInvalidValue")
    case ErrFlagUnknown => Some("ErrFlagUnknown")
    case FlagOK => None
  }

  // ---------------------------------------------------------------------

  class Flagset {
    var vals: array<Flag>
    var count: nat
    var capacity: nat
    var parsed: bool
    var description: CString
    var errFunc: ErrFunc
    var argc: nat
    var argv: array<CString>

    ghost predicate Valid()
      reads this, vals
    {
      count <= capacity <= vals.Length && argv.Length == ArgvSlots &&
      (forall k :: 0 <= k < vals.Length ==> SlotShaped(vals[k])) &&
      NamesDistinct(vals[..count])
    }

    /** The registered flags, in registration order. */
    function Flags(): seq<Flag>
      reads this, vals
      requires count <= vals.Length
    {
      vals[..count]
    }

    /** `flag_init` on a set whose slot storage is `slots`: empty, sized for `cap` flags, the default errFunc. */
    constructor (slots: array<Flag>, cap: nat, desc: CString)
      requires cap <= slots.Length
      requires forall k :: 0 <= k < slots.Length ==> SlotShaped(slots[k])
      modifies slots
      ensures Valid() && vals == slots && fresh(argv)
      ensures count == 0 && capacity == cap && !parsed && description == desc && errFunc == UsageAndExit
      ensures forall k :: 0 <= k < cap ==> vals[k] == Cleared(old(slots[k]))
      ensures forall k :: cap <= k < vals.Length ==> vals[k] == old(slots[k])
    {
      vals := slots;
      parsed := false;
      description := desc;
      errFunc := UsageAndExit;
      capacity := cap;
      count := 0;
      argc := 0;
      argv := new CString[ArgvSlots](_ => "");
      new;
      var i := 0;
      while i < cap
        modifies slots
        invariant 0 <= i <= cap
        invariant forall k :: 0 <= k < slots.Length ==> SlotShaped(slots[k])
        invariant forall k :: 0 <= k < i ==> slots[k] == Cleared(old(slots[k]))
        invariant forall k :: i <= k < slots.Length ==> slots[k] == old(slots[k])
      {
        slots[i] := Cleared(slots[i]);
        i := i + 1;
      }
    }

    /** `flag_register`: refuse a taken name or a full table, else fill slot `count`. */
    method Register(heap: Heap, value: nat, size: nat, kind: Kind, name: CString, desc: CString, boolFlag: bool)
      returns (r: RegResult)
      requires Valid()
      requires value < |heap.cells| && Displayable(kind, heap.cells[value])
      modifies vals, this`count
      ensures Valid() && vals == old(vals)
      ensures r == RegisterVerdict(old(Flags()), capacity, name)
      ensures r != Registered ==> count == old(count) && vals[..] == old(vals[..])
      ensures r == Registered ==> (count == old(count) + 1 &&
        vals[..] == old(vals[..])[old(count) := Filled(old(vals[count]), value, size, kind, name, desc, boolFlag, heap.cells[value])])
    {
      var j := 0;
      while j < count
        invariant 0 <= j <= count
        invariant forall k :: 0 <= k < j ==> vals[k].name != name
      {
        if vals[j].name == name {
          return AlreadyDefined;
        }
        j := j + 1;
      }
      if count >= capacity {
        return LimitReached;
      }
      Fill(heap, value, size, kind, name, desc, boolFlag);
      r := Registered;
    }

    /** The second half of `flag_register`: fill slot `count` with the flag and count it. */
    method Fill(heap: Heap, value: nat, size: nat, kind: Kind, name: CString, desc: CString, boolFlag: bool)
      requires Valid() && count < capacity && RegisterVerdict(Flags(), capacity, name) == Registered
      requires value < |heap.cells| && Displayable(kind, heap.cells[value])
      modifies vals, this`count
      ensures Valid() && vals == old(vals) && count == old(count) + 1
      ensures vals[..] == old(vals[..])[old(count) := Filled(old(vals[count]), value, size, kind, name, desc, boolFlag, heap.cells[value])]
    {
      var slot := vals[count];
      var tn := new char[TypeNameWidth](k requires 0 <= k < TypeNameWidth => slot.typeName[k]);
      assert tn[..] == slot.typeName;
      ExtractTypeName(desc, tn, TypeNameWidth - 1);
      var def := Render(kind, heap.cells[value], slot.defValue);
      vals[count] := Flag(value, size, kind, name, desc, tn[..], def, boolFlag);
      count := count + 1;
      assert vals[..count] == old(vals[..count]) + [vals[count - 1]];
    }

    method VarBool(heap: Heap, p: nat, name: CString, desc: CString) returns (r: RegResult)
      requires Valid() && p < |heap.cells| && heap.cells[p].B?
      modifies vals, this`count
      ensures Valid() && vals == old(vals)
      ensures r == RegisterVerdict(old(Flags()), capacity, name)
      ensures r != Registered ==> count == old(count) && vals[..] == old(vals[..])
      ensures r == Registered ==> (count == old(count) + 1 &&
        vals[..] == old(vals[..])[old(count) := Filled(old(vals[count]), p, 1, BoolKind, name, desc, true, heap.cells[p])])
    {
      r := Register(heap, p, 1, BoolKind, name, desc, true);
    }

    method VarInt(heap: Heap, p: nat, name: CString, desc: CString) returns (r: RegResult)
      requires Valid() && p < |heap.cells| && heap.cells[p].I?
      modifies vals, this`count
      ensures Valid() && vals == old(vals)
      ensures r == RegisterVerdict(old(Flags()), capacity, name)
      ensures r != Registered ==> count == old(count) && vals[..] == old(vals[..])
      ensures r == Registered ==> (count == old(count) + 1 &&
        vals[..] == old(vals[..])[old(count) := Filled(old(vals[count]), p, 4, IntKind, name, desc, false, heap.cells[p])])
    {
      r := Register(heap, p, 4, IntKind, name, desc, false);
    }

    method VarLong(heap: Heap, p: nat, name: CString, desc: CString) returns (r: RegResult)
      requires Valid() && p < |heap.cells| && heap.cells[p].L?
      modifies vals, this`count
      ensures Valid() && vals == old(vals)
      ensures r == RegisterVerdict(old(Flags()), capacity, name)
      ensures r != Registered ==> count == old(count) && vals[..] == old(vals[..])
      ensures r == Registered ==> (count == old(count) + 1 &&
        vals[..] == old(vals[..])[old(count) := Filled(old(vals[count]), p, 8, LongKind, name, desc, false, heap.cells[p])])
    {
      r := Register(heap, p, 8, LongKind, name, desc, false);
    }

    method VarString(heap: Heap, p: nat, len: nat, name: CString, desc: CString) returns (r: RegResult)
      requires Valid() && p < |heap.cells| && heap.cells[p].S? && NUL in heap.cells[p].chars
      modifies vals, this`count
      ensures Valid() && vals == old(vals)
      ensures r == RegisterVerdict(old(Flags()), capacity, name)
      ensures r != Registered ==> count == old(count) && vals[..] == old(vals[..])
      ensures r == Registered ==> (count == old(count) + 1 &&
        vals[..] == old(vals[..])[old(count) := Filled(old(vals[count]), p, len, StringKind, name, desc, false, heap.cells[p])])
    {
      r := Register(heap, p, len, StringKind, name, desc, false);
    }

    /** The lookup loop of `flag_parse`: every match overwrites the previous one. */
    method FindLast(key: CString) returns (m: Option<nat>)
      requires count <= vals.Length
      ensures m.Some? ==> m.value < count && vals[m.value].name == key
      ensures m.Some? ==> forall k :: m.value < k < count ==> vals[k].name != key
      ensures m.None? ==> forall k :: 0 <= k < count ==> vals[k].name != key
      ensures m == LastMatch(Flags(), key)
    {
      m := None;
      var j := 0;
      while j < count
        invariant 0 <= j <= count
        invariant m == LastMatch(vals[..j], key)
      {
        assert vals[..j + 1][..j] == vals[..j];
        if vals[j].name == key {
          m := Some(j);
        }
        j := j + 1;
      }
      assert vals[..count] == Flags();
    }

    /** The token-resolution part of one pass of the scanning loop of `flag_parse`. */
    method ResolveToken(args: seq<CString>, i: nat) returns (r: Resolution)
      requires count <= vals.Length && 1 <= i < |args|
      ensures r == Resolve(Flags(), args, i)
    {
      var tok := args[i];
      if IsBoundary(tok) {
        return Boundary;
      }
      var body := FlagBody(tok);
      var key := Key(body);
      var m := FindLast(key);
      if m.None? {
        return Refused(UnknownMsg(key), ErrFlagUnknown);
      }
      var f := vals[m.value];
      var inline := InlineValue(body);
      if f.boolFlag {
        r := Bound(f, if inline.Some? then inline.value else "true", i + 1);
      } else if inline.Some? {
        r := Bound(f, inline.value, i + 1);
      } else if i + 1 < |args| {
        r := Bound(f, args[i + 1], i + 2);
      } else {
        r := Refused(NoArgMsg(key), ErrFlagNoArg);
      }
    }

    /** One pass of the scanning loop of `flag_parse` over token i. */
    method ScanToken(args: seq<CString>, i: nat, heap: Heap, calls: seq<CString>) returns (r: StepResult)
      requires count <= vals.Length && 1 <= i < |args|
      modifies heap
      ensures r == Step(Flags(), args, errFunc, Scan(i, old(heap.cells), calls))
      ensures heap.cells == if r.Next? then r.next.cells else old(heap.cells)
    {
      var s := Scan(i, heap.cells, calls);
      var res := ResolveToken(args, i);
      match res {
        case Boundary =>
          r := Stop;
        case Refused(msg, err) =>
          r := Refuse(errFunc, msg, err, s);
        case Bound(f, inp, next) =>
          r := ApplyFlag(f, inp, errFunc, heap, s, next);
      }
    }

    /** `flag_parse`: the help pre-scan, the scanning loop, then the leftover view. */
    method Parse(args: seq<CString>, heap: Heap) returns (outcome: Outcome, calls: seq<CString>)
      requires Valid() && |args| >= 1
      modifies this`parsed, this`argc, argv, heap
      ensures Valid()
      ensures ParseEffect(outcome, parsed, argc, argv[..], heap.cells, calls) ==
              ParseSpec(Flags(), errFunc, old(parsed), old(argc), old(argv[..]), args, old(heap.cells))
    {
      if parsed {
        return Returned(ErrFlagAlreadyParsed), [];
      }
      argv[0] := args[0];
      var help := HelpRequested(args);
      if help {
        calls := [HelpMsg];
        outcome := if errFunc == UsageAndExit then Exited(2) else Returned(FlagOK);
        return;
      }
      var res := ScanAll(args, heap);
      calls := res.s.calls;
      if res.Halted? {
        return res.outcome, calls;
      }
      outcome := Publish(args, res.s.i);
    }

    /** The end of `flag_parse` once the scan stopped at token i: mark the set parsed and publish the leftover view. */
    method Publish(args: seq<CString>, i: nat) returns (outcome: Outcome)
      requires Valid() && 1 <= i <= |args| && argv[0] == args[0]
      modifies this`parsed, this`argc, argv
      ensures Valid() && parsed && argc == |args| - i + 1
      ensures argc > ArgvSlots ==> outcome == Exited(2) && argv[..] == old(argv[..])
      ensures argc <= ArgvSlots ==> outcome == Returned(FlagOK) && argv[..] == Leftover(args, i) + old(argv[..])[argc..]
    {
      parsed := true;
      argc := |args| - i + 1;
      if argc > ArgvSlots {
        return Exited(2);
      }
      SetLeftover(args, i);
      outcome := Returned(FlagOK);
    }

    /** The scanning loop of `flag_parse`, from token 1 to a boundary, the end, or a halt. */
    method ScanAll(args: seq<CString>, heap: Heap) returns (res: RunResult)
      requires count <= vals.Length && |args| >= 1
      modifies heap
      ensures res == Run(Flags(), args, errFunc, Scan(1, old(heap.cells), []))
      ensures heap.cells == res.s.cells
    {
      ghost var start := Run(Flags(), args, errFunc, Scan(1, heap.cells, []));
      var i := 1;
      var calls := [];
      while i < |args|
        modifies heap
        invariant 1 <= i <= |args|
        invariant Run(Flags(), args, errFunc, Scan(i, heap.cells, calls)) == start
        decreases |args| - i
      {
        var r := ScanToken(args, i, heap, calls);
        match r {
          case Stop =>
            return Finished(Scan(i, heap.cells, calls));
          case Halt(o, last) =>
            return Halted(o, last);
          case Next(n) =>
            i, calls := n.i, n.calls;
        }
      }
      res := Finished(Scan(i, heap.cells, calls));
    }

    /** The copy loop at the end of `flag_parse`: argv[j] := args[j + i - 1] for the leftover slots. */
    method SetLeftover(args: seq<CString>, i: nat)
      requires argv.Length == ArgvSlots && 1 <= i <= |args| && argc == |args| - i + 1 <= ArgvSlots
      requires argv[0] == args[0]
      modifies argv
      ensures argv[..] == Leftover(args, i) + old(argv[..])[argc..]
    {
      var j := 1;
      while j < argc
        invariant 1 <= j <= argc
        invariant argv[..] == Leftover(args, i)[..j] + old(argv[..])[j..]
      {
        argv[j] := args[j + i - 1];
        j := j + 1;
      }
    }
  }

  /** `match->parseFunc(fset, match->value, match->size, inp, fset->errFunc)` inside the scanning loop. */
  method ApplyFlag(f: Flag, inp: CString, ef: ErrFunc, heap: Heap, s: Scan, next: nat) returns (r: StepResult)
    requires s.cells == heap.cells
    modifies heap
    ensures r == Apply(f, inp, ef, s, next)
    ensures heap.cells == if r.Next? then r.next.cells else old(heap.cells)
  {
    if f.value >= |heap.cells| {
      return Halt(Undefined, s);
    }
    var a := ParseValue(heap, f.value, f.kind, f.size, inp, ef);
    match a {
      case Stored(v, call) =>
        r := Next(Scan(next, heap.cells, s.calls + CallsOf(call)));
      case Terminated(msg) =>
        r := Halt(Exited(2), s.(calls := s.calls + [msg]));
      case UndefinedBehaviour =>
        r := Halt(Undefined, s);
    }
  }

  /** The help pre-scan of `flag_parse`: is any token, the program name included, a request for help? */
  method HelpRequested(args: seq<CString>) returns (b: bool)
    ensures b <==> HasHelp(args)
  {
    var k := 0;
    while k < |args|
      invariant 0 <= k <= |args|
      invariant forall m :: 0 <= m < k ==> !IsHelp(args[m])
    {
      if IsHelp(args[k]) {
        return true;
      }
      k := k + 1;
    }
    return false;
  }
}
