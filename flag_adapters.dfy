/**
 * The built-in type adapters of flag.c: one parser and one display routine
 * per flag type, plus `zero`, the all-bytes-zero test used by the usage printer.
 */
module FlagAdapters {
  import opened Wrappers
  import opened CStrings
  import opened Memory

  /** The built-in parser/display pairs a flag can be bound to (the double pair is not modelled). */
  datatype Kind = BoolKind | IntKind | LongKind | StringKind

  /**
   * What `Flagset.errFunc` does once called: the default `errfunc` prints the
   * message and the usage and exits with status 2; a callback the caller
   * installs instead may return.
   */
  datatype ErrFunc = UsageAndExit | Resume

  const BoolErrMsg: CString := "erradic expression for boolean value"
  const IntErrMsg: CString := "invalid integral value"

  /** Width of the buffer a display routine renders into (`char[static 100]`), and snprintf's limit 99. */
  const DisplayWidth: nat := 100
  const DisplayLimit: nat := 98

  /** The effect of one parser call on its destination. */
  datatype Adapted =
    | Stored(v: Val, call: Option<CString>)  // the parser returned; the destination holds v; call is the message given to err_func, if any
    | Terminated(message: CString)           // the parser called err_func, which ended the process before any write
    | UndefinedBehaviour                     // C leaves the behaviour undefined (atoi/atoll overflow, mistyped or too narrow destination)

  /** The destination has the C type the adapter writes, and string buffers are at least `size` wide. */
  predicate Fits(kind: Kind, size: nat, v: Val) {
    match kind
    case BoolKind => v.B?
    case IntKind => v.I?
    case LongKind => v.L?
    case StringKind => v.S? && size <= |v.chars|
  }

  /** The accept/reject decision of `flag_parse_bool`. */
  function BoolValue(inp: CString): Option<bool> {
    if inp == "true" || inp == "1" then Some(true)
    else if inp == "false" || inp == "0" then Some(false)
    else None
  }

  /** `err_func(fs, msg)`: either the process ends, or the adapter carries on with `v` written. */
  function Complain(ef: ErrFunc, msg: CString, v: Val): Adapted {
    if ef == UsageAndExit then Terminated(msg) else Stored(v, Some(msg))
  }

  /** `parseFunc(fs, dest, size, inp, err_func)` for the built-in parsers, on the destination's current contents `v`. */
  function Adapt(kind: Kind, size: nat, inp: CString, ef: ErrFunc, v: Val): Adapted {
    if !Fits(kind, size, v) then UndefinedBehaviour
    else match kind
      case BoolKind =>
        (match BoolValue(inp)
         case Some(b) => Stored(B(b), None)
         case None => Complain(ef, BoolErrMsg, v))
      case IntKind =>
        var j := Atoi(inp);
        if !InIntRange(j) then UndefinedBehaviour
        else if j == 0 && inp != "0" then Complain(ef, IntErrMsg, I(j))
        else Stored(I(j), None)
      case LongKind =>
        var l := Atoi(inp);
        if InLongRange(l) then Stored(L(l), None) else UndefinedBehaviour
      case StringKind =>
        Stored(S(StrNCpy(v.chars, inp, size)), None)
  }

  /** The heap after a parser call at address p. */
  function AfterAdapt(cells: seq<Val>, p: nat, r: Adapted): seq<Val>
    requires p < |cells|
  {
    if r.Stored? then cells[p := r.v] else cells
  }

  /** `match->parseFunc(fset, match->value, match->size, inp, fset->errFunc)`: dispatch to the adapter of `kind`. */
  method ParseValue(heap: Heap, p: nat, kind: Kind, size: nat, inp: CString, ef: ErrFunc) returns (r: Adapted)
    requires p < |heap.cells|
    modifies heap
    ensures r == Adapt(kind, size, inp, ef, old(heap.cells[p]))
    ensures heap.cells == AfterAdapt(old(heap.cells), p, r)
  {
    var v := heap.cells[p];
    if !Fits(kind, size, v) {
      return UndefinedBehaviour;
    }
    match kind {
      case BoolKind =>
        var b := BoolValue(inp);
        if b.Some? {
          heap.Store(p, B(b.value));
          r := Stored(B(b.value), None);
        } else {
          r := Complain(ef, BoolErrMsg, v);
        }
      case IntKind =>
        var j := Atoi(inp);
        if !InIntRange(j) {
          return UndefinedBehaviour;
        }
        if j == 0 && inp != "0" {
          r := Complain(ef, IntErrMsg, I(j));
          if r.Terminated? {
            return;
          }
        } else {
          r := Stored(I(j), None);
        }
        heap.Store(p, I(j));
      case LongKind =>
        var l := Atoi(inp);
        if !InLongRange(l) {
          return UndefinedBehaviour;
        }
        heap.Store(p, L(l));
        r := Stored(L(l), None);
      case StringKind =>
        var buf := StrNCpy(v.chars, inp, size);
        heap.Store(p, S(buf));
        r := Stored(S(buf), None);
    }
  }

  /** The text a display routine renders `v` as: strcpy of "true"/"false", or snprintf(buf, 99, ...). */
  function Display(kind: Kind, v: Val): (t: CString)
    requires Fits(kind, 0, v)
    ensures |t| <= DisplayLimit
  {
    match kind
    case BoolKind => if v.bit then "true" else "false"
    case IntKind => Clip(Decimal(v.int32), DisplayLimit)
    case LongKind => Clip(Decimal(v.int64), DisplayLimit)
    case StringKind => Clip(Text(v.chars), DisplayLimit)
  }

  /** The display buffer after a display routine ran: the rendered text, NUL-terminated. */
  function Render(kind: Kind, v: Val, buf: seq<char>): seq<char>
    requires Fits(kind, 0, v) && |buf| == DisplayWidth
  {
    WriteText(buf, Display(kind, v))
  }

  function Pow10(k: nat): nat {
    if k == 0 then 1 else 10 * Pow10(k - 1)
  }

  lemma {:induction false} DigitsLength(n: nat, k: nat)
    requires 0 < k && n < Pow10(k)
    ensures |Digits(n)| <= k
    decreases k
  {
    if n >= 10 {
      assert k > 1;
      DigitsLength(n / 10, k - 1);
    }
  }

  /** Every long long prints in at most 20 characters, well inside the display limit. */
  lemma DecimalFits(x: int)
    requires InLongRange(x)
    ensures Clip(Decimal(x), DisplayLimit) == Decimal(x)
  {
    assert Pow10(6) == 1000000;
    assert Pow10(12) == 1000000000000;
    assert Pow10(18) == 1000000000000000000;
    DigitsLength(if x < 0 then -x else x, 19);
  }

  /** The cached default of a boolean flag parses back to the flag's value. */
  lemma BoolDisplayRoundTrip(b: bool, ef: ErrFunc)
    ensures Adapt(BoolKind, 0, Display(BoolKind, B(b)), ef, B(b)) == Stored(B(b), None)
  {
  }

  /**
   * The cached default of an int or long long flag parses back to the flag's
   * value without a complaint: the usage printer relies on this when it re-parses
   * `defValue` to decide whether a default is worth showing.
   */
  lemma IntDisplayRoundTrip(x: int, size: nat, ef: ErrFunc)
    requires InIntRange(x)
    ensures Adapt(IntKind, size, Display(IntKind, I(x)), ef, I(x)) == Stored(I(x), None)
  {
    DecimalFits(x);
    AtoiOfDecimal(x);
    if x == 0 {
      assert Decimal(0) == "0";
    } else {
      assert Atoi(Decimal(x)) != 0;
    }
  }

  lemma LongDisplayRoundTrip(x: int, size: nat, ef: ErrFunc)
    requires InLongRange(x)
    ensures Adapt(LongKind, size, Display(LongKind, L(x)), ef, L(x)) == Stored(L(x), None)
  {
    DecimalFits(x);
    AtoiOfDecimal(x);
  }

  /**
   * `flag_parse_int` rejects every text without leading digits (after white
   * space and a sign) except "0", and still stores what atoi read when its
   * err_func returns.
   */
  lemma IntRejectsNonNumeric(inp: CString, size: nat, ef: ErrFunc, v: Val)
    requires v.I? && inp != "0"
    requires var t := SkipSpace(inp);
             LeadingDigits(if |t| > 0 && (t[0] == '-' || t[0] == '+') then t[1..] else t) == []
    ensures Adapt(IntKind, size, inp, ef, v) == Complain(ef, IntErrMsg, I(0))
  {
    assert Atoi(inp) == 0 by {
      assert DigitsValue([]) == 0;
    }
  }

  lemma IntRejectsZeroText(inp: CString, size: nat, ef: ErrFunc, v: Val)
    requires v.I? && inp != "0" && Atoi(inp) == 0
    ensures Adapt(IntKind, size, inp, ef, v) == Complain(ef, IntErrMsg, I(0))
  {
  }

  lemma AtoiOfDoubleZero()
    ensures Atoi("00") == 0
  {
    assert "00" == ['0', '0'];
    assert DigitsValue(['0']) == 0;
    AtoiOfDigits(['0', '0']);
  }

  lemma AtoiOfMinusZero()
    ensures Atoi("-0") == 0
  {
    assert "-0" == ['-'] + ['0'];
    AtoiOfNegatedDigits(['0']);
  }

  lemma AtoiOfSpacedZero()
    ensures Atoi(" 0") == 0
  {
    assert " 0" == [' '] + ['0'];
    AtoiSkipsSpace(' ', ['0']);
    AtoiOfDigits(['0']);
  }

  /**
   * Texts that denote zero other than "0" itself are rejected although they
   * are numeric: the int parser infers failure from atoi returning 0.
   */
  lemma IntRejectsOtherZeros(inp: CString, size: nat, ef: ErrFunc, v: Val)
    requires v.I? && (inp == "00" || inp == "-0" || inp == " 0")
    ensures Adapt(IntKind, size, inp, ef, v) == Complain(ef, IntErrMsg, I(0))
  {
    if inp == "00" {
      AtoiOfDoubleZero();
    } else if inp == "-0" {
      AtoiOfMinusZero();
    } else {
      AtoiOfSpacedZero();
    }
    IntRejectsZeroText(inp, size, ef, v);
  }

  /**
   * `flag_parse_string` writes the first `size` bytes of the destination and
   * no more; a value shorter than `size` reads back unchanged.
   */
  lemma StringStaysInBounds(inp: CString, size: nat, ef: ErrFunc, buf: seq<char>)
    requires size <= |buf|
    ensures Adapt(StringKind, size, inp, ef, S(buf)).Stored?
    ensures var w := Adapt(StringKind, size, inp, ef, S(buf)).v.chars;
            |w| == |buf| && w[size..] == buf[size..] &&
            (|inp| < size ==> Text(w) == inp)
  {
    StrNCpyText(buf, inp, size);
  }

  /** `zero`: true exactly when the first s bytes of the object are all NUL. */
  method Zero(c: array<char>, s: nat) returns (z: bool)
    requires s <= c.Length
    ensures z <==> forall k :: 0 <= k < s ==> c[k] == NUL
  {
    var i := 0;
    while i < s
      invariant 0 <= i <= s
      invariant forall k :: 0 <= k < i ==> c[k] == NUL
    {
      if c[i] != NUL {
        return false;
      }
      i := i + 1;
    }
    return true;
  }
}
