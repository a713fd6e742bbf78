/**
 * The caller's storage that flags write into. C destinations are `void *`
 * pointers to the caller's variables; here an address is an index into the
 * heap's cells and each cell holds a typed value.
 */
module Memory {

  /** A C object a flag can point at: bool, int, long long, or a char buffer of fixed width. */
  datatype Val = B(bit: bool) | I(int32: int) | L(int64: int) | S(chars: seq<char>)

  class Heap {
    var cells: seq<Val>

    constructor (init: seq<Val>)
      ensures cells == init
    {
      cells := init;
    }

    /** malloc/calloc of one object: a fresh address holding `v`. */
    method Alloc(v: Val) returns (p: nat)
      modifies this
      ensures p == |old(cells)| && cells == old(cells) + [v]
    {
      p := |cells|;
      cells := cells + [v];
    }

    /** `*p = v` */
    method Store(p: nat, v: Val)
      requires p < |cells|
      modifies this
      ensures cells == old(cells)[p := v]
    {
      cells := cells[p := v];
    }
  }
}
