/** `bitmap`: one bit per offset, packed into 32-bit words. */
module Bitmap {

  const BIT_COUNT: nat := 32

  // ---------- single words ----------

  function BitValue(w: bv32, k: bv5): bv32 {
    (w >> k) & 1
  }

  function Or1(w: bv32, k: bv5): bv32 {
    w | ((1 as bv32) << k)
  }

  function AndNot1(w: bv32, k: bv5): bv32 {
    w & !((1 as bv32) << k)
  }

  function Masked(w: bv32, k: bv5): bv32 {
    w & ((1 as bv32) << k)
  }

  lemma OrBit(w: bv32, k: bv5, j: bv5)
    ensures BitValue(Or1(w, k), j) == if j == k then 1 else BitValue(w, j)
  {
  }

  lemma ClearedBit(w: bv32, k: bv5)
    ensures BitValue(AndNot1(w, k), k) == 0
  {
  }

  lemma ClearKeepsMasked(w: bv32, k: bv5, j: bv5)
    requires k != j
    ensures Masked(AndNot1(w, k), j) == Masked(w, j)
  {
    DistinctShifts(k, j);
    MaskAlgebra(w, (1 as bv32) << k, (1 as bv32) << j);
  }

  lemma DistinctShifts(k: bv5, j: bv5)
    requires k != j
    ensures ((1 as bv32) << k) & ((1 as bv32) << j) == 0
  {
  }

  lemma MaskAlgebra(w: bv32, m: bv32, n: bv32)
    requires m & n == 0
    ensures w & !m & n == w & n
  {
  }

  /** Words that agree under the mask of a bit agree in that bit. */
  lemma MaskedBit(x: bv32, y: bv32, j: bv5)
    requires Masked(x, j) == Masked(y, j)
    ensures BitValue(x, j) == BitValue(y, j)
  {
  }

  lemma AndNotBit(w: bv32, k: bv5, j: bv5)
    ensures BitValue(AndNot1(w, k), j) == if j == k then 0 else BitValue(w, j)
  {
    hide *;
    if j == k {
      ClearedBit(w, k);
    } else {
      ClearKeepsMasked(w, k, j);
      MaskedBit(AndNot1(w, k), w, j);
    }
  }

  lemma ShiftsDiffer(j: nat, k: nat)
    requires j < BIT_COUNT && k < BIT_COUNT && j != k
    ensures j as bv5 != k as bv5
  {
    RoundTrip(j);
    RoundTrip(k);
  }

  lemma RoundTrip(j: nat)
    requires j < BIT_COUNT
    ensures (j as bv5) as nat == j
  {
  }

  /** The bit of a word at a position. */
  predicate BitOf(w: bv32, k: nat)
    requires k < BIT_COUNT
  {
    BitValue(w, k as bv5) == 1
  }

  /** Setting one bit of a word leaves its other bits alone. */
  lemma SetInWord(w: bv32, k: nat, j: nat)
    requires k < BIT_COUNT && j < BIT_COUNT
    ensures BitOf(Or1(w, k as bv5), j) <==> j == k || BitOf(w, j)
  {
    hide BitValue, Or1;
    OrBit(w, k as bv5, j as bv5);
    if j != k {
      ShiftsDiffer(j, k);
    }
  }

  /** So does clearing one. */
  lemma ClearInWord(w: bv32, k: nat, j: nat)
    requires k < BIT_COUNT && j < BIT_COUNT
    ensures BitOf(AndNot1(w, k as bv5), j) <==> j != k && BitOf(w, j)
  {
    hide BitValue, AndNot1;
    AndNotBit(w, k as bv5, j as bv5);
    if j != k {
      ShiftsDiffer(j, k);
    }
  }

  class Bitmap {
    const puint: array<bv32>
    /** The offsets whose bit is 1. */
    ghost var bits: set<nat>

    ghost predicate Valid()
      reads this, puint
    {
      && (forall o :: o in bits ==> o < BIT_COUNT * puint.Length)
      && forall o :: 0 <= o < BIT_COUNT * puint.Length ==> (BitAt(o) <==> o in bits)
    }

    predicate BitAt(o: nat)
      requires o < BIT_COUNT * puint.Length
      reads puint
    {
      BitOf(puint[o / BIT_COUNT], o % BIT_COUNT)
    }

    constructor (words: nat)
      ensures Valid() && bits == {} && puint.Length == words && fresh(puint)
    {
      puint := new bv32[words](_ => 0);
      bits := {};
      new;
      assert forall k: nat :: k < BIT_COUNT ==> !BitOf(0, k);
    }

    method Get(offset: nat) returns (b: bool)
      requires Valid() && offset < BIT_COUNT * puint.Length
      ensures b <==> offset in bits
    {
      b := BitAt(offset);
    }

    method Set1(offset: nat)
      requires Valid() && offset < BIT_COUNT * puint.Length
      modifies `bits, puint
      ensures Valid() && bits == old(bits) + {offset}
    {
      hide BitOf, Or1;
      var i := offset / BIT_COUNT;
      forall k: nat | k < BIT_COUNT
        ensures BitOf(Or1(puint[i], (offset % BIT_COUNT) as bv5), k) <==> k == offset % BIT_COUNT || BitOf(puint[i], k)
      {
        SetInWord(puint[i], offset % BIT_COUNT, k);
      }
      assert forall o: nat :: o < BIT_COUNT * puint.Length ==> (BitAt(o) <==> o in bits);
      puint[i] := Or1(puint[i], (offset % BIT_COUNT) as bv5);
      bits := bits + {offset};
    }

    method Set0(offset: nat)
      requires Valid() && offset < BIT_COUNT * puint.Length
      modifies `bits, puint
      ensures Valid() && bits == old(bits) - {offset}
    {
      hide BitOf, AndNot1;
      var i := offset / BIT_COUNT;
      forall k: nat | k < BIT_COUNT
        ensures BitOf(AndNot1(puint[i], (offset % BIT_COUNT) as bv5), k) <==> k != offset % BIT_COUNT && BitOf(puint[i], k)
      {
        ClearInWord(puint[i], offset % BIT_COUNT, k);
      }
      assert forall o: nat :: o < BIT_COUNT * puint.Length ==> (BitAt(o) <==> o in bits);
      puint[i] := AndNot1(puint[i], (offset % BIT_COUNT) as bv5);
      bits := bits - {offset};
    }
  }
}
