/** `structmask`: several fields packed into one 32-bit word each behind a run of mask bits. Words are
    numbers below 2^32; masking and shifting are division and remainder by powers of two. */
module StructMask {
  import opened Prelude

  const WORD: nat := 0x1_0000_0000

  function Pow2(k: nat): (r: nat)
    ensures r > 0
  {
    if k == 0 then 1 else 2 * Pow2(k - 1)
  }

  lemma {:induction false} Pow2Sum(a: nat, b: nat)
    ensures Pow2(a + b) == Pow2(a) * Pow2(b)
  {
    if a > 0 {
      Pow2Sum(a - 1, b);
      assert Pow2(a) * Pow2(b) == 2 * (Pow2(a - 1) * Pow2(b));
    }
  }

  lemma Pow2Word()
    ensures Pow2(32) == WORD
  {
    assert Pow2(8) == 256;
    Pow2Sum(8, 8);
    Pow2Sum(16, 16);
  }

  /** Bitwise or. */
  function Or(a: nat, b: nat): nat
    decreases a + b
  {
    if a == 0 then b
    else if b == 0 then a
    else 2 * Or(a / 2, b / 2) + if a % 2 == 1 || b % 2 == 1 then 1 else 0
  }

  lemma OrUnfold(a: nat, b: nat)
    ensures Or(a, b) == 2 * Or(a / 2, b / 2) + if a % 2 == 1 || b % 2 == 1 then 1 else 0
  {
  }

  lemma Halves(k: nat, lo: nat, x: nat)
    requires k > 0
    ensures (lo + x * Pow2(k)) / 2 == lo / 2 + x * Pow2(k - 1) && (lo + x * Pow2(k)) % 2 == lo % 2
  {
    assert x * Pow2(k) == 2 * (x * Pow2(k - 1));
  }

  /** Low bits that the second operand does not have pass through. */
  lemma {:induction false} OrAbove(k: nat, lo: nat, x: nat, y: nat)
    requires lo < Pow2(k)
    ensures Or(lo + x * Pow2(k), y * Pow2(k)) == lo + Or(x, y) * Pow2(k)
  {
    hide Or;
    if k == 0 {
      assert x * Pow2(0) == x && y * Pow2(0) == y && Or(x, y) * Pow2(0) == Or(x, y);
    } else {
      OrAbove(k - 1, lo / 2, x, y);
      Halves(k, lo, x);
      Halves(k, 0, y);
      OrUnfold(lo + x * Pow2(k), y * Pow2(k));
      Halves(k, 0, Or(x, y));
    }
  }

  /** Or of bit ranges that do not meet is addition. */
  lemma {:induction false} OrBelow(n: nat, high: nat, v: nat)
    requires v < Pow2(n)
    ensures Or(high * Pow2(n), v) == high * Pow2(n) + v
  {
    if n > 0 {
      OrBelow(n - 1, high, v / 2);
      Halves(n, 0, high);
      OrUnfold(high * Pow2(n), v);
      assert high * Pow2(n) == 2 * (high * Pow2(n - 1));
    } else {
      assert high * Pow2(0) == high;
    }
  }

  // ---------- fields ----------

  /** A field: its first bit, its width in bits and the word it lies in. */
  datatype Mask = Mask(shift: nat, width: nat, offset: nat)

  predicate Good(m: Mask) {
    m.width > 0 && m.shift + m.width <= 32
  }

  function Max(m: Mask): nat {
    Pow2(m.width) - 1
  }

  function Get(w: nat, m: Mask): (v: nat) {
    w / Pow2(m.shift) % Pow2(m.width)
  }

  lemma GetFits(w: nat, m: Mask)
    ensures Get(w, m) <= Max(m)
  {
  }

  /** The field is cleared, then the shifted value is or-ed in, whatever its size. */
  function Set(w: nat, m: Mask, v: nat): nat
    requires Good(m)
  {
    ClearedFits(w, m);
    Or(w - Get(w, m) * Pow2(m.shift), v * Pow2(m.shift) % WORD)
  }

  /** The saturating increment decides on a 32-bit sum. */
  function Inc(w: nat, m: Mask, inc: nat): nat
    requires Good(m)
  {
    if (inc + Get(w, m)) % WORD <= Max(m) then (w + inc * Pow2(m.shift)) % WORD else Set(w, m, Max(m))
  }

  /** What lies below and above a field. */
  function Low(w: nat, m: Mask): nat {
    w % Pow2(m.shift)
  }

  function High(w: nat, m: Mask): nat {
    Quotient(Quotient(w, Pow2(m.shift)), Pow2(m.width))
  }

  function Quotient(a: nat, b: nat): nat
    requires b > 0
  {
    a / b
  }

  /** A word put together from the part below a field, the field and the part above. */
  function Word(lo: nat, f: nat, hi: nat, m: Mask): nat {
    lo + (hi * Pow2(m.width) + f) * Pow2(m.shift)
  }

  lemma TakeApart(w: nat, m: Mask)
    ensures w == Word(Low(w, m), Get(w, m), High(w, m), m)
    ensures Low(w, m) < Pow2(m.shift)
  {
    var q := w / Pow2(m.shift);
    assert w == q * Pow2(m.shift) + w % Pow2(m.shift);
    assert q == High(w, m) * Pow2(m.width) + Get(w, m);
  }

  lemma PutTogether(lo: nat, f: nat, hi: nat, m: Mask)
    requires lo < Pow2(m.shift) && f < Pow2(m.width)
    ensures var w := Word(lo, f, hi, m); Low(w, m) == lo && Get(w, m) == f && High(w, m) == hi
  {
    var w := Word(lo, f, hi, m);
    DivisionOf(w, Pow2(m.shift), hi * Pow2(m.width) + f, lo);
    DivisionOf(hi * Pow2(m.width) + f, Pow2(m.width), hi, f);
  }

  lemma ClearedFits(w: nat, m: Mask)
    ensures Get(w, m) * Pow2(m.shift) <= w
    ensures w - Get(w, m) * Pow2(m.shift) == Low(w, m) + High(w, m) * Pow2(m.width) * Pow2(m.shift)
  {
    hide Pow2, Low, Get, High;
    TakeApart(w, m);
    Distribute(Low(w, m), Get(w, m), High(w, m) * Pow2(m.width), Pow2(m.shift));
  }

  lemma Distribute(lo: nat, f: nat, hi: nat, p: nat)
    ensures lo + (hi + f) * p == lo + hi * p + f * p && f * p >= 0 && hi * p >= 0
  {
  }

  /** The bits of a value that survive the shift. */
  function Surviving(m: Mask, v: nat): nat
    requires Good(m)
  {
    v % Pow2(32 - m.shift)
  }

  lemma ShiftedValue(m: Mask, v: nat)
    requires Good(m)
    ensures v * Pow2(m.shift) % WORD == Surviving(m, v) * Pow2(m.shift)
  {
    Pow2Word();
    Pow2Sum(m.shift, 32 - m.shift);
    hide Pow2;
    ScaledRemainder(v, Pow2(m.shift), Pow2(32 - m.shift));
  }

  lemma ScaledRemainder(v: nat, p: nat, r: nat)
    requires p > 0 && r > 0
    ensures p * r > 0 && v * p % (p * r) == v % r * p
  {
    var q, s := v / r, v % r;
    MulMono(1, p, r);
    assert v * p == q * (p * r) + s * p by {
      assert v == q * r + s;
    }
    MulMono(s + 1, r, p);
    DivisionOf(v * p, p * r, q, s * p);
  }

  lemma FittingSurvives(m: Mask, v: nat)
    requires Good(m) && v <= Max(m)
    ensures Surviving(m, v) == v
  {
    hide Pow2;
    var r := 32 - m.shift - m.width;
    Pow2Sum(m.width, r);
    assert m.width + r == 32 - m.shift;
    BelowProduct(v, Pow2(m.width), Pow2(r));
  }

  lemma BelowProduct(v: nat, a: nat, b: nat)
    requires v < a && b > 0
    ensures a * b > 0 && v % (a * b) == v
  {
    MulMono(1, b, a);
    DivisionOf(v, a * b, 0, v);
  }

  /** Setting a value replaces the field and leaves everything else, when what survives the shift
      fits the field. */
  lemma SetFits(w: nat, m: Mask, v: nat)
    requires Good(m) && Surviving(m, v) <= Max(m)
    ensures Set(w, m, v) == Word(Low(w, m), Surviving(m, v), High(w, m), m)
    ensures Low(w, m) < Pow2(m.shift)
  {
    TakeApart(w, m);
    ClearedFits(w, m);
    ShiftedValue(m, v);
    OrAbove(m.shift, Low(w, m), High(w, m) * Pow2(m.width), Surviving(m, v));
    OrBelow(m.width, High(w, m), Surviving(m, v));
  }

  // ---------- what set and increment promise ----------

  /** Nothing but the field differs. */
  predicate SameRest(w: nat, w': nat, m: Mask) {
    Low(w', m) == Low(w, m) && High(w', m) == High(w, m)
  }

  /** Set then get is the identity for values that fit, and the rest of the word is untouched. */
  lemma SetThenGet(w: nat, m: Mask, v: nat)
    requires Good(m) && v <= Max(m)
    ensures Get(Set(w, m, v), m) == v && SameRest(w, Set(w, m, v), m)
  {
    FittingSurvives(m, v);
    SetFits(w, m, v);
    PutTogether(Low(w, m), v, High(w, m), m);
  }

  /** A value leaves the rest of every word alone exactly when its surviving bits fit the field. */
  lemma SetKeepsRestIff(m: Mask, v: nat)
    requires Good(m)
    ensures (forall w :: SameRest(w, Set(w, m, v), m)) <==> Surviving(m, v) <= Max(m)
  {
    if Surviving(m, v) <= Max(m) {
      forall w ensures SameRest(w, Set(w, m, v), m) {
        SetFits(w, m, v);
        PutTogether(Low(w, m), Surviving(m, v), High(w, m), m);
      }
    } else {
      Spill(m, v);
      assert !SameRest(0, Set(0, m, v), m);
    }
  }

  /** In an empty word the bits that do not fit show up above the field. */
  lemma Spill(m: Mask, v: nat)
    requires Good(m) && Surviving(m, v) > Max(m)
    ensures High(0, m) == 0 && High(Set(0, m, v), m) > 0
  {
    var p, s := Pow2(m.shift), Surviving(m, v);
    assert Get(0, m) == 0 by {
      DivisionOf(0, p, 0, 0);
      DivisionOf(0, Pow2(m.width), 0, 0);
    }
    ShiftedValue(m, v);
    assert Set(0, m, v) == s * p;
    DivisionOf(s * p, p, s, 0);
    CellArithmetic(Pow2(m.width), s, 1);
  }

  /** Fields of different words, or of disjoint bits of one word. */
  predicate Apart(m: Mask, n: Mask) {
    m.offset != n.offset || n.shift + n.width <= m.shift || m.shift + m.width <= n.shift
  }

  lemma Multiples(a: nat, k: nat, d: nat)
    requires d > 0
    ensures (a + k * d) / d == a / d + k && (a + k * d) % d == a % d
  {
    DivisionOf(a + k * d, d, a / d + k, a % d);
  }

  lemma NestedDivision(w: nat, a: nat, b: nat)
    requires a > 0 && b > 0
    ensures a * b > 0 && w / (a * b) == w / a / b
  {
    MulMono(1, a, b);
    var q, r := w / a, w % a;
    assert w == (q / b * b + q % b) * a + r;
    MulMono(q % b + 1, b, a);
    assert w == q / b * (a * b) + (q % b * a + r);
    DivisionOf(w, a * b, q / b, q % b * a + r);
  }

  lemma BelowMultiples(w: nat, p: nat, a: nat, d: nat, r: nat)
    requires a > 0 && d > 0 && p > 0 && p == a * (d * r)
    ensures w / a % d == w % p / a % d
  {
    var lo, k := w % p, w / p;
    assert w == lo + k * p;
    assert k * (a * (d * r)) == k * r * d * a;
    Multiples(lo, k * r * d, a);
    Multiples(lo / a, k * r, d);
  }

  /** A field below another one only sees the part below. */
  lemma GetBelow(w: nat, m: Mask, n: Mask)
    requires n.shift + n.width <= m.shift
    ensures Get(w, n) == Get(Low(w, m), n)
  {
    var r := m.shift - n.shift - n.width;
    Pow2Sum(n.shift, n.width + r);
    Pow2Sum(n.width, r);
    assert n.shift + (n.width + r) == m.shift;
    hide Pow2;
    BelowMultiples(w, Pow2(m.shift), Pow2(n.shift), Pow2(n.width), Pow2(r));
  }

  /** A field above another one only sees the part above. */
  lemma GetAbove(w: nat, m: Mask, n: Mask)
    requires m.shift + m.width <= n.shift
    ensures Get(w, n) == High(w, m) / Pow2(n.shift - m.shift - m.width) % Pow2(n.width)
  {
    var r := n.shift - m.shift - m.width;
    Pow2Sum(m.shift, m.width + r);
    Pow2Sum(m.width, r);
    hide Pow2;
    NestedDivision(w, Pow2(m.shift), Pow2(m.width) * Pow2(r));
    NestedDivision(w / Pow2(m.shift), Pow2(m.width), Pow2(r));
  }

  /** Other fields of the word keep their values. */
  lemma OtherFieldKept(w: nat, w': nat, m: Mask, n: Mask)
    requires SameRest(w, w', m) && m.offset == n.offset && Apart(m, n)
    ensures Get(w', n) == Get(w, n)
  {
    hide Get, Low, High;
    if n.shift + n.width <= m.shift {
      GetBelow(w, m, n);
      GetBelow(w', m, n);
    } else {
      GetAbove(w, m, n);
      GetAbove(w', m, n);
    }
  }

  lemma WordBound(lo: nat, f: nat, v: nat, hi: nat, p: nat, n: nat, r: nat)
    requires lo < p && f < n && v < n && lo + (hi * n + f) * p < p * (n * r)
    ensures lo + (hi * n + v) * p < p * (n * r)
  {
    assert p * (n * r) == r * n * p;
    if hi >= r {
      MulMono(r, hi, n);
      MulMono(r * n, hi * n + f, p);
    } else {
      MulMono(hi + 1, r, n);
      MulMono(hi * n + v + 1, r * n, p);
    }
  }

  /** Putting a value that fits into a word keeps it a word. */
  lemma StaysWord(w: nat, m: Mask, v: nat)
    requires Good(m) && w < WORD && v <= Max(m)
    ensures Word(Low(w, m), v, High(w, m), m) < WORD
  {
    hide Pow2;
    Pow2Word();
    Pow2Sum(m.shift, 32 - m.shift);
    Pow2Sum(m.width, 32 - m.shift - m.width);
    TakeApart(w, m);
    WordBound(Low(w, m), Get(w, m), v, High(w, m), Pow2(m.shift), Pow2(m.width), Pow2(32 - m.shift - m.width));
  }

  /** The increment is min(maximum, old + inc) and nothing else, as long as the 32-bit sum of the two
      values does not wrap around. */
  lemma IncSaturates(w: nat, m: Mask, inc: nat)
    requires Good(m) && w < WORD && inc + Get(w, m) < WORD
    ensures Get(Inc(w, m, inc), m) == Min(Max(m), Get(w, m) + inc) && SameRest(w, Inc(w, m, inc), m)
  {
    hide Get, Low, High, Word, Set, Pow2;
    if inc + Get(w, m) <= Max(m) {
      IncAdds(w, m, inc);
      PutTogether(Low(w, m), Get(w, m) + inc, High(w, m), m);
    } else {
      SetThenGet(w, m, Max(m));
    }
  }

  lemma IncAdds(w: nat, m: Mask, inc: nat)
    requires Good(m) && w < WORD && inc + Get(w, m) <= Max(m)
    ensures (w + inc * Pow2(m.shift)) % WORD == Word(Low(w, m), Get(w, m) + inc, High(w, m), m)
    ensures Low(w, m) < Pow2(m.shift)
  {
    hide Get, Low, High, Word, Pow2;
    TakeApart(w, m);
    StaysWord(w, m, Get(w, m) + inc);
    IncrementInPlace(Low(w, m), Get(w, m), High(w, m), m, inc);
  }

  lemma IncrementInPlace(lo: nat, f: nat, hi: nat, m: Mask, inc: nat)
    ensures Word(lo, f + inc, hi, m) == Word(lo, f, hi, m) + inc * Pow2(m.shift)
  {
    assert (hi * Pow2(m.width) + (f + inc)) * Pow2(m.shift) == (hi * Pow2(m.width) + f) * Pow2(m.shift) + inc * Pow2(m.shift);
  }

  /** For increments that fit the field, saturation holds exactly when the sum does not wrap; only a
      field of all 32 bits can make it wrap. */
  lemma SaturatesIff(w: nat, m: Mask, inc: nat)
    requires Good(m) && w < WORD && inc <= Max(m)
    ensures Get(Inc(w, m, inc), m) == Min(Max(m), Get(w, m) + inc) <==> inc + Get(w, m) < WORD
    ensures m.width < 32 ==> inc + Get(w, m) < WORD
  {
    hide Get, Inc;
    if m.width < 32 {
      NarrowField(w, m, inc);
    }
    if inc + Get(w, m) < WORD {
      IncSaturates(w, m, inc);
    } else {
      WrapsAround(w, m, inc);
    }
  }

  lemma NarrowField(w: nat, m: Mask, inc: nat)
    requires Good(m) && m.width < 32 && inc <= Max(m)
    ensures inc + Get(w, m) < WORD
  {
    Pow2Word();
    GetFits(w, m);
    Pow2Sum(m.width, 31 - m.width);
    MulMono(1, Pow2(31 - m.width), Pow2(m.width));
    assert Pow2(32) == 2 * Pow2(31);
  }

  /** In a field of all 32 bits a wrapping increment adds modulo 2^32. */
  lemma WrapsAround(w: nat, m: Mask, inc: nat)
    requires Good(m) && m.width == 32 && w < WORD && inc <= Max(m) && inc + Get(w, m) >= WORD
    ensures Get(Inc(w, m, inc), m) == inc + Get(w, m) - WORD < Max(m)
  {
    hide Get, Max, Pow2;
    WholeWord(w, m);
    var sum := inc + w;
    DivisionOf(sum, WORD, 1, sum - WORD);
    WholeWord(sum - WORD, m);
  }

  lemma WholeWord(w: nat, m: Mask)
    requires Good(m) && m.width == 32 && w < WORD
    ensures m.shift == 0 && Pow2(m.shift) == 1 && Get(w, m) == w && Max(m) == WORD - 1
  {
    Pow2Word();
    DivisionOf(w, WORD, 0, w);
  }

  // ---------- merging term descriptions ----------

  /** The fields of a description lie inside its words and apart from each other. */
  ghost predicate Layout(masks: seq<Mask>, size: nat) {
    && (forall i :: 0 <= i < |masks| ==> Good(masks[i]) && masks[i].offset < size)
    && forall i, j :: 0 <= i < j < |masks| ==> Apart(masks[i], masks[j])
  }

  predicate AllWords(ws: seq<nat>) {
    forall i :: 0 <= i < |ws| ==> ws[i] < WORD
  }

  function FieldAt(ws: seq<nat>, m: Mask): nat
    requires m.offset < |ws|
  {
    Get(ws[m.offset], m)
  }

  /** What is left of a sum of increments: it saturates, but in a field of all 32 bits it wraps. */
  function Total(m: Mask, sum: nat): nat {
    if m.width < 32 then Min(Max(m), sum) else sum % WORD
  }

  /** What one merge makes of a field. */
  predicate Merged(before: nat, inc: nat, after: nat, m: Mask) {
    after == Total(m, before + inc)
  }

  /** The field m of three descriptions: before, merged in, after. */
  predicate MergedAt(before: seq<nat>, other: seq<nat>, after: seq<nat>, m: Mask)
    requires m.offset < |before| && m.offset < |other| && m.offset < |after|
  {
    Merged(FieldAt(before, m), FieldAt(other, m), FieldAt(after, m), m)
  }

  lemma IncStaysWord(w: nat, m: Mask, inc: nat)
    requires Good(m) && w < WORD
    ensures Inc(w, m, inc) < WORD
  {
    hide Low, High, Word, Set, Pow2;
    FittingSurvives(m, Max(m));
    SetFits(w, m, Max(m));
    StaysWord(w, m, Max(m));
  }

  /** An increment of one field leaves the others alone, whatever happens in its own. */
  lemma IncKeepsOther(ws: seq<nat>, m: Mask, n: Mask, inc: nat)
    requires m.offset < |ws| && n.offset < |ws| && AllWords(ws) && Good(m) && Good(n) && Apart(m, n) && inc <= Max(m)
    ensures FieldAt(ws[m.offset := Inc(ws[m.offset], m, inc)], n) == FieldAt(ws, n)
  {
    hide Get, Inc, Pow2, SameRest;
    if m.offset == n.offset {
      NarrowField(ws[m.offset], m, inc);
      IncSaturates(ws[m.offset], m, inc);
      OtherFieldKept(ws[m.offset], Inc(ws[m.offset], m, inc), m, n);
    }
  }

  lemma IncMerges(ws: seq<nat>, m: Mask, inc: nat)
    requires m.offset < |ws| && AllWords(ws) && Good(m) && inc <= Max(m)
    ensures Merged(FieldAt(ws, m), inc, FieldAt(ws[m.offset := Inc(ws[m.offset], m, inc)], m), m)
  {
    hide Get, Inc, Pow2, SameRest;
    var sum := FieldAt(ws, m) + inc;
    if m.width < 32 {
      NarrowField(ws[m.offset], m, inc);
    } else {
      WholeWord(ws[m.offset], m);
      DivisionOf(sum, WORD, sum / WORD, sum % WORD);
    }
    if sum < WORD {
      IncSaturates(ws[m.offset], m, inc);
    } else {
      WrapsAround(ws[m.offset], m, inc);
    }
  }

  /** The merge of one description into another, field by field and in place. */
  method MergeTerm(term: array<nat>, other: seq<nat>, masks: seq<Mask>)
    requires Layout(masks, term.Length) && |other| == term.Length && AllWords(term[..])
    modifies term
    ensures AllWords(term[..])
    ensures forall k :: 0 <= k < |masks| ==> MergedAt(old(term[..]), other, term[..], masks[k])
  {
    hide Get, Inc, Merged, Apart, FieldAt, Max, Total;
    ghost var was := term[..];
    for i := 0 to |masks|
      invariant AllWords(term[..])
      invariant forall k :: 0 <= k < i ==> MergedAt(was, other, term[..], masks[k])
      invariant forall k :: i <= k < |masks| ==> FieldAt(term[..], masks[k]) == FieldAt(was, masks[k])
    {
      ghost var now := term[..];
      var m := masks[i];
      var inc := FieldAt(other, m);
      FieldFits(other, m);
      IncMerges(now, m, inc);
      IncStaysWord(term[m.offset], m, inc);
      forall k | 0 <= k < |masks| && k != i
        ensures FieldAt(now[m.offset := Inc(now[m.offset], m, inc)], masks[k]) == FieldAt(now, masks[k])
      {
        ApartBoth(masks, i, k);
        IncKeepsOther(now, m, masks[k], inc);
      }
      term[m.offset] := Inc(term[m.offset], m, inc);
      assert term[..] == now[m.offset := Inc(now[m.offset], m, inc)];
    }
  }

  lemma FieldFits(ws: seq<nat>, m: Mask)
    requires m.offset < |ws|
    ensures FieldAt(ws, m) <= Max(m)
  {
    GetFits(ws[m.offset], m);
  }

  lemma ApartBoth(masks: seq<Mask>, i: nat, k: nat)
    requires i < |masks| && k < |masks| && i != k
    requires forall i, j :: 0 <= i < j < |masks| ==> Apart(masks[i], masks[j])
    ensures Apart(masks[i], masks[k])
  {
    if k < i {
      assert Apart(masks[k], masks[i]);
    }
  }

  // ---------- building the masks from the configuration ----------

  /** A configured field: its name and its number of bits. */
  datatype Field = Field(name: string, seg: nat)

  /** The bits of the first i fields. */
  function BitsBefore(fields: seq<Field>, i: nat): nat
    requires i <= |fields|
  {
    if i == 0 then 0 else BitsBefore(fields, i - 1) + fields[i - 1].seg
  }

  /** Fields follow each other without a hole. */
  function MaskAt(fields: seq<Field>, i: nat): Mask
    requires i < |fields|
  {
    Mask(BitsBefore(fields, i) % 32, fields[i].seg, BitsBefore(fields, i) / 32)
  }

  /** A field has 1 to 32 bits, does not cross the end of a word and has a name no earlier field has. */
  predicate FieldOk(fields: seq<Field>, i: nat)
    requires i < |fields|
  {
    && 0 < fields[i].seg <= 32 && BitsBefore(fields, i) % 32 + fields[i].seg <= 32
    && 0 < |fields[i].name| <= 100 && forall j :: 0 <= j < i ==> fields[j].name != fields[i].name
  }

  /** The number of words of a description. */
  function Words(fields: seq<Field>): nat {
    BitsBefore(fields, |fields|) / 32
  }

  const MAX_WORDS: nat := 2048

  /** A configuration the constructor accepts: good fields that fill whole words, not too many of them. */
  predicate Configurable(fields: seq<Field>) {
    && fields != [] && (forall i :: 0 <= i < |fields| ==> FieldOk(fields, i))
    && BitsBefore(fields, |fields|) % 32 == 0 && Words(fields) <= MAX_WORDS
  }

  /** `uint_offset` and `uint32_count` have ten bits each. */
  const TEN_BITS: nat := 1024

  /** A field as it is kept: its mask and the number of words of a description. */
  datatype Item = Item(mask: Mask, count: nat)

  function Stored(m: Mask, words: nat): Item {
    Item(m.(offset := m.offset % TEN_BITS), words % TEN_BITS)
  }

  lemma NoBits(fields: seq<Field>)
    ensures BitsBefore(fields, 0) == 0
  {
  }

  /** What the running counters say about the next field. */
  lemma NextField(fields: seq<Field>, i: nat, bits: nat, section: nat)
    requires i < |fields| && BitsBefore(fields, i) == 32 * section + bits && bits < 32
    ensures MaskAt(fields, i) == Mask(bits, fields[i].seg, section)
    ensures BitsBefore(fields, i + 1) == BitsBefore(fields, i) + fields[i].seg
    ensures FieldOk(fields, i) <==>
              && 0 < fields[i].seg <= 32 && bits + fields[i].seg <= 32 && 0 < |fields[i].name| <= 100
              && forall j :: 0 <= j < i ==> fields[j].name != fields[i].name
  {
  }

  /** The constructor: running bit and word counters instead of sums, offsets cut to ten bits as they
      are stored, and a second loop for the number of words. None stands for its exceptions. */
  method Build(fields: seq<Field>) returns (r: Option<seq<Item>>)
    ensures r.Some? <==> Configurable(fields)
    ensures r.Some? ==> |r.value| == |fields|
    ensures r.Some? ==> forall i :: 0 <= i < |fields| ==> r.value[i] == Stored(MaskAt(fields, i), Words(fields))
  {
    hide BitsBefore, MaskAt, FieldOk;
    NoBits(fields);
    var bits, section, items: seq<Item>, names: set<string> := 0, 0, [], {};
    for i := 0 to |fields|
      invariant BitsBefore(fields, i) == 32 * section + bits && 0 <= bits < 32 && section >= 0
      invariant |items| == i && forall j :: 0 <= j < i ==> items[j] == Stored(MaskAt(fields, j), 0) && FieldOk(fields, j)
      invariant forall n :: n in names <==> exists j :: 0 <= j < i && fields[j].name == n
    {
      var f := fields[i];
      NextField(fields, i, bits, section);
      if f.seg == 0 || f.seg > 32 || bits + f.seg > 32 || |f.name| == 0 || |f.name| > 100 {
        assert !FieldOk(fields, i);
        return None;
      }
      items := items + [Item(Mask(bits, f.seg, section % TEN_BITS), 0)];
      bits := bits + f.seg;
      if bits == 32 {
        bits, section := 0, section + 1;
      }
      if f.name in names {
        assert !FieldOk(fields, i);
        return None;
      }
      names := names + {f.name};
    }
    if bits != 0 || |fields| == 0 || section > MAX_WORDS {
      return None;
    }
    items := SetCounts(items, section);
    r := Some(items);
  }

  /** The second loop. */
  method SetCounts(items: seq<Item>, section: nat) returns (r: seq<Item>)
    ensures |r| == |items| && forall i :: 0 <= i < |items| ==> r[i] == items[i].(count := section % TEN_BITS)
  {
    r := items;
    for i := 0 to |items|
      invariant |r| == |items|
      invariant forall j :: 0 <= j < |items| ==> r[j] == if j < i then items[j].(count := section % TEN_BITS) else items[j]
    {
      r := r[i := r[i].(count := section % TEN_BITS)];
    }
  }

  lemma {:induction false} BitsAscend(fields: seq<Field>, i: nat, j: nat)
    requires i < j <= |fields|
    ensures BitsBefore(fields, i) + fields[i].seg <= BitsBefore(fields, j)
  {
    if i + 1 < j {
      BitsAscend(fields, i, j - 1);
    }
  }

  /** The masks as computed lie inside their words and apart from each other. */
  lemma ComputedLayout(fields: seq<Field>)
    requires Configurable(fields)
    ensures Layout(Computed(fields), Words(fields))
  {
    forall i | 0 <= i < |fields| ensures Good(MaskAt(fields, i)) && MaskAt(fields, i).offset < Words(fields) {
      assert FieldOk(fields, i);
      BitsAscend(fields, i, |fields|);
    }
    forall i, j | 0 <= i < j < |fields| ensures Apart(MaskAt(fields, i), MaskAt(fields, j)) {
      assert FieldOk(fields, i);
      BitsAscend(fields, i, j);
    }
  }

  function Computed(fields: seq<Field>): seq<Mask> {
    seq(|fields|, i requires 0 <= i < |fields| => MaskAt(fields, i))
  }

  function StoredMasks(fields: seq<Field>): seq<Mask> {
    seq(|fields|, i requires 0 <= i < |fields| => Stored(MaskAt(fields, i), Words(fields)).mask)
  }

  /** No field crosses a word, so some field starts every word of a description. */
  lemma {:induction false} WordStart(fields: seq<Field>, n: nat, word: nat) returns (i: nat)
    requires n <= |fields| && (forall j :: 0 <= j < n ==> FieldOk(fields, j))
    requires 32 * word < BitsBefore(fields, n)
    ensures i < n && MaskAt(fields, i).offset == word && MaskAt(fields, i).shift == 0
  {
    if BitsBefore(fields, n - 1) > 32 * word {
      i := WordStart(fields, n - 1, word);
    } else {
      assert FieldOk(fields, n - 1);
      i := n - 1;
    }
  }

  // ---------- which configurations are good ----------

  /** The bits of some fields. */
  function SegSum(fields: seq<Field>): nat {
    if fields == [] then 0 else fields[0].seg + SegSum(fields[1..])
  }

  function Joined(words: seq<seq<Field>>): seq<Field> {
    if words == [] then [] else Joined(words[..|words| - 1]) + words[|words| - 1]
  }

  lemma BitsOfPrefix(a: seq<Field>, b: seq<Field>, i: nat)
    requires i <= |a|
    ensures BitsBefore(a + b, i) == BitsBefore(a, i)
  {
  }

  /** The bits of a front and of what follows it. */
  lemma {:induction false} BitsOfTail(fields: seq<Field>, i: nat, j: nat)
    requires i <= j <= |fields|
    ensures BitsBefore(fields, j) == BitsBefore(fields, i) + SegSum(fields[i..j])
    decreases j - i
  {
    if i < j {
      BitsOfTail(fields, i + 1, j);
      assert fields[i..j][1..] == fields[i + 1..j];
    }
  }

  predicate SegOk(fields: seq<Field>, i: nat)
    requires i < |fields|
  {
    0 < fields[i].seg <= 32 && BitsBefore(fields, i) % 32 + fields[i].seg <= 32
  }

  /** Words of exactly 32 bits, one behind the other. */
  ghost predicate FullWords(words: seq<seq<Field>>) {
    forall w :: 0 <= w < |words| ==> SegSum(words[w]) == 32 && forall j :: 0 <= j < |words[w]| ==> words[w][j].seg > 0
  }

  lemma PushWord(words: seq<seq<Field>>, last: seq<Field>)
    requires FullWords(words) && SegSum(last) == 32 && forall j :: 0 <= j < |last| ==> last[j].seg > 0
    ensures FullWords(words + [last]) && Joined(words + [last]) == Joined(words) + last
  {
    assert (words + [last])[..|words|] == words;
  }

  /** Cutting off the last word. */
  lemma CutWord(fields: seq<Field>, i: nat, n: nat)
    requires i <= |fields| && (forall j :: 0 <= j < |fields| ==> FieldOk(fields, j))
    requires BitsBefore(fields, |fields|) == 32 * n + 32 && BitsBefore(fields, i) == 32 * n
    ensures forall j :: 0 <= j < i ==> FieldOk(fields[..i], j)
    ensures BitsBefore(fields[..i], i) == 32 * n && SegSum(fields[i..]) == 32 && fields[..i] + fields[i..] == fields
    ensures forall j :: 0 <= j < |fields[i..]| ==> fields[i..][j].seg > 0
  {
    var front, last := fields[..i], fields[i..];
    assert front + last == fields;
    forall j | 0 <= j < i ensures FieldOk(front, j) {
      BitsOfPrefix(front, last, j);
      assert FieldOk(fields, j);
    }
    BitsOfPrefix(front, last, i);
    WholeTail(fields, i, last);
    forall j | 0 <= j < |last| ensures last[j].seg > 0 {
      assert FieldOk(fields, i + j);
    }
  }

  lemma SomeBits(fields: seq<Field>)
    requires fields != [] && FieldOk(fields, 0)
    ensures BitsBefore(fields, |fields|) > 0
  {
    BitsAscend(fields, 0, |fields|);
  }

  /** Fields that fill words without crossing them can be taken apart into these words. */
  lemma {:induction false} TakeWordsApart(fields: seq<Field>, n: nat) returns (words: seq<seq<Field>>)
    requires (forall i :: 0 <= i < |fields| ==> FieldOk(fields, i)) && BitsBefore(fields, |fields|) == 32 * n
    ensures |words| == n && Joined(words) == fields && FullWords(words)
    decreases n
  {
    hide FieldOk, SegSum;
    if n == 0 {
      if fields != [] {
        SomeBits(fields);
      }
      words := [];
    } else {
      var i := WordStart(fields, |fields|, n - 1);
      CutWord(fields, i, n - 1);
      var rest := TakeWordsApart(fields[..i], n - 1);
      PushWord(rest, fields[i..]);
      words := rest + [fields[i..]];
    }
  }

  /** And words put together never have a field across their ends. */
  lemma {:induction false} JoinedFits(words: seq<seq<Field>>)
    requires FullWords(words)
    ensures BitsBefore(Joined(words), |Joined(words)|) == 32 * |words|
    ensures forall i :: 0 <= i < |Joined(words)| ==> SegOk(Joined(words), i)
  {
    if words != [] {
      var n := |words| - 1;
      var front, last := Joined(words[..n]), words[n];
      var all := Joined(words);
      JoinedFits(words[..n]);
      assert SegSum(last) == 32;
      BitsOfPrefix(front, last, |front|);
      WholeTail(all, |front|, last);
      forall i | 0 <= i < |all| ensures SegOk(all, i) {
        if i < |front| {
          BitsOfPrefix(front, last, i);
          assert SegOk(front, i);
        } else {
          FitsLastWord(all, |front|, i, n);
        }
      }
    }
  }

  lemma WholeTail(all: seq<Field>, i: nat, last: seq<Field>)
    requires i <= |all| && all[i..] == last
    ensures BitsBefore(all, |all|) == BitsBefore(all, i) + SegSum(last)
  {
    BitsOfTail(all, i, |all|);
    assert all[i..|all|] == last;
  }

  lemma FitsLastWord(all: seq<Field>, start: nat, i: nat, n: nat)
    requires start <= i < |all| && BitsBefore(all, start) == 32 * n && BitsBefore(all, |all|) == 32 * n + 32 && all[i].seg > 0
    ensures SegOk(all, i)
  {
    BitsOfTail(all, start, i);
    BitsAscend(all, i, |all|);
    var r := BitsBefore(all, i) - 32 * n;
    DivisionOf(BitsBefore(all, i), 32, n, r);
  }

  /** A list of named fields, whatever their widths. */
  predicate WellNamed(fields: seq<Field>) {
    && (forall i :: 0 <= i < |fields| ==> 0 < |fields[i].name| <= 100)
    && forall i, j :: 0 <= j < i < |fields| ==> fields[j].name != fields[i].name
  }

  /** The good configurations are those put together from 1 to 2048 words of exactly 32 bits, with fields of
      at least one bit and distinct names of 1 to 100 characters. */
  lemma ConfigurableIff(fields: seq<Field>)
    ensures Configurable(fields) <==>
              && WellNamed(fields)
              && exists words :: 1 <= |words| <= 2048 && Joined(words) == fields && FullWords(words)
  {
    if Configurable(fields) {
      forall i | 0 <= i < |fields| ensures 0 < |fields[i].name| <= 100 && forall j :: 0 <= j < i ==> fields[j].name != fields[i].name {
        assert FieldOk(fields, i);
      }
      SomeBits(fields);
      var words := TakeWordsApart(fields, Words(fields));
    }
    if words :| WellNamed(fields) && 1 <= |words| <= 2048 && Joined(words) == fields && FullWords(words) {
      JoinedFits(words);
      forall i | 0 <= i < |fields| ensures FieldOk(fields, i) {
        assert SegOk(fields, i);
      }
    }
  }

  /** Accepted fields, as they are kept, lie inside their words and apart from each other exactly when a
      description has at most 1024 words; beyond, the ten bits of the offset lay the fields of word 1024
      over those of word 0. */
  lemma BuiltLayoutIff(fields: seq<Field>)
    requires Configurable(fields)
    ensures Layout(StoredMasks(fields), Words(fields)) <==> Words(fields) <= TEN_BITS
    ensures StoredMasks(fields) == Computed(fields) <==> Words(fields) <= TEN_BITS
  {
    ComputedLayout(fields);
    if Words(fields) <= TEN_BITS {
      forall i | 0 <= i < |fields| ensures StoredMasks(fields)[i] == Computed(fields)[i] {
        assert Computed(fields)[i].offset < Words(fields);
      }
      assert StoredMasks(fields) == Computed(fields);
    } else {
      var i := WordStart(fields, |fields|, TEN_BITS);
      assert FieldOk(fields, 0) && FieldOk(fields, i);
      assert StoredMasks(fields)[i].offset == 0 != Computed(fields)[i].offset;
      assert !Apart(StoredMasks(fields)[0], StoredMasks(fields)[i]);
    }
  }

  /** Where a field of the index-th description of a list is looked for. */
  function ListWord(item: Item, index: nat): nat {
    index * item.count + item.mask.offset
  }

  /** In lists of descriptions every field is looked for where it belongs exactly below 1024 words: with
      1024 the kept number of words is 0, and all descriptions share the first one's words. */
  lemma ListAccessIff(fields: seq<Field>)
    requires Configurable(fields)
    ensures (forall i, index: nat :: 0 <= i < |fields| ==>
              ListWord(Stored(MaskAt(fields, i), Words(fields)), index) == index * Words(fields) + MaskAt(fields, i).offset)
       <==> Words(fields) < TEN_BITS
  {
    if Words(fields) < TEN_BITS {
      ComputedLayout(fields);
      forall i, index: nat | 0 <= i < |fields|
        ensures ListWord(Stored(MaskAt(fields, i), Words(fields)), index) == index * Words(fields) + MaskAt(fields, i).offset
      {
        assert Computed(fields)[i].offset < Words(fields);
      }
    } else {
      assert MaskAt(fields, 0).offset == 0;
      assert ListWord(Stored(MaskAt(fields, 0), Words(fields)), 1) != 1 * Words(fields) + MaskAt(fields, 0).offset;
    }
  }

  /** A configuration the constructor accepts although two of its fields come to lie on each other. */
  const WIDE: seq<Field> :=
    seq(1025, i requires 0 <= i < 1025 => Field([(i / 64) as char, (i % 64) as char], 32))

  lemma {:induction false} WideBits(i: nat)
    requires i <= 1025
    ensures BitsBefore(WIDE, i) == 32 * i
  {
    if i > 0 {
      WideBits(i - 1);
    }
  }

  /** Of 1025 fields of 32 bits the last is kept on the word of the first: setting it sets the first. */
  lemma LastOfManyOverwritesFirst(w: nat, v: nat)
    requires w < WORD && v < WORD
    ensures Configurable(WIDE) && WIDE[0] != WIDE[1024]
    ensures var first, last := StoredMasks(WIDE)[0], StoredMasks(WIDE)[1024];
            first.offset == last.offset && Good(first) && Good(last) && Get(Set(w, last, v), first) == v
  {
    forall i | 0 <= i < 1025 ensures FieldOk(WIDE, i) {
      WideBits(i);
      forall j | 0 <= j < i ensures WIDE[j].name != WIDE[i].name {
        WideNames(j, i);
      }
    }
    WideBits(0);
    WideBits(1024);
    WideBits(1025);
    WideNames(0, 1024);
    var m := Mask(0, 32, 0);
    assert StoredMasks(WIDE)[0] == m == StoredMasks(WIDE)[1024];
    WholeWord(w, m);
    SetThenGet(w, m, v);
  }

  lemma WideNames(i: nat, j: nat)
    requires i < j < 1025
    ensures WIDE[i].name != WIDE[j].name
  {
    var a, b := WIDE[i].name, WIDE[j].name;
    assert i / 64 != j / 64 || i % 64 != j % 64;
    assert a[0] != b[0] || a[1] != b[1];
  }

  // ---------- many descriptions, any order ----------

  ghost predicate Descriptions(ds: seq<seq<nat>>, size: nat) {
    forall i :: 0 <= i < |ds| ==> |ds[i]| == size && AllWords(ds[i])
  }

  /** The sum of a field over descriptions. */
  function FieldSum(ds: seq<seq<nat>>, m: Mask): nat
    requires forall i :: 0 <= i < |ds| ==> m.offset < |ds[i]|
  {
    if ds == [] then 0 else FieldSum(ds[..|ds| - 1], m) + FieldAt(ds[|ds| - 1], m)
  }

  lemma TotalOfTotal(m: Mask, x: nat, y: nat)
    ensures Total(m, Total(m, x) + y) == Total(m, x + y)
  {
    if m.width >= 32 {
      var q, r := x / WORD, x % WORD;
      Multiples(r + y, q, WORD);
    }
  }

  lemma TotalOfOne(ws: seq<nat>, m: Mask)
    requires m.offset < |ws| && Good(m)
    ensures Total(m, FieldAt(ws, m)) == FieldAt(ws, m)
  {
    FieldFits(ws, m);
    if m.width == 32 {
      Pow2Word();
    }
  }

  /** Merging the descriptions of one term: the first is taken over, the others are merged into it. Every
      field ends as what is left of its sum over all of them. */
  method MergeTerms(ds: seq<seq<nat>>, masks: seq<Mask>) returns (term: array<nat>)
    requires ds != [] && Descriptions(ds, |ds[0]|) && Layout(masks, |ds[0]|)
    ensures term.Length == |ds[0]| && AllWords(term[..])
    ensures forall k :: 0 <= k < |masks| ==> FieldAt(term[..], masks[k]) == Total(masks[k], FieldSum(ds, masks[k]))
  {
    hide Get, Apart, Total, AllWords;
    term := new nat[|ds[0]|](i requires 0 <= i < |ds[0]| => ds[0][i]);
    assert term[..] == ds[0];
    FirstSums(ds, masks);
    for i := 1 to |ds|
      invariant AllWords(term[..])
      invariant forall k :: 0 <= k < |masks| ==> FieldAt(term[..], masks[k]) == Total(masks[k], FieldSum(ds[..i], masks[k]))
    {
      ghost var was := term[..];
      MergeTerm(term, ds[i], masks);
      forall k | 0 <= k < |masks|
        ensures FieldAt(term[..], masks[k]) == Total(masks[k], FieldSum(ds[..i + 1], masks[k]))
      {
        assert MergedAt(was, ds[i], term[..], masks[k]);
        assert ds[..i + 1][..i] == ds[..i];
        TotalOfTotal(masks[k], FieldSum(ds[..i], masks[k]), FieldAt(ds[i], masks[k]));
      }
    }
    assert ds[..|ds|] == ds;
  }

  lemma FirstSums(ds: seq<seq<nat>>, masks: seq<Mask>)
    requires ds != [] && Layout(masks, |ds[0]|)
    ensures forall k :: 0 <= k < |masks| ==> FieldAt(ds[0], masks[k]) == Total(masks[k], FieldSum(ds[..1], masks[k]))
  {
    forall k | 0 <= k < |masks| ensures FieldAt(ds[0], masks[k]) == Total(masks[k], FieldSum(ds[..1], masks[k])) {
      assert ds[..1][..0] == [] && FieldSum(ds[..1], masks[k]) == FieldAt(ds[0], masks[k]);
      TotalOfOne(ds[0], masks[k]);
    }
  }

  /** What is left is the saturated sum, but in a field of all 32 bits exactly when the sum stays in a
      word, or wraps around to the maximum by chance. */
  lemma TotalSaturatesIff(m: Mask, sum: nat)
    requires Good(m)
    ensures Total(m, sum) == Min(Max(m), sum) <==> m.width < 32 || sum < WORD || sum % WORD == WORD - 1
  {
    if m.width == 32 {
      Pow2Word();
    }
  }

  lemma WithoutLast(ds: seq<seq<nat>>, i: nat)
    requires i < |ds|
    ensures var n := |ds| - 1; var rest := ds[..i] + ds[i + 1..];
            if i == n then rest == ds[..n]
            else rest != [] && rest[|rest| - 1] == ds[n] && rest[..|rest| - 1] == ds[..n][..i] + ds[..n][i + 1..]
  {
  }

  lemma {:induction false} SumSplit(ds: seq<seq<nat>>, i: nat, m: Mask)
    requires i < |ds| && forall j :: 0 <= j < |ds| ==> m.offset < |ds[j]|
    ensures FieldSum(ds, m) == FieldAt(ds[i], m) + FieldSum(ds[..i] + ds[i + 1..], m)
  {
    hide FieldAt;
    var n := |ds| - 1;
    WithoutLast(ds, i);
    if i < n {
      SumSplit(ds[..n], i, m);
    }
  }

  lemma BagWithout(es: seq<seq<nat>>, i: nat)
    requires i < |es|
    ensures multiset(es[..i] + es[i + 1..]) == multiset(es) - multiset{es[i]}
  {
    assert es == es[..i] + [es[i]] + es[i + 1..];
  }

  /** Taking one element out of two permutations of each other. */
  lemma WithoutOne(ds: seq<seq<nat>>, es: seq<seq<nat>>) returns (i: nat)
    requires ds != [] && multiset(ds) == multiset(es)
    ensures i < |es| && es[i] == ds[|ds| - 1] && multiset(ds[..|ds| - 1]) == multiset(es[..i] + es[i + 1..])
  {
    var n := |ds| - 1;
    assert ds[n] in multiset(es);
    i :| 0 <= i < |es| && es[i] == ds[n];
    BagWithout(es, i);
    BagWithout(ds, n);
    assert ds[..n] + ds[n + 1..] == ds[..n];
  }

  /** The order in which descriptions are merged does not matter, nor does which one is taken over. */
  lemma {:induction false} MergeOrderIsIrrelevant(ds: seq<seq<nat>>, es: seq<seq<nat>>, m: Mask)
    requires multiset(ds) == multiset(es)
    requires forall j :: 0 <= j < |ds| ==> m.offset < |ds[j]|
    requires forall j :: 0 <= j < |es| ==> m.offset < |es[j]|
    ensures FieldSum(ds, m) == FieldSum(es, m)
    decreases |ds|
  {
    hide FieldAt;
    if ds == [] {
      assert |multiset(es)| == 0;
    } else {
      var i := WithoutOne(ds, es);
      MergeOrderIsIrrelevant(ds[..|ds| - 1], es[..i] + es[i + 1..], m);
      SumSplit(es, i, m);
    }
  }

  /** The failing increment: 1 and 0xFFFFFFFF in a field of all 32 bits give 0. */
  lemma FullFieldWraps()
    ensures Get(Inc(1, Mask(0, 32, 0), 0xFFFF_FFFF), Mask(0, 32, 0)) == 0
  {
    var m := Mask(0, 32, 0);
    WholeWord(1, m);
    WrapsAround(1, m, 0xFFFF_FFFF);
  }
}
