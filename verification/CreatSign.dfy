/** `creat_sign`: the two 31-bit hashes whose concatenation is a term's signature. */
module CreatSign {
  import opened Prelude

  const KEY_LIMIT: nat := 0x8000_0000_0000_0000

  const TWO31: nat := 0x8000_0000
  const TWO32: nat := 0x1_0000_0000

  /** One step of the first hash, in 32-bit arithmetic. */
  function BkdrStep(hash: nat, c: bv8): nat {
    (hash * 131313 + c as nat) % TWO32
  }

  /** One step of the second hash; even and odd positions mix differently. */
  function ApStep(hash: bv32, c: bv8, even: bool): bv32 {
    if even then hash ^ ((hash << 7) ^ c as bv32 ^ (hash >> 3))
    else hash ^ !((hash << 11) ^ c as bv32 ^ (hash >> 5))
  }

  function Bkdr(s: seq<bv8>): nat {
    if s == [] then 0 else BkdrStep(Bkdr(s[..|s| - 1]), s[|s| - 1])
  }

  function Ap(s: seq<bv8>): bv32 {
    if s == [] then 0 else ApStep(Ap(s[..|s| - 1]), s[|s| - 1], |s| % 2 == 1)
  }

  /** The mask keeps the low 31 bits. */
  method BKDRHash(s: seq<bv8>) returns (h: nat)
    ensures h == Bkdr(s) % TWO31
  {
    hide BkdrStep;
    var hash: nat := 0;
    for i := 0 to |s|
      invariant hash == Bkdr(s[..i])
    {
      assert s[..i + 1][..i] == s[..i];
      hash := BkdrStep(hash, s[i]);
    }
    assert s[..|s|] == s;
    h := hash % TWO31;
  }

  method APHash(s: seq<bv8>) returns (h: bv31)
    ensures h == Low31(Ap(s))
  {
    hide ApStep, Low31;
    var hash: bv32 := 0;
    for i := 0 to |s|
      invariant hash == Ap(s[..i])
    {
      assert s[..i + 1][..i] == s[..i];
      hash := ApStep(hash, s[i], i % 2 == 0);
    }
    assert s[..|s|] == s;
    h := Low31(hash);
  }

  function Low31(h: bv32): bv31 {
    (h & 0x7FFF_FFFF) as bv31
  }

  /** The 64-bit signature: the first hash in the low word, the second in the high word. Both masks
      clear a top bit, so a signature is below 2^63. */
  function Sign64(s: seq<bv8>): (key: nat)
    ensures key < KEY_LIMIT
  {
    Bkdr(s) % TWO31 + Low31(Ap(s)) as nat * TWO32
  }

  method CreatSign64(s: seq<bv8>) returns (key: nat)
    ensures key == Sign64(s)
  {
    hide Bkdr, Ap, Low31;
    var low := BKDRHash(s);
    var high := APHash(s);
    key := low + high as nat * TWO32;
  }

  // ---------- what the hashes compute ----------

  function Power(b: nat, n: nat): nat {
    if n == 0 then 1 else b * Power(b, n - 1)
  }

  /** The bytes as digits of a number to the base 131313, the first one leading. */
  function Digits(s: seq<bv8>): nat {
    if s == [] then 0 else s[0] as nat * Power(131313, |s| - 1) + Digits(s[1..])
  }

  lemma {:induction false} DigitsPush(s: seq<bv8>, c: bv8)
    ensures Digits(s + [c]) == Digits(s) * 131313 + c as nat
  {
    if s == [] {
      assert [c][1..] == [] && Power(131313, 0) == 1;
      assert [] + [c] == [c];
    } else {
      DigitsPush(s[1..], c);
      assert (s + [c])[1..] == s[1..] + [c];
      Shifted(s[0] as nat, Power(131313, |s| - 1), Digits(s[1..]));
    }
  }

  lemma Shifted(x: nat, p: nat, rest: nat)
    ensures (x * p + rest) * 131313 == x * (131313 * p) + rest * 131313
  {
  }

  lemma StepModulo(x: nat, c: nat)
    ensures (x % TWO32 * 131313 + c) % TWO32 == (x * 131313 + c) % TWO32
  {
    var q, r := x / TWO32, x % TWO32;
    var y := r * 131313 + c;
    assert x * 131313 + c == (q * 131313 + y / TWO32) * TWO32 + y % TWO32;
    DivisionOf(x * 131313 + c, TWO32, q * 131313 + y / TWO32, y % TWO32);
  }

  /** The first hash is that number modulo 2^32. */
  lemma {:induction false} BkdrIsDigits(s: seq<bv8>)
    ensures Bkdr(s) == Digits(s) % TWO32
  {
    if s != [] {
      var front, c := s[..|s| - 1], s[|s| - 1];
      BkdrIsDigits(front);
      DigitsPush(front, c);
      StepModulo(Digits(front), c as nat);
      assert front + [c] == s;
    }
  }

  /** The low word of a signature is the number modulo 2^31, the high word the second hash. */
  lemma SignHalves(s: seq<bv8>)
    ensures Sign64(s) % TWO32 == Digits(s) % TWO31 && Sign64(s) / TWO32 == Low31(Ap(s)) as nat
  {
    hide Bkdr, Digits, Ap, Low31;
    BkdrIsDigits(s);
    HalfModulo(Digits(s));
    DivisionOf(Sign64(s), TWO32, Low31(Ap(s)) as nat, Bkdr(s) % TWO31);
  }

  lemma HalfModulo(x: nat)
    ensures x % TWO32 % TWO31 == x % TWO31
  {
    var y := x % TWO32;
    DivisionOf(x, TWO31, 2 * (x / TWO32) + y / TWO31, y % TWO31);
  }

  /** Two strings that differ in their last byte only never have the same signature, nor the same first
      hash. */
  lemma LastByteTells(s: seq<bv8>, c: bv8, d: bv8)
    requires c != d
    ensures Low32(Sign64(s + [c])) != Low32(Sign64(s + [d])) && Sign64(s + [c]) != Sign64(s + [d])
  {
    hide *;
    LowOfPush(s, c);
    LowOfPush(s, d);
    BytesApart(c, d);
    ByteModulo(Digits(s) * 131313, c as nat, d as nat);
  }

  lemma BytesApart(c: bv8, d: bv8)
    ensures c != d ==> c as nat != d as nat
  {
  }

  function Low32(key: nat): (r: nat)
    ensures r < TWO32
  {
    key % TWO32
  }

  lemma LowOfPush(s: seq<bv8>, c: bv8)
    ensures Low32(Sign64(s + [c])) == (Digits(s) * 131313 + c as nat) % TWO31
  {
    hide Sign64, Digits, Low31, Ap;
    SignHalves(s + [c]);
    DigitsPush(s, c);
  }

  lemma ByteModulo(x: nat, c: nat, d: nat)
    requires c < 256 && d < 256 && c != d
    ensures (x + c) % TWO31 != (x + d) % TWO31
  {
    var a, b := (x + c) % TWO31, (x + d) % TWO31;
    if a == b {
      assert ((x + c) / TWO31 - (x + d) / TWO31) * TWO31 == c - d;
      SmallMultiple((x + c) / TWO31 - (x + d) / TWO31, TWO31);
    }
  }

  /** The signature of the bytes 1, 2, 3. */
  lemma KnownSignature()
    ensures Bkdr([1, 2, 3]) == 63497414 && Ap([1, 2, 3]) == 0x1ffbf700 && Sign64([1, 2, 3]) == 0x1ffbf70003c8e4c6
  {
    assert [1, 2, 3][..2] == [1, 2] && [1, 2][..1] == [1] && [1][..0] == [];
    assert Bkdr([1]) == 1 && Bkdr([1, 2]) == 131315;
    assert Ap([1]) == 1;
    assert Ap([1, 2]) == 0xFFFF_F7FC;
  }

  // ---------- the comparator of the disk index ----------

  const TWO64: nat := 0x1_0000_0000_0000_0000

  /** The difference of two 64-bit keys, read as a signed number, decides. */
  function Compare(a: nat, b: nat): int
    requires a < TWO64 && b < TWO64
  {
    var d := (a - b) % TWO64;
    var signed := if d >= KEY_LIMIT then d - TWO64 else d;
    if signed < 0 then -1 else if signed > 0 then 1 else 0
  }

  function Order(a: nat, b: nat): int {
    if a < b then -1 else if a > b then 1 else 0
  }

  /** The subtracting comparator orders two keys correctly exactly when they are less than 2^63
      apart. Signatures always are. */
  lemma ComparesRightIff(a: nat, b: nat)
    requires a < TWO64 && b < TWO64
    ensures Compare(a, b) == Order(a, b) <==> a < b + KEY_LIMIT && b <= a + KEY_LIMIT
    ensures a < KEY_LIMIT && b < KEY_LIMIT ==> Compare(a, b) == Order(a, b)
  {
    if a >= b {
      DivisionOf(a - b, TWO64, 0, a - b);
    } else {
      assert (a - b) % TWO64 == a - b + TWO64;
    }
  }
}
