/** Small vocabulary shared by the other modules: optional values, bounded prefixes of a
    sequence, and the one algebraic law that makes independent truncations compose. */
module Prelude {

  newtype byte = b: int | 0 <= b < 256

  datatype Option<+T> = None | Some(value: T)

  function Min(a: nat, b: nat): nat {
    if a < b then a else b
  }

  /** The first n elements of s, or all of s when it is shorter. */
  function Take<T>(n: nat, s: seq<T>): seq<T> {
    if |s| <= n then s else s[..n]
  }

  /** Truncating the middle of a concatenation early does not change the first n elements. */
  lemma TakeAbsorbs<T>(n: nat, a: seq<T>, b: seq<T>, c: seq<T>)
    ensures Take(n, a + Take(n, b) + c) == Take(n, a + b + c)
  {
    if |b| > n {
      assert (a + b[..n] + c)[..n] == (a + b + c)[..n];
    }
  }

  /** Two tails that agree on their first n elements still agree behind a common front. */
  lemma TakeCongruence<T>(n: nat, a: seq<T>, b: seq<T>, c: seq<T>)
    requires Take(n, b) == Take(n, c)
    ensures Take(n, a + b) == Take(n, a + c)
  {
    assert a + b == a + b + [] && a + c == a + c + [];
    assert a + Take(n, b) == a + Take(n, b) + [];
    TakeAbsorbs(n, a, b, []);
    TakeAbsorbs(n, a, c, []);
  }

  // ---------- arithmetic ----------

  lemma MulMono(a: int, b: int, d: int)
    requires a <= b && 0 <= d
    ensures a * d <= b * d
  {
  }

  lemma SmallMultiple(k: int, d: int)
    requires d > 0 && -d < k * d < d
    ensures k == 0
  {
    if k >= 1 {
      MulMono(1, k, d);
    } else if k <= -1 {
      MulMono(k, -1, d);
    }
  }

  /** Quotient and remainder are unique. */
  lemma DivisionOf(x: nat, d: nat, q: int, r: nat)
    requires d > 0 && r < d && x == q * d + r
    ensures x / d == q && x % d == r
  {
    var k := x / d - q;
    assert k * d == (x / d) * d - q * d;
    SmallMultiple(k, d);
  }

  /** n whole cells fit into `length` bytes exactly when n is at most the quotient. */
  lemma CellArithmetic(cell: nat, length: nat, n: nat)
    requires cell > 0
    ensures n <= length / cell <==> n * cell <= length
    ensures n * cell <= length ==> (length - n * cell) / cell == length / cell - n
  {
    var q, r := length / cell, length % cell;
    if n <= q {
      MulMono(n, q, cell);
      assert (q - n) * cell == q * cell - n * cell;
      DivisionOf(length - n * cell, cell, q - n, r);
    } else {
      MulMono(q + 1, n, cell);
    }
  }

  /** Whole cells add up, in length and in number. */
  lemma AddWhole(a: nat, b: nat, cell: nat)
    requires cell > 0 && a % cell == 0
    ensures (a + b) / cell == a / cell + b / cell && (a + b) % cell == b % cell
  {
    assert a + b == (a / cell + b / cell) * cell + b % cell;
    DivisionOf(a + b, cell, a / cell + b / cell, b % cell);
  }
}
