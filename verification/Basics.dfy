/** Small vocabulary shared by the other modules. */
module Basics {
  datatype Option<+T> = None | Some(value: T)

  function Or(x: Option<real>, otherwise: real): real { if x.Some? then x.value else otherwise }

  function Min(a: int, b: int): int { if a <= b then a else b }

  function Max(a: int, b: int): int { if a >= b then a else b }

  function MinR(a: real, b: real): real { if a <= b then a else b }

  function MaxR(a: real, b: real): real { if a >= b then a else b }

  /** `Math.max(min, Math.min(max, value))` over the reals. */
  function Clamp(value: real, min: real, max: real): real {
    var capped := if value <= max then value else max;
    if min >= capped then min else capped
  }

  function Pow(base: real, n: nat): real {
    if n == 0 then 1.0 else base * Pow(base, n - 1)
  }

  /** `a` can be obtained from `b` by deleting elements. */
  predicate IsSubsequence<T(==)>(a: seq<T>, b: seq<T>) {
    if a == [] then true
    else b != [] && ((a[0] == b[0] && IsSubsequence(a[1..], b[1..])) || IsSubsequence(a, b[1..]))
  }

  lemma {:induction false} SubsequenceExtends<T>(a: seq<T>, b: seq<T>, c: seq<T>)
    requires IsSubsequence(a, b)
    ensures IsSubsequence(a, b + c)
    decreases |b|
  {
    if a != [] {
      assert (b + c)[1..] == b[1..] + c;
      if a[0] == b[0] && IsSubsequence(a[1..], b[1..]) {
        SubsequenceExtends(a[1..], b[1..], c);
      } else {
        SubsequenceExtends(a, b[1..], c);
      }
    }
  }

  lemma Assoc<T>(x: seq<T>, y: seq<T>, z: seq<T>)
    ensures (x + y) + z == x + (y + z)
  {
  }

  // Facts about products of reals, stated so that proofs need not rediscover them.

  lemma MulOrder(a: real, b: real, d: real)
    requires d > 0.0
    ensures a < b ==> a * d < b * d
  {
    if a < b {
      var gap := b - a;
      assert gap * d > 0.0;
      assert b * d == a * d + gap * d;
    }
  }

  lemma RatioOrder(x: real, d: real, q: real)
    requires d > 0.0
    ensures x >= q * d ==> x / d >= q
    ensures x <= q * d ==> x / d <= q
  {
    var r := x / d;
    assert r * d == x;
    MulOrder(r, q, d);
    MulOrder(q, r, d);
  }

  /** A named product: proofs about it go by the lemmas here rather than by multiplying out. */
  function Times(x: real, k: real): real { x * k }

  lemma TimesSplit(x: real, k: real, l: real)
    ensures Times(x, k + l) == Times(x, k) + Times(x, l)
  {
  }

  lemma TimesNegate(x: real, k: real)
    ensures Times(-x, k) == -Times(x, k)
  {
  }

  lemma TimesNonNegative(x: real, k: real)
    requires x >= 0.0 && k >= 0.0
    ensures Times(x, k) >= 0.0
  {
  }

  lemma TimesShrinks(x: real, k: real)
    requires 0.0 <= k <= 1.0
    ensures 0.0 <= x ==> 0.0 <= Times(x, k) <= x
    ensures x <= 0.0 ==> x <= Times(x, k) <= 0.0
  {
    TimesSplit(x, k, 1.0 - k);
    assert Times(x, 1.0) == x;
    if 0.0 <= x {
      TimesNonNegative(x, k);
      TimesNonNegative(x, 1.0 - k);
    } else {
      TimesNonNegative(-x, k);
      TimesNonNegative(-x, 1.0 - k);
      TimesNegate(x, k);
      TimesNegate(x, 1.0 - k);
    }
  }

  lemma TimesOne(x: real, k: real)
    requires k == 1.0
    ensures Times(x, k) == x
  {
  }

  lemma TimesChain(x: real, y: real, z: real, k: real, l: real, kl: real)
    requires y == Times(x, k) && z == Times(y, l) && kl == k * l
    ensures z == Times(x, kl)
  {
    assert x * k * l == x * (k * l);
  }
}
