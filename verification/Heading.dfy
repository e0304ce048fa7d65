/** Heading arithmetic on the circle (client/gps.js, `normalizeHeading` and `lerpHeading`), in degrees. */
module Heading {
  import opened Basics

  /** JavaScript's `x % 360`, which keeps the sign of `x`. */
  function Rem360(x: real): real {
    if x >= 0.0 then x - 360.0 * (x / 360.0).Floor as real
    else x + 360.0 * (-x / 360.0).Floor as real
  }

  function NormalizeHeading(deg: Option<real>): Option<real> {
    if deg.None? then None else Some(Normalized(deg.value))
  }

  function Normalized(deg: real): real { Rem360(Rem360(deg) + 360.0) }

  /** `lerpHeading`, where a missing value stands for one that is not finite. */
  function LerpHeading(a: Option<real>, b: Option<real>, alpha: real): Option<real> {
    if a.None? || b.None? then (if b.Some? then b else a)
    else
      var delta := Rem360(b.value - a.value + 540.0) - 180.0;
      Some(Normalized(a.value + Times(delta, alpha)))
  }

  /** The point of the circle at `x` degrees, in [0, 360). */
  function Circle(x: real): real { x - 360.0 * (x / 360.0).Floor as real }

  /** The signed shortest turn from `x` to `y`, in [-180, 180). */
  function Turn(x: real, y: real): real { Circle(y - x + 180.0) - 180.0 }

  predicate IsHeading(h: Option<real>) { h.Some? ==> 0.0 <= h.value < 360.0 }

  lemma CircleUnique(x: real, y: real, k: int)
    requires 0.0 <= y < 360.0 && x == y + 360.0 * k as real
    ensures Circle(x) == y
  {
    assert x / 360.0 == y / 360.0 + k as real;
    assert (x / 360.0).Floor == k;
  }

  lemma CircleWraps(x: real, k: int)
    ensures Circle(x + 360.0 * k as real) == Circle(x)
    ensures 0.0 <= Circle(x) < 360.0
  {
    var n := (x / 360.0).Floor;
    assert 0.0 <= Circle(x) < 360.0;
    assert x + 360.0 * k as real == Circle(x) + 360.0 * (n + k) as real;
    CircleUnique(x + 360.0 * k as real, Circle(x), n + k);
  }

  /** The turn is what its name says: it leads from `x` to `y`, and no other turn in [-180, 180) does. */
  lemma TurnIsShortest(x: real, y: real, d: real, k: int)
    ensures -180.0 <= Turn(x, y) < 180.0 && Circle(x + Turn(x, y)) == Circle(y)
    ensures -180.0 <= d < 180.0 && x + d == y + 360.0 * k as real ==> d == Turn(x, y)
  {
    var n := ((y - x + 180.0) / 360.0).Floor;
    CircleWraps(y - x + 180.0, 0);
    assert x + Turn(x, y) == y + 360.0 * (-n) as real;
    CircleWraps(y, -n);
    if -180.0 <= d < 180.0 && x + d == y + 360.0 * k as real {
      CircleUnique(y - x + 180.0, d + 180.0, -k);
    }
  }

  /** Normalizing maps every angle to its point in [0, 360) and leaves those points alone. */
  lemma NormalizedIsCircle(x: real)
    ensures Normalized(x) == Circle(x) && 0.0 <= Normalized(x) < 360.0
    ensures 0.0 <= x < 360.0 ==> Normalized(x) == x
  {
    var r := Rem360(x);
    if x >= 0.0 {
      var n := (x / 360.0).Floor;
      CircleUnique(r + 360.0, r, 1);
      CircleUnique(x, r, n);
    } else {
      var n := (-x / 360.0).Floor;
      assert -360.0 < r <= 0.0;
      if r == 0.0 {
        CircleUnique(r + 360.0, 0.0, 1);
        CircleUnique(x, 0.0, -n);
      } else {
        CircleUnique(r + 360.0, r + 360.0, 0);
        CircleUnique(x, r + 360.0, -n - 1);
      }
    }
    if 0.0 <= x < 360.0 {
      CircleUnique(x, x, 0);
    }
  }

  /** The expression the code computes for two normalized headings is the signed shortest turn. */
  lemma DeltaIsTurn(a: real, b: real)
    requires 0.0 <= a < 360.0 && 0.0 <= b < 360.0
    ensures Rem360(b - a + 540.0) - 180.0 == Turn(a, b)
  {
    var x := b - a + 180.0;
    CircleWraps(x, 1);
    assert b - a + 540.0 == x + 360.0 * 1 as real;
  }

  /** Going `e` of a turn `e + f` lands where `f` of it is left. */
  lemma PartOfTurn(a: real, b: real, e: real, f: real)
    requires e + f == Turn(a, b) && -180.0 <= e < 180.0 && -180.0 <= f < 180.0
    ensures Turn(a, Circle(a + e)) == e && Turn(Circle(a + e), b) == f
  {
    var n := ((a + e) / 360.0).Floor;
    var m := ((b - a + 180.0) / 360.0).Floor;
    var r := Circle(a + e);
    TurnIsShortest(a, r, e, n);
    assert r + f == b + 360.0 * (-m - n) as real;
    TurnIsShortest(r, b, f, -m - n);
  }

  /** The blended heading is a heading, lies `alpha` of the shortest turn away from `a`, and is left
      with exactly `1 - alpha` of it: no overshoot, never the long way round. */
  lemma Contraction(a: real, b: real, alpha: real)
    requires 0.0 <= a < 360.0 && 0.0 <= b < 360.0 && 0.0 <= alpha <= 1.0
    ensures var r := LerpHeading(Some(a), Some(b), alpha);
      && r.Some? && IsHeading(r)
      && Turn(a, r.value) == Times(Turn(a, b), alpha)
      && Turn(r.value, b) == Times(Turn(a, b), 1.0 - alpha)
  {
    LerpIsPartOfTurn(a, b, alpha);
    TurnIsShortest(a, b, 0.0, 0);
    var e, f := Shares(Turn(a, b), alpha);
    PartOfTurn(a, b, e, f);
  }

  lemma LerpIsPartOfTurn(a: real, b: real, alpha: real)
    requires 0.0 <= a < 360.0 && 0.0 <= b < 360.0
    ensures var r := LerpHeading(Some(a), Some(b), alpha);
      r == Some(Circle(a + Times(Turn(a, b), alpha))) && IsHeading(r)
  {
    DeltaIsTurn(a, b);
    NormalizedIsCircle(a + Times(Turn(a, b), alpha));
  }

  lemma Shares(d: real, k: real) returns (e: real, f: real)
    requires -180.0 <= d < 180.0 && 0.0 <= k <= 1.0
    ensures e == Times(d, k) && f == Times(d, 1.0 - k) && e + f == d
    ensures -180.0 <= e < 180.0 && -180.0 <= f < 180.0
  {
    TimesSplit(d, k, 1.0 - k);
    assert Times(d, 1.0) == d;
    TimesShrinks(d, k);
    TimesShrinks(d, 1.0 - k);
    e, f := Times(d, k), Times(d, 1.0 - k);
  }
}
