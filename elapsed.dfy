/**
 * A span of whole seconds described in the largest unit that keeps the number of units small:
 * seconds below a minute, minutes below an hour, hours below a day, and days beyond. Both the
 * popup's age label and the device list's last-ping label are built on this.
 */
module Elapsed {

  datatype Unit = Seconds | Minutes | Hours | Days

  /** A whole number of units. */
  datatype Elapsed = Elapsed(amount: int, unit: Unit)

  /** How many seconds one unit lasts. */
  function UnitSeconds(u: Unit): (n: int)
    ensures n > 0
  {
    match u
    case Seconds => 1
    case Minutes => 60
    case Hours => 3600
    case Days => 86400
  }

  /** Units ordered from shortest to longest. */
  function Rank(u: Unit): (k: nat)
    ensures k < 4
  {
    match u
    case Seconds => 0
    case Minutes => 1
    case Hours => 2
    case Days => 3
  }

  /**
   * The reference description of `sec` seconds: chosen by the span itself, with the amount
   * a single floor division of the span by the unit's length.
   */
  function Bucket(sec: int): Elapsed {
    if sec < 60 then Elapsed(sec, Seconds)
    else if sec < 3600 then Elapsed(sec / 60, Minutes)
    else if sec < 86400 then Elapsed(sec / 3600, Hours)
    else Elapsed(sec / 86400, Days)
  }

  /** Floor division by `a` and then by `b` is floor division by `a * b`. */
  lemma NestedFloor(x: int, a: int, b: int)
    requires a > 0 && b > 0
    ensures (x / a) / b == x / (a * b)
  {
    var q, r := x / a, x % a;
    var q2, r2 := q / b, q % b;
    var ab := a * b;
    assert x == a * q + r;
    assert q == b * q2 + r2;
    MulDistributes(a, b * q2, r2);
    MulAssociates(a, b, q2);
    assert x == ab * q2 + (a * r2 + r);
    MulBelow(a, r2, b);
    DivisionUnique(x, ab, q2, a * r2 + r);
  }

  lemma MulDistributes(a: int, b: int, c: int)
    ensures a * (b + c) == a * b + a * c
  {
  }

  lemma MulAssociates(a: int, b: int, c: int)
    ensures a * (b * c) == (a * b) * c
  {
  }

  /** `a * r` leaves room for one more `a` below `a * b` when `r < b`. */
  lemma MulBelow(a: int, r: int, b: int)
    requires a > 0 && 0 <= r < b
    ensures 0 <= a * r <= a * b - a
  {
    MulDistributes(a, b - 1, 1);
    MulMonotone(a, r, b - 1);
  }

  lemma MulMonotone(a: int, r: int, s: int)
    requires a >= 0 && 0 <= r <= s
    ensures 0 <= a * r <= a * s
  {
    MulDistributes(a, r, s - r);
    MulNonNegative(a, s - r);
    MulNonNegative(a, r);
  }

  lemma MulNonNegative(a: int, b: int)
    requires a >= 0 && b >= 0
    ensures a * b >= 0
  {
  }

  /** The quotient and remainder of a division are the only ones of their kind. */
  lemma DivisionUnique(x: int, d: int, q: int, r: int)
    requires d > 0 && 0 <= r < d && x == d * q + r
    ensures x / d == q
  {
    var q', r' := x / d, x % d;
    assert x == d * q' + r';
    if q' > q {
      MulDistributes(d, q, q' - q);
      MulMonotone(d, 1, q' - q);
    } else if q' < q {
      MulDistributes(d, q', q - q');
      MulMonotone(d, 1, q - q');
    }
  }

  /**
   * Minutes, hours and days counted by successive floor divisions, as the labels compute
   * them, are the direct floor divisions of the seconds.
   */
  lemma SuccessiveFloors(sec: int)
    ensures sec / 60 / 60 == sec / 3600
    ensures sec / 60 / 60 / 24 == sec / 86400
  {
    NestedFloor(sec, 60, 60);
    NestedFloor(sec, 3600, 24);
  }

  /** The successive floor divisions pick the same unit and amount as the reference. */
  lemma SuccessiveFloorsBucket(sec: int)
    ensures Bucket(sec) ==
      (if sec < 60 then Elapsed(sec, Seconds)
       else if sec / 60 < 60 then Elapsed(sec / 60, Minutes)
       else if sec / 60 / 60 < 24 then Elapsed(sec / 60 / 60, Hours)
       else Elapsed(sec / 60 / 60 / 24, Days))
  {
    SuccessiveFloors(sec);
  }

  /**
   * The description is exact up to the unit: the amount counts the whole units in the span,
   * so it is the span divided by the unit's length, rounded down.
   */
  lemma BucketAmount(sec: int)
    ensures Bucket(sec).amount == sec / UnitSeconds(Bucket(sec).unit)
    ensures Bucket(sec).amount * UnitSeconds(Bucket(sec).unit) <= sec
    ensures sec < (Bucket(sec).amount + 1) * UnitSeconds(Bucket(sec).unit)
  {
    var e := Bucket(sec);
    var n := UnitSeconds(e.unit);
    assert sec == n * (sec / n) + sec % n;
  }

  /**
   * The unit is the largest one in which the span is at least one unit long; past the
   * seconds, the amount stays below the number of such units in the next larger unit.
   */
  lemma BucketUnitChoice(sec: int)
    ensures Bucket(sec).unit == Seconds <==> sec < 60
    ensures Bucket(sec).unit == Minutes <==> 60 <= sec < 3600
    ensures Bucket(sec).unit == Hours <==> 3600 <= sec < 86400
    ensures Bucket(sec).unit == Days <==> 86400 <= sec
    ensures Bucket(sec).unit == Minutes ==> 1 <= Bucket(sec).amount < 60
    ensures Bucket(sec).unit == Hours ==> 1 <= Bucket(sec).amount < 24
    ensures Bucket(sec).unit == Days ==> 1 <= Bucket(sec).amount
  {
  }

  /** A longer span is never described in a shorter unit, nor by fewer units of the same one. */
  lemma {:induction false} BucketMonotone(s: int, t: int)
    requires s <= t
    ensures Rank(Bucket(s).unit) <= Rank(Bucket(t).unit)
    ensures Bucket(s).unit == Bucket(t).unit ==> Bucket(s).amount <= Bucket(t).amount
  {
    var n := UnitSeconds(Bucket(s).unit);
    DivisionMonotone(s, t, n);
  }

  lemma DivisionMonotone(s: int, t: int, d: int)
    requires s <= t && d > 0
    ensures s / d <= t / d
  {
    var qs, qt := s / d, t / d;
    assert s == d * qs + s % d && t == d * qt + t % d;
    if qs > qt {
      MulDistributes(d, qt, qs - qt);
      MulMonotone(d, 1, qs - qt);
    }
  }
}
