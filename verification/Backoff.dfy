/**
 Exponential retry delays with jitter, on 64-bit durations.
 */
module Retry {
  const MAX_INT64: int := 0x7fff_ffff_ffff_ffff

  newtype int64 = x: int | -MAX_INT64 - 1 <= x <= MAX_INT64

  /** The value that 64-bit arithmetic leaves of an exact result. */
  function Wrap(x: int): (r: int64)
    ensures -MAX_INT64 - 1 <= x <= MAX_INT64 ==> r as int == x
  {
    var modulus := 2 * (MAX_INT64 + 1);
    ((x + MAX_INT64 + 1) % modulus - MAX_INT64 - 1) as int64
  }

  /** Go's integer division, which truncates toward zero. */
  function Quotient(a: int, b: int): int
    requires b > 0
  {
    if a >= 0 then a / b else -((-a) / b)
  }

  /** The base of the call after one with this base. */
  function Successor(base: int, max: int): int {
    if base >= Quotient(max, 2) then max else base * 2
  }

  /** The base of call `n` after a reset, as the calls compute it. */
  function BaseOf(initial: int, max: int, n: nat): int {
    if n == 0 then initial else Successor(BaseOf(initial, max, n - 1), max)
  }

  function PowerOfTwo(n: nat): nat {
    if n == 0 then 1 else 2 * PowerOfTwo(n - 1)
  }

  /** The initial delay after `n` doublings. */
  function Doubled(initial: int, n: nat): int { initial * PowerOfTwo(n) }

  lemma DoublesAgain(initial: int, n: nat)
    ensures Doubled(initial, 0) == initial && Doubled(initial, n + 1) == 2 * Doubled(initial, n)
  {
  }

  lemma {:induction false} DoubledIsPositive(initial: int, n: nat)
    requires initial > 0
    ensures Doubled(initial, n) > 0
  {
    hide Doubled;
    DoublesAgain(initial, if n == 0 then 0 else n - 1);
    if n > 0 {
      DoubledIsPositive(initial, n - 1);
    }
  }

  /**
   The closed form: doubling until the doubled value reaches twice the half of
   the maximum, and the maximum from then on.
   */
  lemma {:induction false} BaseClosedForm(initial: int, max: int, n: nat)
    requires 0 < initial <= max
    ensures BaseOf(initial, max, n)
            == if n > 0 && Doubled(initial, n) >= 2 * (max / 2) then max else Doubled(initial, n)
    ensures 0 < BaseOf(initial, max, n) <= max
  {
    hide Doubled;
    if n == 0 {
      DoublesAgain(initial, 0);
    } else {
      BaseClosedForm(initial, max, n - 1);
      DoublesAgain(initial, n - 1);
      DoubledIsPositive(initial, n - 1);
    }
  }

  /** For an odd maximum the base can reach it one doubling early: it is not the minimum of the two. */
  lemma NotTheMinimum()
    ensures BaseOf(2, 5, 1) == 5 && Doubled(2, 1) == 4
  {
    assert PowerOfTwo(1) == 2 * PowerOfTwo(0);
    assert BaseOf(2, 5, 1) == Successor(BaseOf(2, 5, 0), 5);
  }

  /** The base is the capped doubling exactly when the doubled value is not one below an odd maximum. */
  lemma BaseIsMinimum(initial: int, max: int, n: nat)
    requires 0 < initial <= max && n > 0
    ensures BaseOf(initial, max, n) == (if Doubled(initial, n) < max then Doubled(initial, n) else max)
            <==> !(Doubled(initial, n) == max - 1 && max % 2 == 1)
  {
    BaseClosedForm(initial, max, n);
  }

  /** How far the jitter may move a delay; the rounding of the float product is left out. */
  function JitterRange(base: int): int { Quotient(base, 5) }

  /** The delay before the cap: exact, or out of the range of 64 bits. */
  ghost predicate DelayFits(base: int, jitter: int) {
    -MAX_INT64 - 1 <= base + jitter <= MAX_INT64
  }

  /**
   The jittered delay fits 64 bits for every base a call can have and every
   draw if and only if six fifths of the maximum fit.
   */
  lemma DelayFitsExactly(max: int)
    requires 0 < max <= MAX_INT64
    ensures (forall base, jitter :: 0 < base <= max && -JitterRange(base) <= jitter <= JitterRange(base) ==>
               DelayFits(base, jitter))
            <==> 6 * max / 5 <= MAX_INT64
  {
    assert max + JitterRange(max) == 6 * max / 5;
    if 6 * max / 5 > MAX_INT64 {
      assert !DelayFits(max, JitterRange(max));
    }
    forall base, jitter |
      0 < base <= max && -JitterRange(base) <= jitter <= JitterRange(base) && 6 * max / 5 <= MAX_INT64
      ensures DelayFits(base, jitter)
    {
      JitterIsMonotone(base, max);
    }
  }

  lemma JitterIsMonotone(a: int, b: int)
    requires 0 < a <= b
    ensures 0 <= JitterRange(a) <= JitterRange(b) && 5 * JitterRange(a) <= a
  {
  }

  /** rand.Int64N: any value below the bound. */
  method RandomBelow(bound: int64) returns (draw: int64)
    requires bound > 0
    ensures 0 <= draw < bound
  {
    draw :| 0 <= draw < bound;
  }

  /** Moves a base by up to a fifth of it, and caps the result. */
  method Jittered(base: int64, max: int64) returns (delay: int64)
    ensures 0 < base <= max ==>
              && delay <= max
              && (6 * max as int / 5 <= MAX_INT64 ==> 4 * base as int <= 5 * delay as int <= 6 * base as int)
              && (JitterRange(base as int) == 0 ==> delay == base)
  {
    var range := JitterRange(base as int);
    if range <= 0 {
      return base;
    }
    JitterIsMonotone(base as int, base as int);
    var draw := RandomBelow(Wrap(2 * range + 1));
    var jitter := draw as int - range;
    if base <= max && 6 * max as int / 5 <= MAX_INT64 {
      DelayFitsExactly(max as int);
      assert DelayFits(base as int, jitter);
    }
    delay := Wrap(base as int + jitter);
    if delay > max {
      return max;
    }
  }

  class Backoff {
    const initial: int64
    const max: int64
    var current: int64
    ghost var calls: nat

    /** `calls` counts the calls since the last reset. */
    ghost predicate Valid()
      reads this
    {
      && initial <= max
      && (initial > 0 ==> current as int == if calls == 0 then 0 else BaseOf(initial as int, max as int, calls))
    }

    constructor (initial: int64, maximum: int64)
      ensures Valid() && calls == 0 && current == 0
      ensures this.initial == initial && this.max == if maximum < initial then initial else maximum
    {
      this.initial := initial;
      this.max := if maximum < initial then initial else maximum;
      this.current := 0;
      this.calls := 0;
    }

    /**
     The next delay, whatever the random draw. The next base is exact for every
     maximum; the delay is within a fifth of the base when six fifths of the
     maximum fit.
     */
    method Next() returns (delay: int64)
      requires Valid()
      modifies this
      ensures Valid() && calls == old(calls) + 1
      ensures initial > 0 ==>
                var base := BaseOf(initial as int, max as int, old(calls));
                && current as int == BaseOf(initial as int, max as int, old(calls) + 1)
                && delay <= max
                && (6 * max as int / 5 <= MAX_INT64 ==> 4 * base <= 5 * delay as int <= 6 * base)
                && (JitterRange(base) == 0 ==> delay as int == base)
    {
      hide Doubled, Wrap;
      var base := current;
      if base == 0 {
        base := initial;
      }
      calls := calls + 1;
      if initial > 0 {
        BaseClosedForm(initial as int, max as int, calls - 1);
        BaseClosedForm(initial as int, max as int, calls);
      }
      if base as int >= Quotient(max as int, 2) {
        current := max;
      } else {
        assert initial > 0 ==> base as int * 2 <= max as int;
        current := Wrap(base as int * 2);
      }

      delay := Jittered(base, max);
    }

    method Reset()
      requires Valid()
      modifies this
      ensures Valid() && calls == 0 && current == 0
    {
      current := 0;
      calls := 0;
    }
  }
}
