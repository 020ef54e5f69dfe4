/**
 * src/utils/seededRandom.ts: the Park-Miller multiplicative congruential
 * generator. Its only state is the integer field `seed`; every product
 * state * 16807 stays below 2^53, so JavaScript's doubles compute it exactly
 * and unbounded integers model it faithfully.
 */
module Rng {
  /** 2^31 - 1, a prime. */
  const Modulus: int := 2147483647
  const Multiplier: int := 16807
  /** The inverse of Multiplier modulo Modulus: Multiplier * Inverse == 1 + 11017 * Modulus. */
  const Inverse: int := 1407677000

  /** The quotient JavaScript's `%` goes with: a / b truncated toward zero. */
  function JsQuot(a: int, b: int): int
    requires b > 0
  {
    if a >= 0 then a / b else -((-a) / b)
  }

  /** JavaScript's `a % b` for b > 0: the remainder truncated toward zero, with the sign of a. */
  function JsRem(a: int, b: int): (r: int)
    requires b > 0
    ensures a >= 0 ==> 0 <= r < b
    ensures a < 0 ==> -b < r <= 0
  {
    if a >= 0 then a % b else -((-a) % b)
  }

  /**
   * The remainder is what is left of a once the truncated quotient's multiple
   * of b is taken away; with its sign and bound this leaves exactly one value.
   */
  lemma JsRemQuotient(a: int, b: int)
    requires b > 0
    ensures a == b * JsQuot(a, b) + JsRem(a, b)
  {
    if a < 0 {
      assert -a == b * ((-a) / b) + (-a) % b;
    }
  }

  /** The state the constructor stores for a given seed. */
  function InitState(seed: int): int {
    var s := JsRem(seed, Modulus);
    if s <= 0 then s + (Modulus - 1) else s
  }

  /** The state after one `next()`. */
  function NextState(state: int): int {
    JsRem(state * Multiplier, Modulus)
  }

  /** The value `next()` returns once the state is `state`. */
  function Normalise(state: int): real {
    (state - 1) as real / (Modulus - 1) as real
  }

  /** A state the generator can keep forever: 1 .. Modulus - 1. */
  predicate ValidState(state: int) {
    1 <= state <= Modulus - 1
  }

  /**
   * The constructor always lands in 0 .. Modulus - 1; every seed >= 0 lands in
   * a valid state; a seed that already is a valid state is kept; and the state
   * is 0 exactly when the truncated remainder of the seed is -(Modulus - 1).
   */
  lemma InitStateSpec(seed: int)
    ensures 0 <= InitState(seed) <= Modulus - 1
    ensures seed >= 0 ==> ValidState(InitState(seed))
    ensures ValidState(seed) ==> InitState(seed) == seed
    ensures InitState(seed) == 0 <==> JsRem(seed, Modulus) == -(Modulus - 1)
  {
  }

  /** The seed -2147483646 is one that yields the degenerate state 0. */
  lemma DegenerateSeed()
    ensures InitState(-2147483646) == 0
  {
  }

  /** From state 0 the generator is stuck at 0 and returns a negative value. */
  lemma ZeroStateIsStuck()
    ensures NextState(0) == 0
    ensures Normalise(0) < 0.0
  {
  }

  /** For every state below the modulus the product stays below 2^53, so doubles are exact. */
  lemma ProductIsExact(state: int)
    requires 0 <= state < Modulus
    ensures 0 <= state * Multiplier < 0x20_0000_0000_0000
  {
  }

  /** From s * a == q * m and a * inv == 1 + k * m, s is a multiple of m. */
  lemma MultipleFromProduct(s: int, a: int, m: int, inv: int, k: int, q: int)
    requires a * inv == 1 + k * m && s * a == q * m
    ensures s == m * (q * inv - s * k)
  {
    calc {
      s + m * (s * k);
      s * (1 + k * m);
      s * (a * inv);
      (s * a) * inv;
      (q * m) * inv;
      m * (q * inv);
    }
  }

  /** No multiple of a positive m lies strictly between 0 and m. */
  lemma MultipleOutside(s: int, m: int, t: int)
    requires m > 0 && s == m * t
    ensures s <= 0 || s >= m
  {
    if t >= 1 {
      assert m * t >= m * 1;
    }
  }

  /**
   * If a has an inverse modulo m, multiplying by a maps no s with 0 < s < m to
   * a multiple of m.
   */
  lemma NoZeroProduct(s: int, a: int, m: int, inv: int, k: int)
    requires 0 < s < m && a * inv == 1 + k * m
    ensures (s * a) % m != 0
  {
    if (s * a) % m == 0 {
      var q := (s * a) / m;
      assert s * a == q * m;
      MultipleFromProduct(s, a, m, inv, k, q);
      MultipleOutside(s, m, q * inv - s * k);
      assert false;
    }
  }

  /** A valid state stays valid: Modulus never divides state * Multiplier for 0 < state < Modulus. */
  lemma NextStateValid(state: int)
    requires ValidState(state)
    ensures ValidState(NextState(state))
  {
    assert Multiplier * Inverse == 1 + 11017 * Modulus;
    NoZeroProduct(state, Multiplier, Modulus, Inverse, 11017);
  }

  /** `next()` returns a value in [0, 1) from a valid state. */
  lemma NormaliseRange(state: int)
    requires ValidState(state)
    ensures 0.0 <= Normalise(state) < 1.0
  {
  }

  /** The state after k calls of `next()` on a generator built from seed. */
  function StateAfter(seed: int, k: nat): int {
    if k == 0 then InitState(seed) else NextState(StateAfter(seed, k - 1))
  }

  /** The value returned by call k (counting from 0) of `next()` on a generator built from seed. */
  function Draw(seed: int, k: nat): real {
    Normalise(StateAfter(seed, k + 1))
  }

  /** Unless the seed hits the degenerate state 0, every state reached is valid. */
  lemma {:induction false} StateAfterValid(seed: int, k: nat)
    requires InitState(seed) != 0
    ensures ValidState(StateAfter(seed, k))
  {
    if k == 0 {
      InitStateSpec(seed);
    } else {
      StateAfterValid(seed, k - 1);
      NextStateValid(StateAfter(seed, k - 1));
    }
  }

  /** Unless the seed hits the degenerate state 0, every draw lies in [0, 1). */
  lemma DrawInUnitInterval(seed: int, k: nat)
    requires InitState(seed) != 0
    ensures 0.0 <= Draw(seed, k) < 1.0
  {
    StateAfterValid(seed, k + 1);
    NormaliseRange(StateAfter(seed, k + 1));
  }

  /** Multiplying by a positive factor keeps a strict order. */
  lemma MulStrict(c: real, a: real, b: real)
    requires c > 0.0 && a < b
    ensures c * a < c * b
  {
  }

  /** For u in [0, 1) and lo < hi, u * hi - u * lo < hi - lo. */
  lemma FractionBelow(u: real, lo: real, hi: real)
    requires 0.0 <= u < 1.0 && lo < hi
    ensures u * hi - u * lo < hi - lo
  {
    MulStrict(1.0 - u, lo, hi);
  }

  lemma Distributes(u: real, lo: real, hi: real)
    ensures u * (hi - lo) == u * hi - u * lo
  {
  }

  /** `min + u * (max - min)` lies in [min, max) for u in [0, 1) and min < max. */
  lemma ScaleIntoRange(u: real, min: real, max: real)
    requires 0.0 <= u < 1.0 && min < max
    ensures min <= min + u * (max - min) < max
  {
    FractionBelow(u, min, max);
    Distributes(u, min, max);
  }

  /**
   * `SeededRandom`: the generator object. Two instances built from the same
   * seed hold the same state, and each call's result and new state are
   * functions of the old state alone, so identical call sequences give
   * identical values.
   */
  class SeededRandom {
    var seed: int

    /** `constructor(seed)`: the truncated remainder, moved up by Modulus - 1 when not positive. */
    constructor (seed: int)
      ensures this.seed == InitState(seed)
      ensures seed >= 0 ==> ValidState(this.seed)
    {
      InitStateSpec(seed);
      var s := JsRem(seed, 2147483647);
      if s <= 0 {
        s := s + 2147483646;
      }
      this.seed := s;
    }

    /** `next()`: advances the state and returns (state - 1) / (Modulus - 1). */
    method Next() returns (r: real)
      modifies this
      ensures seed == NextState(old(seed))
      ensures r == Normalise(seed)
      ensures ValidState(old(seed)) ==> ValidState(seed) && 0.0 <= r < 1.0
    {
      seed := JsRem(seed * 16807, 2147483647);
      r := (seed - 1) as real / 2147483646.0;
      if ValidState(old(seed)) {
        NextStateValid(old(seed));
        NormaliseRange(seed);
      }
    }

    /** `nextRange(min, max)`: one `next()`, scaled into [min, max). */
    method NextRange(min: real, max: real) returns (r: real)
      modifies this
      ensures seed == NextState(old(seed))
      ensures r == min + Normalise(seed) * (max - min)
      ensures ValidState(old(seed)) && min < max ==> ValidState(seed) && min <= r < max
    {
      var u := Next();
      r := min + u * (max - min);
      if ValidState(old(seed)) && min < max {
        ScaleIntoRange(u, min, max);
      }
    }

    /** `nextInt(min, max)`: floor of `nextRange(min, max + 1)`, an integer in [min, max]. */
    method NextInt(min: int, max: int) returns (r: int)
      modifies this
      ensures seed == NextState(old(seed))
      ensures r == (min as real + Normalise(seed) * (max + 1 - min) as real).Floor
      ensures ValidState(old(seed)) && min <= max ==> ValidState(seed) && min <= r <= max
    {
      var v := NextRange(min as real, (max + 1) as real);
      r := v.Floor;
    }
  }
}
