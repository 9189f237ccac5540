/** `roundTo5Minutes` (app.js:58-61): `Math.round(ms / five) * five` with
    `five` = 5 minutes. `Math.round(x)` is the integer nearest to `x`, halves
    going up, that is floor(x + 1/2); on an integer `ms` that is
    floor((ms + five/2) / five). */
module Rounding {

  const FiveMinutesMs: int := 5 * 60 * 1000

  /** A multiple of five minutes that lies less than half a step below `ms`
      or at most half a step above it. */
  function RoundTo5Minutes(ms: int): (r: int)
    ensures r % FiveMinutesMs == 0
    ensures ms - FiveMinutesMs / 2 < r <= ms + FiveMinutesMs / 2
  {
    ((ms + FiveMinutesMs / 2) / FiveMinutesMs) * FiveMinutesMs
  }

  function Abs(x: int): nat
  {
    if x < 0 then -x else x
  }

  /** No multiple of five minutes is closer to `ms` than the rounded value. */
  lemma RoundIsNearest(ms: int, k: int)
    ensures Abs(RoundTo5Minutes(ms) - ms) <= Abs(k * FiveMinutesMs - ms)
  {
    var r := RoundTo5Minutes(ms);
    var q := r / FiveMinutesMs;
    assert r == q * FiveMinutesMs;
    if k > q {
      assert k * FiveMinutesMs >= q * FiveMinutesMs + FiveMinutesMs;
    } else if k < q {
      assert k * FiveMinutesMs <= q * FiveMinutesMs - FiveMinutesMs;
    }
  }

  /** A value exactly half-way between two multiples rounds up. */
  lemma HalfRoundsUp(ms: int)
    requires ms % FiveMinutesMs == FiveMinutesMs / 2
    ensures RoundTo5Minutes(ms) == ms + FiveMinutesMs / 2
  {
  }

  /** Multiples of five minutes are left as they are. */
  lemma MultiplesAreFixed(k: int)
    ensures RoundTo5Minutes(k * FiveMinutesMs) == k * FiveMinutesMs
  {
    RoundIsNearest(k * FiveMinutesMs, k);
  }
}
