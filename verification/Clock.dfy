/**
 System time: 10000 ticks a second in a 32-bit counter. Real time is a natural
 number of ticks; the counter shows it modulo 2^32.
 */
module Clock {
  const FREQUENCY := 10000

  type systime = t: nat | t < 0x1_0000_0000

  function Counter(t: nat): systime { t % 0x1_0000_0000 }

  /** chVTTimeElapsedSinceX and every difference of two counter values. */
  function Elapsed(now: systime, since: systime): systime { (now - since) % 0x1_0000_0000 }

  function Sum(start: systime, interval: nat): systime { (start + interval) % 0x1_0000_0000 }

  /** Seconds to ticks, as the 32-bit conversion computes it. */
  function S2I(seconds: nat): systime { (seconds * FREQUENCY) % 0x1_0000_0000 }

  /** Ticks to seconds, rounding up. */
  function I2S(ticks: nat): nat { (ticks + FREQUENCY - 1) / FREQUENCY }

  /** The counter may hide whole turns of 2^32 ticks, so a modular difference never overstates real time. */
  lemma ElapsedNeverExceedsReal(since: nat, now: nat)
    requires since <= now
    ensures Elapsed(Counter(now), Counter(since)) <= now - since
    ensures now - since < 0x1_0000_0000 ==> Elapsed(Counter(now), Counter(since)) == now - since
  {
    DifferenceOfRemainders(since, now);
    if now - since < 0x1_0000_0000 { Small(now - since); } else { Bounded(now - since); }
  }

  lemma DifferenceOfRemainders(a: nat, b: nat)
    requires a <= b
    ensures (b % 0x1_0000_0000 - a % 0x1_0000_0000) % 0x1_0000_0000 == (b - a) % 0x1_0000_0000
  {
    Shifted(b - a, b / 0x1_0000_0000 - a / 0x1_0000_0000, b % 0x1_0000_0000 - a % 0x1_0000_0000);
  }

  lemma Shifted(x: int, k: int, y: int)
    requires x == 0x1_0000_0000 * k + y
    ensures x % 0x1_0000_0000 == y % 0x1_0000_0000
  {
  }

  lemma Small(x: nat)
    requires x < 0x1_0000_0000
    ensures x % 0x1_0000_0000 == x
  {
  }

  lemma Bounded(x: nat)
    ensures x % 0x1_0000_0000 <= x
  {
  }

  lemma RoundingUpIsMonotone(a: nat, b: nat)
    requires a <= b
    ensures I2S(a) <= I2S(b)
  {
  }

  /** `start + T > now` as the 32-bit comparison decides it, for real times. */
  predicate Ahead(start: nat, interval: nat, now: nat) { Sum(Counter(start), interval) > Counter(now) }

  /** `start + T < now` as the 32-bit comparison decides it. */
  predicate Behind(start: nat, interval: nat, now: nat) { Sum(Counter(start), interval) < Counter(now) }

  lemma SumIsCounterOfSum(start: nat, interval: nat)
    ensures Sum(Counter(start), interval) == (start + interval) % 0x1_0000_0000
  {
    Shifted(start + interval, start / 0x1_0000_0000, start % 0x1_0000_0000 + interval);
  }

  /** The deadline `d` is over, but the counter is in a later turn and shows less. */
  predicate LooksAhead(d: nat, now: nat) {
    d / 0x1_0000_0000 < now / 0x1_0000_0000 && d % 0x1_0000_0000 > now % 0x1_0000_0000
  }

  /** The deadline `d` is over, but the counter is in a later turn and does not show more. */
  predicate LooksNotOver(d: nat, now: nat) {
    d / 0x1_0000_0000 < now / 0x1_0000_0000 && d % 0x1_0000_0000 >= now % 0x1_0000_0000
  }

  /** The deadline `d` lies ahead, but in a later turn in which the counter will show no more than now. */
  predicate LooksOver(d: nat, now: nat) {
    d / 0x1_0000_0000 > now / 0x1_0000_0000 && d % 0x1_0000_0000 <= now % 0x1_0000_0000
  }

  /** Exactly these turns of the counter make the comparisons of a deadline with the clock err. */
  lemma ComparisonErrsIff(start: nat, interval: nat, now: nat)
    ensures var d := start + interval;
      && (Ahead(start, interval, now) && d <= now <==> LooksAhead(d, now))
      && (!Behind(start, interval, now) && d < now <==> LooksNotOver(d, now))
      && (!Ahead(start, interval, now) && now < d <==> LooksOver(d, now))
  {
    SumIsCounterOfSum(start, interval);
    Order(start + interval, now);
    Order(now, start + interval);
  }

  lemma Order(a: nat, b: nat)
    ensures a / 0x1_0000_0000 == b / 0x1_0000_0000 ==> (a > b <==> a % 0x1_0000_0000 > b % 0x1_0000_0000)
    ensures a / 0x1_0000_0000 > b / 0x1_0000_0000 ==> a > b
  {
  }

  lemma NothingErrsBeforeWrap(d: nat, now: nat)
    requires now < 0x1_0000_0000
    ensures !LooksAhead(d, now) && !LooksNotOver(d, now)
    ensures d < 0x1_0000_0000 ==> !LooksOver(d, now)
  {
  }

  /** In the counter's first turn it shows the time, in the second the time less one turn. */
  lemma FirstTurns(t: nat)
    requires t < 0x2_0000_0000
    ensures Counter(t) == if t < 0x1_0000_0000 then t else t - 0x1_0000_0000
  {
  }
}
