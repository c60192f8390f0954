/**
 The filter chain behind the analog inputs. Every conversion smooths each channel
 with an integer low pass that also widens 12 bits to 16; once a second the heating
 node smooths three of the results again, in 32 bits.
 */
module AnalogFilter {
  type word16 = x: int | 0 <= x < 0x1_0000
  type word32 = x: int | 0 <= x < 0x1_0000_0000

  const CHANNELS := 18
  /** The largest filtered value, sixteen times the largest 12-bit sample. */
  const TOP := 65520

  /** The low pass both stages use: the input plus `n - 1` times the state divided by `n`, rounded. */
  function LowPass(n: nat, b: int, f: int): int
    requires n > 0
  {
    b + (n - 1) * Level(n, f)
  }

  function Level(n: nat, f: int): int
    requires n > 0
  {
    (f + n / 2) / n
  }

  // ------------------------------------------------------------------ arithmetic

  lemma ProductGrows(n: nat, a: int, b: int)
    requires a <= b
    ensures n * a <= n * b
  {
    assert n * (b - a) >= 0;
  }

  lemma ProductOfNext(n: int, a: int)
    ensures n * (a + 1) == n * a + n && (n - 1) * a == n * a - a
  {
  }

  lemma QuotientIsUnique(n: nat, x: int, q: int, r: int)
    requires n > 0 && x == n * q + r && 0 <= r < n
    ensures x / n == q
  {
    var t := x / n;
    assert x == n * t + x % n;
    ProductOfNext(n, q);
    ProductOfNext(n, t);
    if q + 1 <= t {
      ProductGrows(n, q + 1, t);
      assert false;
    }
    if t + 1 <= q {
      ProductGrows(n, t + 1, q);
      assert false;
    }
  }

  lemma QuotientShifts(n: nat, x: int, k: int)
    requires n > 0
    ensures (x + n * k) / n == x / n + k
  {
    assert n * (x / n + k) == n * (x / n) + n * k;
    QuotientIsUnique(n, x + n * k, x / n + k, x % n);
  }

  lemma QuotientBetween(n: nat, x: int, lo: int, hi: int)
    requires n > 0 && n * lo <= x < n * hi + n
    ensures lo <= x / n <= hi
  {
    var q := x / n;
    assert x == n * q + x % n;
    ProductOfNext(n, q);
    ProductOfNext(n, hi);
    if q + 1 <= lo {
      ProductGrows(n, q + 1, lo);
      assert false;
    }
    if hi + 1 <= q {
      ProductGrows(n, hi + 1, q);
      assert false;
    }
  }

  /** What lies between two levels, state and input, stays between them. */
  lemma LowPassStaysBetween(n: nat, b: int, f: int, lo: int, hi: int)
    requires n > 1 && lo <= b <= hi && n * lo <= f <= n * hi
    ensures n * lo <= LowPass(n, b, f) <= n * hi
  {
    QuotientBetween(n, f + n / 2, lo, hi);
    ProductGrows(n - 1, lo, Level(n, f));
    ProductGrows(n - 1, Level(n, f), hi);
    ProductOfNext(n, lo);
    ProductOfNext(n, hi);
  }

  // ----------------------------------------------------------------- convergence

  function Clamp(x: int, lo: int, hi: int): int { if x < lo then lo else if x > hi then hi else x }

  /** The level a filter in level `s` comes to rest at under the constant input `b`. */
  function Rest(n: nat, b: int, s: int): int { Clamp(s, b - n / 2 + 1, b + n / 2) }

  function Distance(a: int, b: int): nat { if a < b then b - a else a - b }

  /** The part of a distance that one step makes up: an `n`-th, rounded up. */
  function Gain(n: nat, e: int): int
    requires n > 0
  {
    -((-e) / n)
  }

  lemma GainBounds(n: nat, e: nat)
    requires n > 0
    ensures 0 <= Gain(n, e) <= e && (e > 0 ==> Gain(n, e) > 0) && e <= n * Gain(n, e)
  {
    var q := (-(e as int)) / n;
    assert n * q + (-(e as int)) % n == -(e as int) && n * (-q) == -(n * q);
    ProductOfNext(e, n - 1);
    ProductGrows(e, 0, n - 1);
    assert n * (-(e as int)) == -(e * n);
    if e > 0 {
      QuotientBetween(n, -(e as int), -(e as int), -1);
    } else {
      QuotientIsUnique(n, 0, 0, 0);
    }
  }

  lemma GainIsMonotone(n: nat, a: int, b: int)
    requires n > 0 && a <= b
    ensures Gain(n, a) <= Gain(n, b)
  {
    var q := (-b) / n;
    assert -b == n * q + (-b) % n;
    ProductOfNext(n, -a);
    QuotientNotBelow(n, -a, q);
  }

  lemma QuotientNotBelow(n: nat, x: int, q: int)
    requires n > 0 && n * q <= x
    ensures q <= x / n
  {
    var t := x / n;
    assert x == n * t + x % n;
    ProductOfNext(n, t);
    if t + 1 <= q {
      ProductGrows(n, t + 1, q);
      assert false;
    }
  }

  lemma GainIsCeiling(n: nat, e: nat)
    requires n > 0
    ensures Gain(n, e) == (e + n - 1) / n
  {
    var q, r := (-(e as int)) / n, (-(e as int)) % n;
    assert -(e as int) == n * q + r && n * (-q) == -(n * q);
    QuotientIsUnique(n, e + n - 1, -q, n - 1 - r);
  }

  lemma LevelMoves(n: nat, b: int, s: int)
    requires n > 1 && n % 2 == 0
    ensures Level(n, b + (n - 1) * s) == s + (b - s + n / 2) / n
  {
    ProductOfNext(n, s);
    QuotientShifts(n, b - s + n / 2, s);
  }

  /** Each step keeps the place of rest and comes nearer to it by exactly the gain. */
  lemma StepGains(n: nat, b: int, s: int)
    requires n > 1 && n % 2 == 0
    ensures var t, c := Level(n, b + (n - 1) * s), Rest(n, b, s);
      Rest(n, b, t) == c && Distance(t, c) == Distance(s, c) - Gain(n, Distance(s, c))
  {
    var h, e := n / 2, Distance(s, Rest(n, b, s));
    LevelMoves(n, b, s);
    GainBounds(n, e);
    if s < b - h + 1 {
      assert b - s + h == e + n - 1;
      GainIsCeiling(n, e);
    } else if s > b + h {
      assert b - s + h == -(e as int);
    } else {
      QuotientIsUnique(n, b - s + h, 0, b - s + h);
    }
  }

  /** The state after `k` equal inputs. */
  function Repeated(n: nat, b: int, f: int, k: nat): int
    requires n > 0
  {
    if k == 0 then f else LowPass(n, b, Repeated(n, b, f, k - 1))
  }

  /** What remains of a distance after `k` steps. */
  function Remaining(n: nat, e: nat, k: nat): (r: nat)
    requires n > 0
    ensures r <= e
  {
    if k == 0 then e
    else
      var d := Remaining(n, e, k - 1);
      GainBounds(n, d);
      d - Gain(n, d)
  }

  lemma {:induction false} DistanceAfter(n: nat, b: int, f: int, k: nat)
    requires n > 1 && n % 2 == 0
    ensures var c, s := Rest(n, b, Level(n, f)), Level(n, Repeated(n, b, f, k));
      Rest(n, b, s) == c && Distance(s, c) == Remaining(n, Distance(Level(n, f), c), k)
  {
    if k > 0 {
      DistanceAfter(n, b, f, k - 1);
      StepGains(n, b, Level(n, Repeated(n, b, f, k - 1)));
    }
  }

  /** Later steps gain less, so `k` steps gain at least `k` times what the last one does. */
  lemma {:induction false} GainsAddUp(n: nat, e: nat, k: nat)
    requires n > 0
    ensures k * Gain(n, Remaining(n, e, k)) <= e - Remaining(n, e, k)
  {
    if k > 0 {
      var d, d' := Remaining(n, e, k - 1), Remaining(n, e, k);
      GainsAddUp(n, e, k - 1);
      GainBounds(n, d);
      GainIsMonotone(n, d', d);
      ProductGrows(k, Gain(n, d'), Gain(n, d));
      ProductOfNext(k, Gain(n, d));
    }
  }

  lemma HalvesInNSteps(n: nat, e: nat)
    requires n > 0
    ensures Remaining(n, e, n) <= e / 2
  {
    GainsAddUp(n, e, n);
    GainBounds(n, Remaining(n, e, n));
  }

  lemma {:induction false} RemainingConcat(n: nat, e: nat, j: nat, k: nat)
    requires n > 0
    ensures Remaining(n, e, j + k) == Remaining(n, Remaining(n, e, j), k)
  {
    if k > 0 { RemainingConcat(n, e, j, k - 1); }
  }

  function Pow2(n: nat): (r: nat)
    ensures r > 0
  {
    if n == 0 then 1 else 2 * Pow2(n - 1)
  }

  /** A distance of `bits` bits is gone after `n` steps for each bit. */
  lemma {:induction false} GoneAfterNStepsPerBit(n: nat, e: nat, bits: nat, k: nat)
    requires n > 0 && e < Pow2(bits) && k >= n * bits
    ensures Remaining(n, e, k) == 0
    decreases bits
  {
    if bits > 0 {
      ProductOfNext(n, bits - 1);
      ProductGrows(n, 0, bits - 1);
      HalvesInNSteps(n, e);
      RemainingConcat(n, e, n, k - n);
      GoneAfterNStepsPerBit(n, Remaining(n, e, n), bits - 1, k - n);
    }
  }

  /** Under a constant input the filter reaches its resting value and stays there. */
  lemma Settles(n: nat, b: int, f: int, bits: nat, k: nat)
    requires n > 1 && n % 2 == 0
    requires Distance(Level(n, f), Rest(n, b, Level(n, f))) < Pow2(bits) && k > n * bits
    ensures Repeated(n, b, f, k) == b + (n - 1) * Rest(n, b, Level(n, f))
  {
    DistanceAfter(n, b, f, k - 1);
    GoneAfterNStepsPerBit(n, Distance(Level(n, f), Rest(n, b, Level(n, f))), bits, k - 1);
  }

  // ----------------------------------------------------------------- first stage

  datatype Adc = Adc(raw: seq<word16>, filtered: seq<word16>, initialized: bool)

  datatype Event =
    /** The converter stores a sample of every channel. */
    | Convert(samples: seq<word16>)
    /** It calls back. */
    | Callback
    /** A driver restarts the filters of the channels in a bit mask. */
    | Reset(channels: word16)

  function Bit(mask: nat, i: nat): bool { if i == 0 then mask % 2 == 1 else Bit(mask / 2, i - 1) }

  function Restarted(raw: word16): word16 { (raw as int * 16) % 0x1_0000 }

  function Smoothed(raw: word16, filtered: word16): word16 { (raw + 15 * ((filtered as int + 8) / 16)) % 0x1_0000 }

  predicate Shape(s: Adc) { |s.raw| == CHANNELS && |s.filtered| == CHANNELS }

  predicate Possible(e: Event) { e.Convert? ==> |e.samples| == CHANNELS && forall i | 0 <= i < CHANNELS :: e.samples[i] < 4096 }

  function AllRestarted(s: Adc): (r: seq<word16>)
    requires Shape(s)
    ensures |r| == CHANNELS && forall i | 0 <= i < CHANNELS :: r[i] == Restarted(s.raw[i])
  {
    seq(CHANNELS, i requires 0 <= i < CHANNELS => Restarted(s.raw[i]))
  }

  function AllSmoothed(s: Adc): (r: seq<word16>)
    requires Shape(s)
    ensures |r| == CHANNELS && forall i | 0 <= i < CHANNELS :: r[i] == Smoothed(s.raw[i], s.filtered[i])
  {
    seq(CHANNELS, i requires 0 <= i < CHANNELS => Smoothed(s.raw[i], s.filtered[i]))
  }

  /** Only the sixteen external channels have a bit in the mask. */
  function SomeRestarted(s: Adc, channels: word16): (r: seq<word16>)
    requires Shape(s)
    ensures |r| == CHANNELS
    ensures forall i | 0 <= i < CHANNELS :: r[i] == if i < 16 && Bit(channels, i) then Restarted(s.raw[i]) else s.filtered[i]
  {
    seq(CHANNELS, i requires 0 <= i < CHANNELS => if i < 16 && Bit(channels, i) then Restarted(s.raw[i]) else s.filtered[i])
  }

  function Step(s: Adc, e: Event): (r: Adc)
    requires Shape(s) && Possible(e)
    ensures Shape(r)
  {
    match e
    case Convert(samples) => s.(raw := samples)
    case Callback => s.(filtered := if s.initialized then AllSmoothed(s) else AllRestarted(s), initialized := true)
    case Reset(channels) => s.(filtered := SomeRestarted(s, channels))
  }

  const INITIAL := Adc(seq(CHANNELS, _ => 0), seq(CHANNELS, _ => 0), false)

  class AnalogInputs {
    const raw: array<word16>
    const filtered: array<word16>
    var initialized: bool

    ghost predicate Valid() reads this, raw, filtered {
      raw.Length == CHANNELS && filtered.Length == CHANNELS && raw != filtered
    }

    ghost function State(): Adc reads this, raw, filtered { Adc(raw[..], filtered[..], initialized) }

    constructor ()
      ensures Valid() && State() == INITIAL
    {
      raw, filtered := new word16[CHANNELS](_ => 0), new word16[CHANNELS](_ => 0);
      initialized := false;
      new;
      assert raw[..] == INITIAL.raw && filtered[..] == INITIAL.filtered;
    }

    /** What the converter's DMA channel does. */
    method Convert(samples: seq<word16>)
      requires Valid() && Possible(Event.Convert(samples))
      modifies raw
      ensures State() == Step(old(State()), Event.Convert(samples))
    {
      forall i | 0 <= i < CHANNELS {
        raw[i] := samples[i];
      }
      assert raw[..] == samples;
    }

    method ResetOne(channel: nat)
      requires Valid() && channel < CHANNELS
      modifies filtered
      ensures filtered[..] == old(filtered[..])[channel := Restarted(raw[channel])]
    {
      filtered[channel] := (raw[channel] as int * 16) % 0x1_0000;
    }

    method ResetFilter(channels: word16)
      requires Valid()
      modifies filtered
      ensures State() == Step(old(State()), Reset(channels))
    {
      for i := 0 to 16
        invariant forall k | 0 <= k < CHANNELS ::
          filtered[k] == if k < i && Bit(channels, k) then Restarted(raw[k]) else old(filtered[k])
      {
        if Bit(channels, i) {
          ResetOne(i);
        }
      }
      assert filtered[..] == SomeRestarted(old(State()), channels);
    }

    method FilterCallback()
      requires Valid()
      modifies this`initialized, filtered
      ensures State() == Step(old(State()), Callback)
    {
      if !initialized {
        for i := 0 to CHANNELS
          invariant forall k | 0 <= k < CHANNELS :: filtered[k] == if k < i then Restarted(raw[k]) else old(filtered[k])
        {
          ResetOne(i);
        }
        initialized := true;
        assert filtered[..] == AllRestarted(old(State()));
      } else {
        for i := 0 to CHANNELS
          invariant initialized
          invariant forall k | 0 <= k < CHANNELS ::
            filtered[k] == if k < i then Smoothed(raw[k], old(filtered[k])) else old(filtered[k])
        {
          var smp := (filtered[i] as int + 8) / 16;
          filtered[i] := (raw[i] + 15 * smp) % 0x1_0000;
        }
        assert filtered[..] == AllSmoothed(old(State()));
      }
    }
  }

  /** A channel whose sample and filtered value denote levels between `lo` and `hi`. */
  predicate ChannelBetween(s: Adc, c: nat, lo: int, hi: int)
    requires Shape(s) && c < CHANNELS
  {
    lo <= s.raw[c] <= hi && 16 * lo <= s.filtered[c] <= 16 * hi
  }

  lemma SmoothedIsLowPass(raw: word16, filtered: word16)
    requires raw < 4096 && filtered <= TOP
    ensures Smoothed(raw, filtered) == LowPass(16, raw, filtered) <= TOP && Restarted(raw) == 16 * raw <= TOP
  {
    LowPassStaysBetween(16, raw, filtered, 0, 4095);
    Word16Fits(raw as int + 15 * ((filtered as int + 8) / 16));
    Word16Fits(raw as int * 16);
  }

  lemma Word16Fits(v: int)
    requires 0 <= v < 0x1_0000
    ensures v % 0x1_0000 == v
  {
  }

  lemma StepStaysBetween(s: Adc, e: Event, c: nat, lo: int, hi: int)
    requires Shape(s) && Possible(e) && c < CHANNELS && 0 <= lo <= hi < 4096
    requires ChannelBetween(s, c, lo, hi) && (e.Convert? ==> lo <= e.samples[c] <= hi)
    ensures ChannelBetween(Step(s, e), c, lo, hi)
  {
    SmoothedIsLowPass(s.raw[c], s.filtered[c]);
    LowPassStaysBetween(16, s.raw[c], s.filtered[c], lo, hi);
  }

  function Run(s: Adc, es: seq<Event>): (r: Adc)
    requires Shape(s) && forall i | 0 <= i < |es| :: Possible(es[i])
    ensures Shape(r)
    decreases |es|
  {
    if es == [] then s else Step(Run(s, es[..|es| - 1]), es[|es| - 1])
  }

  /** The samples of channel `c` in a run lie between `lo` and `hi`. */
  predicate SamplesBetween(es: seq<Event>, c: nat, lo: int, hi: int) {
    c < CHANNELS && forall i | 0 <= i < |es| :: Possible(es[i]) && (es[i].Convert? ==> lo <= es[i].samples[c] <= hi)
  }

  /** No overflow and no overshoot: a filtered value stays between the extremes of its samples. */
  lemma {:induction false} RunStaysBetween(s: Adc, es: seq<Event>, c: nat, lo: int, hi: int)
    requires Shape(s) && SamplesBetween(es, c, lo, hi) && 0 <= lo <= hi < 4096 && ChannelBetween(s, c, lo, hi)
    ensures ChannelBetween(Run(s, es), c, lo, hi)
    decreases |es|
  {
    if es != [] {
      RunStaysBetween(s, es[..|es| - 1], c, lo, hi);
      StepStaysBetween(Run(s, es[..|es| - 1]), es[|es| - 1], c, lo, hi);
    }
  }

  /** From the start, whatever is converted and whenever filters are restarted. */
  lemma FilteredNeverExceedsTop(es: seq<Event>, c: nat)
    requires c < CHANNELS && forall i | 0 <= i < |es| :: Possible(es[i])
    ensures Run(INITIAL, es).filtered[c] <= TOP
  {
    RunStaysBetween(INITIAL, es, c, 0, 4095);
  }

  /** Channel `c` reads `b` all the time and is not restarted. */
  predicate Steady(es: seq<Event>, c: nat, b: int) {
    SamplesBetween(es, c, b, b) && forall i | 0 <= i < |es| :: es[i].Reset? ==> !(c < 16 && Bit(es[i].channels, c))
  }

  function Callbacks(es: seq<Event>): nat {
    if es == [] then 0 else Callbacks(es[..|es| - 1]) + if es[|es| - 1].Callback? then 1 else 0
  }

  lemma {:induction false} SteadyRunRepeats(s: Adc, es: seq<Event>, c: nat, b: nat)
    requires Shape(s) && s.initialized && Steady(es, c, b) && b < 4096 && s.raw[c] == b && s.filtered[c] <= TOP
    ensures var r := Run(s, es);
      r.initialized && r.raw[c] == b && r.filtered[c] == Repeated(16, b, s.filtered[c], Callbacks(es)) <= TOP
    decreases |es|
  {
    if es != [] {
      SteadyRunRepeats(s, es[..|es| - 1], c, b);
      var q := Run(s, es[..|es| - 1]);
      SmoothedIsLowPass(b, q.filtered[c]);
    }
  }

  /**
   A channel that keeps reading `b` rests, after 193 conversions at most and for good,
   between `16 * b - 105` and `16 * b + 120`; where depends only on where it began.
   */
  lemma SteadyChannelSettles(s: Adc, es: seq<Event>, c: nat, b: nat)
    requires Shape(s) && s.initialized && Steady(es, c, b) && b < 4096 && s.raw[c] == b && s.filtered[c] <= TOP
    requires Callbacks(es) >= 193
    ensures Run(s, es).filtered[c] == b + 15 * Clamp((s.filtered[c] + 8) / 16, b - 7, b + 8)
    ensures 16 * b - 105 <= Run(s, es).filtered[c] <= 16 * b + 120
  {
    SteadyRunRepeats(s, es, c, b);
    TwelveBits();
    Settles(16, b, s.filtered[c], 12, Callbacks(es));
  }

  lemma TwelveBits()
    ensures Pow2(12) == 4096
  {
    assert Pow2(4) == 16 && Pow2(8) == 256;
  }

  // ------------------------------------------------------------ restarted filters

  /** `Bit` reads the binary digits of a mask. */
  lemma {:induction false} BitIsBinaryDigit(mask: nat, i: nat)
    ensures Bit(mask, i) <==> mask / Pow2(i) % 2 == 1
  {
    if i == 0 {
      assert Pow2(0) == 1;
    } else {
      BitIsBinaryDigit(mask / 2, i - 1);
      HalfFirst(mask, Pow2(i - 1));
    }
  }

  lemma HalfFirst(m: nat, p: nat)
    requires p > 0
    ensures m / 2 / p == m / (2 * p)
  {
    var a, r := m / 2, m % 2;
    var q, t := a / p, a % p;
    assert a == p * q + t && m == 2 * a + r;
    assert (2 * p) * q == 2 * (p * q);
    QuotientIsUnique(2 * p, m, q, 2 * t + r);
  }

  /** A reset sets exactly the external channels of the mask to sixteen times their sample. */
  lemma ResetRestartsMasked(s: Adc, channels: word16, c: nat)
    requires Shape(s) && c < CHANNELS && s.raw[c] < 4096
    ensures Step(s, Reset(channels)).filtered[c] as int ==
      if c < 16 && channels / Pow2(c) % 2 == 1 then 16 * (s.raw[c] as int) else s.filtered[c] as int
  {
    BitIsBinaryDigit(channels, c);
    Word16Fits(s.raw[c] as int * 16);
  }

  lemma {:induction false} StartedByCallback(es: seq<Event>)
    requires forall i | 0 <= i < |es| :: Possible(es[i])
    ensures Run(INITIAL, es).initialized <==> Callbacks(es) > 0
    ensures forall c | 0 <= c < CHANNELS :: Run(INITIAL, es).raw[c] < 4096
    decreases |es|
  {
    if es != [] { StartedByCallback(es[..|es| - 1]); }
  }

  /** The first callback after power-up starts every channel at sixteen times its sample, the internal ones too. */
  lemma FirstCallbackRestartsAll(es: seq<Event>, c: nat)
    requires c < CHANNELS && (forall i | 0 <= i < |es| :: Possible(es[i])) && Callbacks(es) == 0
    ensures Step(Run(INITIAL, es), Callback).filtered[c] as int == 16 * (Run(INITIAL, es).raw[c] as int)
  {
    StartedByCallback(es);
    Word16Fits(Run(INITIAL, es).raw[c] as int * 16);
  }

  // ---------------------------------------------------------------- second stage

  /** The three slow filters of the heating node: outside temperature, boiler and flow. */
  datatype Slow = Slow(outside: word32, boiler: word32, flow: word32)

  datatype Inputs = Inputs(outside: word16, boiler: word16, flow: word16)

  function Scaled(x: word16): word32 { (x as int * 0x1_0000) % 0x1_0000_0000 }

  function Slowed512(d: word32, x: word16): word32 {
    ((x as int * 0x1_0000 + 256) / 512 + ((d as int + 256) / 512) * 511) % 0x1_0000_0000
  }

  function Slowed8(d: word32, x: word16): word32 {
    ((x as int * 0x1_0000 + 4) / 8 + ((d as int + 4) / 8) * 7) % 0x1_0000_0000
  }

  function SlowStep(s: Slow, x: Inputs): Slow {
    if s.outside == 0 then Slow(Scaled(x.outside), Scaled(x.boiler), Scaled(x.flow))
    else Slow(Slowed512(s.outside, x.outside), Slowed8(s.boiler, x.boiler), Slowed8(s.flow, x.flow))
  }

  class SlowFilter {
    const doubleFiltered: array<word32>

    ghost predicate Valid() { doubleFiltered.Length == 3 }

    ghost function State(): Slow
      requires Valid()
      reads doubleFiltered
    {
      Slow(doubleFiltered[0], doubleFiltered[1], doubleFiltered[2])
    }

    constructor ()
      ensures Valid() && State() == Slow(0, 0, 0)
    {
      doubleFiltered := new word32[3](_ => 0);
    }

    method FilterTick(filtered: seq<word16>)
      requires Valid() && |filtered| == CHANNELS
      modifies doubleFiltered
      ensures State() == SlowStep(old(State()), Inputs(filtered[1], filtered[2], filtered[3]))
    {
      if doubleFiltered[0] == 0 {
        doubleFiltered[0] := Scaled(filtered[1]);
        doubleFiltered[1] := Scaled(filtered[2]);
        doubleFiltered[2] := Scaled(filtered[3]);
      } else {
        doubleFiltered[0] := Slowed512(doubleFiltered[0], filtered[1]);
        doubleFiltered[1] := Slowed8(doubleFiltered[1], filtered[2]);
        doubleFiltered[2] := Slowed8(doubleFiltered[2], filtered[3]);
      }
    }
  }

  lemma Word32Fits(v: int)
    requires 0 <= v < 0x1_0000_0000
    ensures v % 0x1_0000_0000 == v
  {
  }

  lemma InputScales(x: word16)
    ensures (x as int * 0x1_0000 + 256) / 512 == 128 * x && (x as int * 0x1_0000 + 4) / 8 == 8192 * x
  {
  }

  /** With inputs a first stage can produce, 32 bits are enough and both filters are low passes. */
  lemma SlowFiltersDoNotOverflow(d: word32, x: word16)
    requires d <= TOP * 0x1_0000 && x <= TOP
    ensures Scaled(x) == x as int * 0x1_0000
    ensures Slowed512(d, x) == LowPass(512, 128 * x, d as int) <= TOP * 0x1_0000
    ensures Slowed8(d, x) == LowPass(8, 8192 * x, d as int) <= TOP * 0x1_0000
  {
    Word32Fits(x as int * 0x1_0000);
    InputScales(x);
    LowPassStaysBetween(512, 128 * x, d as int, 0, 128 * TOP);
    Word32Fits(LowPass(512, 128 * x, d as int));
    LowPassStaysBetween(8, 8192 * x, d as int, 0, 8192 * TOP);
    Word32Fits(LowPass(8, 8192 * x, d as int));
  }

  /** A slow filter at or between the 16-bit levels `lo` and `hi`. */
  predicate UpperHalfBetween(d: word32, lo: int, hi: int) { lo * 0x1_0000 <= d <= hi * 0x1_0000 }

  lemma SlowedStaysBetween(d: word32, x: word16, lo: nat, hi: nat)
    requires lo <= x <= hi <= TOP
    ensures UpperHalfBetween(Scaled(x), lo, hi)
    ensures UpperHalfBetween(d, lo, hi) ==> UpperHalfBetween(Slowed512(d, x), lo, hi) && UpperHalfBetween(Slowed8(d, x), lo, hi)
  {
    if UpperHalfBetween(d, lo, hi) {
      SlowFiltersDoNotOverflow(d, x);
      LowPassStaysBetween(512, 128 * x, d as int, 128 * lo, 128 * hi);
      LowPassStaysBetween(8, 8192 * x, d as int, 8192 * lo, 8192 * hi);
    }
  }

  predicate InputsBetween(x: Inputs, lo: Inputs, hi: Inputs) {
    && lo.outside <= x.outside <= hi.outside <= TOP
    && lo.boiler <= x.boiler <= hi.boiler <= TOP
    && lo.flow <= x.flow <= hi.flow <= TOP
  }

  function SlowRun(xs: seq<Inputs>): Slow {
    if xs == [] then Slow(0, 0, 0) else SlowStep(SlowRun(xs[..|xs| - 1]), xs[|xs| - 1])
  }

  /** From the first tick on, each temperature's reading lies between the extremes of its inputs. */
  lemma {:induction false} SlowRunStaysBetween(xs: seq<Inputs>, lo: Inputs, hi: Inputs)
    requires xs != [] && forall i | 0 <= i < |xs| :: InputsBetween(xs[i], lo, hi)
    ensures var s := SlowRun(xs);
      && UpperHalfBetween(s.outside, lo.outside, hi.outside)
      && UpperHalfBetween(s.boiler, lo.boiler, hi.boiler)
      && UpperHalfBetween(s.flow, lo.flow, hi.flow)
    decreases |xs|
  {
    var s, x := SlowRun(xs[..|xs| - 1]), xs[|xs| - 1];
    assert InputsBetween(x, lo, hi);
    if |xs| > 1 { SlowRunStaysBetween(xs[..|xs| - 1], lo, hi); }
    SlowedStaysBetween(s.outside, x.outside, lo.outside, hi.outside);
    SlowedStaysBetween(s.boiler, x.boiler, lo.boiler, hi.boiler);
    SlowedStaysBetween(s.flow, x.flow, lo.flow, hi.flow);
  }

  /** What is read off a slow filter fits 16 bits and is no further out than its inputs. */
  lemma ReadingFits(d: word32, lo: nat, hi: nat)
    requires UpperHalfBetween(d, lo, hi) && hi <= TOP
    ensures lo <= d / 0x1_0000 <= hi < 0x1_0000
  {
  }

  // ---------------------------------------------------- convergence, second stage

  /** From number `m` on, all inputs are `x`. */
  ghost predicate SteadyFrom(xs: seq<Inputs>, m: nat, x: Inputs) { m <= |xs| && forall i | m <= i < |xs| :: xs[i] == x }

  /** Inputs a first stage can produce, with an outside sensor that reads more than zero. */
  predicate Plausible(x: Inputs) { InputsBetween(x, Inputs(1, 0, 0), Inputs(TOP, TOP, TOP)) }

  lemma {:induction false} RepeatsAlong(n: nat, b: int, values: nat -> int, k: nat)
    requires n > 0 && forall j: nat | j < k :: values(j + 1) == LowPass(n, b, values(j))
    ensures values(k) == Repeated(n, b, values(0), k)
  {
    if k > 0 { RepeatsAlong(n, b, values, k - 1); }
  }

  function SlowPrefix(xs: seq<Inputs>, n: nat): Slow { if n <= |xs| then SlowRun(xs[..n]) else Slow(0, 0, 0) }

  lemma TailStep(xs: seq<Inputs>, m: nat, x: Inputs, j: nat)
    requires 0 < m && SteadyFrom(xs, m, x) && (forall i | 0 <= i < |xs| :: Plausible(xs[i])) && m + j < |xs|
    ensures var s, r := SlowPrefix(xs, m + j), SlowPrefix(xs, m + j + 1);
      && r.outside as int == LowPass(512, 128 * x.outside, s.outside as int)
      && r.boiler as int == LowPass(8, 8192 * x.boiler, s.boiler as int)
      && r.flow as int == LowPass(8, 8192 * x.flow, s.flow as int)
  {
    var ys, zs := xs[..m + j], xs[..m + j + 1];
    assert zs[..|zs| - 1] == ys && zs[|zs| - 1] == xs[m + j] == x && Plausible(xs[m + j]);
    SlowRunStaysBetween(ys, Inputs(1, 0, 0), Inputs(TOP, TOP, TOP));
    OneSlowStep(SlowRun(ys), x);
  }

  lemma OutsideTail(xs: seq<Inputs>, m: nat, x: Inputs)
    requires 0 < m && SteadyFrom(xs, m, x) && forall i | 0 <= i < |xs| :: Plausible(xs[i])
    ensures SlowPrefix(xs, |xs|).outside as int == Repeated(512, 128 * x.outside, SlowPrefix(xs, m).outside as int, |xs| - m)
  {
    var values := (j: nat) => SlowPrefix(xs, m + j).outside as int;
    forall j: nat | j < |xs| - m ensures values(j + 1) == LowPass(512, 128 * x.outside, values(j)) { TailStep(xs, m, x, j); }
    RepeatsAlong(512, 128 * x.outside, values, |xs| - m);
  }

  lemma BoilerTail(xs: seq<Inputs>, m: nat, x: Inputs)
    requires 0 < m && SteadyFrom(xs, m, x) && forall i | 0 <= i < |xs| :: Plausible(xs[i])
    ensures SlowPrefix(xs, |xs|).boiler as int == Repeated(8, 8192 * x.boiler, SlowPrefix(xs, m).boiler as int, |xs| - m)
  {
    var values := (j: nat) => SlowPrefix(xs, m + j).boiler as int;
    forall j: nat | j < |xs| - m ensures values(j + 1) == LowPass(8, 8192 * x.boiler, values(j)) { TailStep(xs, m, x, j); }
    RepeatsAlong(8, 8192 * x.boiler, values, |xs| - m);
  }

  lemma FlowTail(xs: seq<Inputs>, m: nat, x: Inputs)
    requires 0 < m && SteadyFrom(xs, m, x) && forall i | 0 <= i < |xs| :: Plausible(xs[i])
    ensures SlowPrefix(xs, |xs|).flow as int == Repeated(8, 8192 * x.flow, SlowPrefix(xs, m).flow as int, |xs| - m)
  {
    var values := (j: nat) => SlowPrefix(xs, m + j).flow as int;
    forall j: nat | j < |xs| - m ensures values(j + 1) == LowPass(8, 8192 * x.flow, values(j)) { TailStep(xs, m, x, j); }
    RepeatsAlong(8, 8192 * x.flow, values, |xs| - m);
  }

  lemma OneSlowStep(s: Slow, x: Inputs)
    requires Plausible(x) && 0 < s.outside <= TOP * 0x1_0000 && s.boiler <= TOP * 0x1_0000 && s.flow <= TOP * 0x1_0000
    ensures var r := SlowStep(s, x);
      && r.outside as int == LowPass(512, 128 * x.outside, s.outside as int)
      && r.boiler as int == LowPass(8, 8192 * x.boiler, s.boiler as int)
      && r.flow as int == LowPass(8, 8192 * x.flow, s.flow as int)
  {
    SlowFiltersDoNotOverflow(s.outside, x.outside);
    SlowFiltersDoNotOverflow(s.boiler, x.boiler);
    SlowFiltersDoNotOverflow(s.flow, x.flow);
  }

  lemma SlowPowers()
    ensures Pow2(23) == 0x80_0000 && Pow2(29) == 0x2000_0000
  {
    assert Pow2(4) == 16 && Pow2(8) == 0x100 && Pow2(12) == 0x1000 && Pow2(16) == 0x1_0000 && Pow2(20) == 0x10_0000;
    assert Pow2(24) == 0x100_0000;
  }

  /** The slow filter of the outside temperature rests after 11777 equal inputs, within two units below and one above the input. */
  lemma OutsideSettles(d: word32, x: word16, k: nat)
    requires d <= TOP * 0x1_0000 && x <= TOP && k > 11776
    ensures var r := Repeated(512, 128 * x, d as int, k);
      r == 128 * x + 511 * Clamp((d as int + 256) / 512, 128 * x - 255, 128 * x + 256) && x - 2 <= r / 0x1_0000 <= x + 1
  {
    SlowPowers();
    QuotientBetween(512, d as int + 256, 0, 128 * TOP);
    Settles(512, 128 * x, d as int, 23, k);
  }

  /** The other two rest after 233, at the input or one unit below it. */
  lemma BoilerSettles(d: word32, x: word16, k: nat)
    requires d <= TOP * 0x1_0000 && x <= TOP && k > 232
    ensures var r := Repeated(8, 8192 * x, d as int, k);
      r == 8192 * x + 7 * Clamp((d as int + 4) / 8, 8192 * x - 3, 8192 * x + 4) && x - 1 <= r / 0x1_0000 <= x
  {
    SlowPowers();
    QuotientBetween(8, d as int + 4, 0, 8192 * TOP);
    Settles(8, 8192 * x, d as int, 29, k);
  }

  /** In every run, behind a long enough stretch of equal inputs, the three readings show them, whatever came before. */
  lemma SlowRunSettles(xs: seq<Inputs>, m: nat, x: Inputs)
    requires 0 < m && SteadyFrom(xs, m, x) && forall i | 0 <= i < |xs| :: Plausible(xs[i])
    ensures var r := SlowRun(xs);
      && (|xs| - m > 11776 ==> x.outside - 2 <= r.outside / 0x1_0000 <= x.outside + 1)
      && (|xs| - m > 232 ==> x.boiler - 1 <= r.boiler / 0x1_0000 <= x.boiler && x.flow - 1 <= r.flow / 0x1_0000 <= x.flow)
  {
    var s := SlowRun(xs[..m]);
    SlowRunStaysBetween(xs[..m], Inputs(1, 0, 0), Inputs(TOP, TOP, TOP));
    OutsideTail(xs, m, x);
    BoilerTail(xs, m, x);
    FlowTail(xs, m, x);
    assert xs[..|xs|] == xs;
    if |xs| - m > 232 {
      assert xs[m] == x && Plausible(xs[m]);
      BoilerSettles(s.boiler, x.boiler, |xs| - m);
      BoilerSettles(s.flow, x.flow, |xs| - m);
    }
    if |xs| - m > 11776 { OutsideSettles(s.outside, x.outside, |xs| - m); }
  }

  /** While the outside filter is zero, every tick restarts all three from their inputs. */
  lemma ZeroRestartsAll(s: Slow, x: Inputs)
    requires s.outside == 0 && Plausible(x)
    ensures SlowStep(s, x) == Slow(x.outside as int * 0x1_0000, x.boiler as int * 0x1_0000, x.flow as int * 0x1_0000)
  {
    Word32Fits(x.outside as int * 0x1_0000);
    Word32Fits(x.boiler as int * 0x1_0000);
    Word32Fits(x.flow as int * 0x1_0000);
  }
}
