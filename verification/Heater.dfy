/**
 Burner and circulation control of the heating node, one step a second. The
 temperatures, the target flow temperature and the weighted deviation of a tick
 are inputs: they come from floating-point code.
 */
module Heater {
  import opened Bytes
  import opened Clock

  const BURNER_REQUEST_DELAY := 50

  /** The positions of the mode switch the controller tells apart. */
  datatype KeyMode = DayOff | DayNight | Debug | Other

  datatype Config = Config(
    turnOff: int, turnOn: int,             // flow hysteresis
    minFlowTarget: nat, minCirculation: nat,
    riseTime: nat, minOffTime: nat, circulationMinOn: nat,
    hysteresis: int                        // of the deviation integral
  )

  datatype Input = Input(
    at: nat, mode: KeyMode, slopeKey: nat,
    targetFlow: int, contribution: int, flow: int, burnerTemp: int,
    cfg: Config
  )

  datatype Controller = Controller(
    burner: bool, circulation: bool,
    requestStart: systime, burnerStop: systime, circulationStart: systime,
    extend: int, deviation: int
  )

  /** The stop time is set ahead so that the burner may start at once. */
  const INITIAL := Controller(false, false, 0, 0x8FF00, 0, 0, 0)

  function Limited(d: int, bound: int): int {
    if d > ToInt32(8 * bound) then ToInt32(8 * bound) else if d < ToInt32(-8 * bound) then ToInt32(-8 * bound) else d
  }

  predicate Heats(i: Input) { i.mode == DayNight && i.targetFlow > i.cfg.minFlowTarget }

  /** The deviation integral after this tick's contribution. */
  function Integrated(c: Controller, i: Input): int {
    match i.mode
    case DayNight => if Heats(i) then Limited(ToInt32(c.deviation + i.contribution), i.cfg.hysteresis) else 0
    case DayOff => 0
    case _ => c.deviation
  }

  function LitFor(c: Controller, now: systime): int {
    ToInt16((if c.burner then I2S(Elapsed(now, c.requestStart)) else 0) - BURNER_REQUEST_DELAY)
  }

  function CirculatesFor(c: Controller, now: systime): nat {
    if c.circulation then I2S(Elapsed(now, c.circulationStart)) else 0
  }

  predicate TooHot(temp: int, i: Input, extend: int) {
    temp > i.targetFlow + i.cfg.turnOff && temp > i.targetFlow + extend
  }

  /** A burning burner is to stop. */
  predicate Satisfied(c: Controller, i: Input) {
    || TooHot(i.flow, i, c.extend) || TooHot(i.burnerTemp, i, c.extend)
    || (i.cfg.hysteresis != 0 && Integrated(c, i) > i.cfg.hysteresis)
    || (i.burnerTemp > i.flow && LitFor(c, Counter(i.at)) > i.cfg.riseTime && CirculatesFor(c, Counter(i.at)) > i.cfg.circulationMinOn)
  }

  /** A burner that is off is to start. */
  predicate Demanded(c: Controller, i: Input) {
    if i.cfg.hysteresis == 0 then i.flow < i.targetFlow - i.cfg.turnOn else Integrated(c, i) < -i.cfg.hysteresis
  }

  predicate WantsBurner(c: Controller, i: Input) {
    match i.mode
    case Debug => i.slopeKey % 2 == 1
    case DayNight => Heats(i) && if c.burner then !Satisfied(c, i) else Demanded(c, i)
    case _ => false
  }

  predicate WantsCirculation(c: Controller, i: Input) {
    match i.mode
    case Debug => i.slopeKey / 2 % 2 == 1
    case DayNight => (c.circulation && i.flow > i.cfg.minCirculation - 100) || i.flow > i.cfg.minCirculation || i.burnerTemp > i.cfg.minCirculation
    case DayOff => i.flow > i.cfg.minCirculation || i.burnerTemp > i.cfg.minCirculation
    case Other => false
  }

  predicate MayStart(c: Controller, i: Input) { I2S(Elapsed(Counter(i.at), c.burnerStop)) >= i.cfg.minOffTime }

  function Extension(i: Input): int {
    var e := ToInt16(i.targetFlow - i.flow);
    if e > 2 * i.cfg.turnOff then ToInt16(2 * i.cfg.turnOff) else e
  }

  function Step(c: Controller, i: Input): Controller {
    var now := Counter(i.at);
    var starts := WantsBurner(c, i) && !c.burner && MayStart(c, i);
    var circulates := WantsCirculation(c, i);
    Controller(
      if c.burner then WantsBurner(c, i) else starts,
      circulates,
      if starts then now else c.requestStart,
      if c.burner && !WantsBurner(c, i) then now else c.burnerStop,
      if circulates && !c.circulation then now else c.circulationStart,
      if starts then Extension(i) else c.extend,
      Integrated(c, i))
  }

  class HeaterController {
    var currentBurner: bool
    var currentCirculation: bool
    var lastBurnerRequestStart: systime
    var lastBurnerStop: systime
    var lastCirculationStart: systime
    var extendThisCycle: int
    var flowTempDeviation: int

    ghost function State(): Controller reads this {
      Controller(currentBurner, currentCirculation, lastBurnerRequestStart, lastBurnerStop, lastCirculationStart, extendThisCycle, flowTempDeviation)
    }

    constructor ()
      ensures State() == INITIAL
    {
      currentBurner, currentCirculation := false, false;
      lastBurnerRequestStart, lastBurnerStop, lastCirculationStart := 0, 0x8FF00, 0;
      extendThisCycle, flowTempDeviation := 0, 0;
    }

    /** What the mode asks for, with the deviation integral brought up to date. */
    method Regulate(i: Input, burnerLitFor: int, circulationRunningFor: int) returns (nextBurner: bool, nextCirculation: bool)
      requires burnerLitFor == LitFor(State(), Counter(i.at)) && circulationRunningFor == CirculatesFor(State(), Counter(i.at))
      modifies this`flowTempDeviation
      ensures nextBurner == old(WantsBurner(State(), i)) && nextCirculation == old(WantsCirculation(State(), i))
      ensures flowTempDeviation == old(Integrated(State(), i))
    {
      nextBurner, nextCirculation := false, false;
      if i.mode == Debug {
        nextBurner := i.slopeKey % 2 == 1;
        nextCirculation := i.slopeKey / 2 % 2 == 1;
      } else if i.mode == DayNight {
        flowTempDeviation := ToInt32(flowTempDeviation + i.contribution);
        if flowTempDeviation > ToInt32(8 * i.cfg.hysteresis) {
          flowTempDeviation := ToInt32(8 * i.cfg.hysteresis);
        } else if flowTempDeviation < ToInt32(-8 * i.cfg.hysteresis) {
          flowTempDeviation := ToInt32(-8 * i.cfg.hysteresis);
        }
        if (currentCirculation && i.flow > i.cfg.minCirculation - 100) || i.flow > i.cfg.minCirculation || i.burnerTemp > i.cfg.minCirculation {
          nextCirculation := true;
        }
        if i.targetFlow > i.cfg.minFlowTarget {
          nextBurner := currentBurner;
          if !currentBurner {
            if i.cfg.hysteresis == 0 && i.flow < i.targetFlow - i.cfg.turnOn {
              nextBurner := true;
            }
            if i.cfg.hysteresis != 0 && flowTempDeviation < 0 - i.cfg.hysteresis {
              nextBurner := true;
            }
          }
          if currentBurner {
            if (i.flow > i.targetFlow + i.cfg.turnOff && i.flow > i.targetFlow + extendThisCycle) ||
               (i.burnerTemp > i.targetFlow + i.cfg.turnOff && i.burnerTemp > i.targetFlow + extendThisCycle) {
              nextBurner := false;
            }
            if i.cfg.hysteresis != 0 && flowTempDeviation > i.cfg.hysteresis {
              nextBurner := false;
            }
            if i.burnerTemp > i.flow && burnerLitFor > i.cfg.riseTime && circulationRunningFor > i.cfg.circulationMinOn {
              nextBurner := false;
            }
          }
        } else {
          flowTempDeviation := 0;
        }
      } else if i.mode == DayOff {
        flowTempDeviation := 0;
        if i.flow > i.cfg.minCirculation || i.burnerTemp > i.cfg.minCirculation {
          nextCirculation := true;
        }
      }
    }

    method AppTick(i: Input)
      modifies this
      ensures State() == Step(old(State()), i)
    {
      var now := Counter(i.at);
      var burnerLitFor := ToInt16((if currentBurner then I2S(Elapsed(now, lastBurnerRequestStart)) else 0) - BURNER_REQUEST_DELAY);
      var circulationRunningFor := if currentCirculation then I2S(Elapsed(now, lastCirculationStart)) else 0;
      var nextBurner, nextCirculation := Regulate(i, burnerLitFor, circulationRunningFor);
      if !nextBurner && currentBurner {
        lastBurnerStop := now;
      }
      if nextBurner && !currentBurner {
        if I2S(Elapsed(now, lastBurnerStop)) < i.cfg.minOffTime {
          nextBurner := false;
        } else {
          lastBurnerRequestStart := now;
          extendThisCycle := ToInt16(i.targetFlow - i.flow);
          if extendThisCycle > 2 * i.cfg.turnOff {
            extendThisCycle := ToInt16(2 * i.cfg.turnOff);
          }
        }
      }
      if nextCirculation && !currentCirculation {
        lastCirculationStart := now;
      }
      currentBurner := nextBurner;
      currentCirculation := nextCirculation;
    }
  }

  // ---------------------------------------------------------------- one step

  predicate Stops(c: Controller, c': Controller) { c.burner && !c'.burner }

  predicate Starts(c: Controller, c': Controller) { !c.burner && c'.burner }

  ghost predicate OffTimeEffect(c: Controller, i: Input, c': Controller) {
    && c'.burnerStop == (if Stops(c, c') then Counter(i.at) else c.burnerStop)
    && (Starts(c, c') ==> I2S(Elapsed(Counter(i.at), c.burnerStop)) >= i.cfg.minOffTime)
  }

  lemma StepHasOffTimeEffect(c: Controller, i: Input)
    ensures OffTimeEffect(c, i, Step(c, i))
  {
  }

  /** The integral moves by at most `d`, is reset, or stays. */
  ghost predicate DeviationEffect(c: Controller, i: Input, c': Controller, h: int, d: int) {
    && -8 * h <= c'.deviation <= 8 * h
    && (c'.deviation == 0 || -d <= c'.deviation - c.deviation <= d)
    && (i.mode != Debug && Starts(c, c') ==> c'.deviation < -h)
  }

  lemma StepHasDeviationEffect(c: Controller, i: Input, h: int, d: int)
    requires 0 < h && 0 <= d && 8 * h + d < 0x8000_0000 && -8 * h <= c.deviation <= 8 * h
    requires i.cfg.hysteresis == h && -d <= i.contribution <= d
    ensures DeviationEffect(c, i, Step(c, i), h, d)
  {
    NoOverflow(c.deviation + i.contribution);
    NoOverflow(8 * h);
    NoOverflow(-8 * h);
  }

  lemma NoOverflow(x: int)
    requires -0x8000_0000 <= x < 0x8000_0000
    ensures ToInt32(x) == x
  {
    ToInt32OfWord(x);
    Remainder32(x, if x < 0 then -1 else 0, if x < 0 then x + 0x1_0000_0000 else x);
  }

  // --------------------------------------------------------------- whole runs

  ghost predicate StepAt(cs: seq<Controller>, ins: seq<Input>, k: nat)
    requires |cs| == |ins| + 1 && k < |ins|
  {
    cs[k + 1] == Step(cs[k], ins[k])
  }

  ghost predicate Run(cs: seq<Controller>, ins: seq<Input>) {
    && |cs| == |ins| + 1 && cs[0] == INITIAL
    && (forall j, k | 0 <= j <= k < |ins| :: ins[j].at <= ins[k].at)
    && forall k | 0 <= k < |ins| :: StepAt(cs, ins, k)
  }

  ghost predicate OffTimeAt(cs: seq<Controller>, ins: seq<Input>, k: nat)
    requires |cs| == |ins| + 1 && k < |ins|
  {
    OffTimeEffect(cs[k], ins[k], cs[k + 1])
  }

  lemma {:induction false} StopIsRemembered(cs: seq<Controller>, ins: seq<Input>, a: nat, k: nat)
    requires |cs| == |ins| + 1 && a < k <= |ins| && (forall j | 0 <= j < |ins| :: OffTimeAt(cs, ins, j))
    requires Stops(cs[a], cs[a + 1]) && forall j | a < j <= k :: !cs[j].burner
    ensures cs[k].burnerStop == Counter(ins[a].at)
    decreases k - a
  {
    assert OffTimeAt(cs, ins, k - 1);
    if k > a + 1 { StopIsRemembered(cs, ins, a, k - 1); }
  }

  /**
   In every mode: from the moment the burner goes off to the next start at least
   the minimum off time passes, in seconds rounded up as the clock conversion does.
   */
  lemma BurnerStaysOffLongEnough(cs: seq<Controller>, ins: seq<Input>, a: nat, b: nat)
    requires Run(cs, ins) && a < b < |ins|
    requires Stops(cs[a], cs[a + 1]) && (forall j | a < j <= b :: !cs[j].burner) && Starts(cs[b], cs[b + 1])
    ensures I2S(ins[b].at - ins[a].at) >= ins[b].cfg.minOffTime
  {
    forall k | 0 <= k < |ins| ensures OffTimeAt(cs, ins, k) {
      assert StepAt(cs, ins, k);
      StepHasOffTimeEffect(cs[k], ins[k]);
    }
    StopIsRemembered(cs, ins, a, b);
    assert OffTimeAt(cs, ins, b);
    ElapsedNeverExceedsReal(ins[a].at, ins[b].at);
    RoundingUpIsMonotone(Elapsed(Counter(ins[b].at), Counter(ins[a].at)), ins[b].at - ins[a].at);
  }

  /** Every tick uses the hysteresis `h` and contributes at most `d`, and no 32-bit product or sum overflows. */
  ghost predicate Tuned(ins: seq<Input>, h: int, d: int) {
    && 0 < h && 0 <= d && 8 * h + d < 0x8000_0000
    && forall k | 0 <= k < |ins| :: ins[k].cfg.hysteresis == h && -d <= ins[k].contribution <= d
  }

  ghost predicate DeviationAt(cs: seq<Controller>, ins: seq<Input>, h: int, d: int, k: nat)
    requires |cs| == |ins| + 1 && k < |ins|
  {
    DeviationEffect(cs[k], ins[k], cs[k + 1], h, d)
  }

  lemma {:induction false} DeviationEffects(cs: seq<Controller>, ins: seq<Input>, h: int, d: int, n: nat)
    requires Run(cs, ins) && Tuned(ins, h, d) && n <= |ins|
    ensures forall k | 0 <= k < n :: DeviationAt(cs, ins, h, d, k)
    ensures -8 * h <= cs[n].deviation <= 8 * h
  {
    if n > 0 {
      DeviationEffects(cs, ins, h, d, n - 1);
      assert StepAt(cs, ins, n - 1);
      StepHasDeviationEffect(cs[n - 1], ins[n - 1], h, d);
      assert DeviationAt(cs, ins, h, d, n - 1);
    }
  }

  /** The deviation integral stays within eight times the hysteresis. */
  lemma DeviationIsBounded(cs: seq<Controller>, ins: seq<Input>, h: int, d: int, n: nat)
    requires Run(cs, ins) && Tuned(ins, h, d) && n <= |ins|
    ensures -8 * h <= cs[n].deviation <= 8 * h
  {
    DeviationEffects(cs, ins, h, d, n);
  }

  /** The burner goes off at this tick while the integral is above the positive threshold. */
  ghost predicate StopsForDeviation(c: Controller, i: Input, c': Controller) {
    Heats(i) && Stops(c, c') && c'.deviation > i.cfg.hysteresis
  }

  lemma MulStep(d: int, k: int)
    ensures d * (k + 1) == d * k + d
  {
  }

  /** After `k - a - 1` ticks the integral fell at most that often by `d`, or it was reset in one of them. */
  lemma {:induction false} DeviationFallsSlowly(cs: seq<Controller>, ins: seq<Input>, h: int, d: int, a: nat, k: nat)
    requires Run(cs, ins) && Tuned(ins, h, d) && a < k <= |ins|
    requires (forall j | 0 <= j < |ins| :: DeviationAt(cs, ins, h, d, j)) && cs[a + 1].deviation > h
    ensures cs[k].deviation + d * (k - a - 1) > h || (k > a + 1 && cs[k].deviation + d * (k - a - 2) >= 0)
    decreases k - a
  {
    if k > a + 1 {
      DeviationFallsSlowly(cs, ins, h, d, a, k - 1);
      assert DeviationAt(cs, ins, h, d, k - 1);
      MulStep(d, k - a - 2);
      if k > a + 2 { MulStep(d, k - a - 3); }
      assert 0 <= d * (k - a - 2);
    }
  }

  /**
   After a stop for the deviation, `n` ticks to the next start mean that `n`
   contributions sum to more than twice the hysteresis, or, if the integral was
   reset in between, all but one of them to more than the hysteresis.
   */
  lemma StartsAfterDeviationStopAreFarApart(cs: seq<Controller>, ins: seq<Input>, h: int, d: int, a: nat, b: nat)
    requires Run(cs, ins) && Tuned(ins, h, d) && a < b < |ins|
    requires StopsForDeviation(cs[a], ins[a], cs[a + 1]) && Starts(cs[b], cs[b + 1])
    requires forall j | a < j <= b :: ins[j].mode != Debug
    ensures d * (b - a) > 2 * h || d * (b - a - 1) > h
    ensures d * (b - a) > h
  {
    DeviationEffects(cs, ins, h, d, |ins|);
    DeviationFallsSlowly(cs, ins, h, d, a, b + 1);
    assert DeviationAt(cs, ins, h, d, b);
    MulStep(d, b - a - 1);
  }

  // ---------------------------------------- when burner and pump go on and off

  predicate Int16(x: int) { -0x8000 <= x < 0x8000 }

  /** By how much a burn that begins with input `i` may exceed its target: what was missing, twice the hysteresis at most. */
  predicate IsExtension(i: Input, ext: int) {
    && ext == (if ToInt16(i.targetFlow - i.flow) > 2 * i.cfg.turnOff then ToInt16(2 * i.cfg.turnOff) else ToInt16(i.targetFlow - i.flow))
    && (Int16(i.targetFlow - i.flow) && Int16(2 * i.cfg.turnOff) ==> ext == Min(i.targetFlow - i.flow, 2 * i.cfg.turnOff))
  }

  lemma ExtensionFits(i: Input)
    ensures IsExtension(i, Extension(i))
  {
    if Int16(i.targetFlow - i.flow) { SmallWord(i.targetFlow - i.flow); }
    if Int16(2 * i.cfg.turnOff) { SmallWord(2 * i.cfg.turnOff); }
  }

  lemma SmallWord(x: int)
    requires Int16(x)
    ensures ToInt16(x) == x
  {
    Remainder16(x, if x < 0 then -1 else 0, if x < 0 then x + 0x1_0000 else x);
  }

  lemma Remainder16(v: int, t: int, low: nat)
    requires v == 0x1_0000 * t + low && low < 0x1_0000
    ensures v % 0x1_0000 == low
  {
  }

  /** What a tick remembers. */
  ghost predicate MemoryEffect(c: Controller, i: Input, c': Controller) {
    && c'.requestStart == (if Starts(c, c') then Counter(i.at) else c.requestStart)
    && c'.extend == (if Starts(c, c') then Extension(i) else c.extend)
    && c'.burnerStop == (if Stops(c, c') then Counter(i.at) else c.burnerStop)
    && c'.circulationStart == (if !c.circulation && c'.circulation then Counter(i.at) else c.circulationStart)
  }

  lemma StepRemembers(c: Controller, i: Input)
    ensures MemoryEffect(c, i, Step(c, i))
  {
  }

  ghost predicate MemoryAt(cs: seq<Controller>, ins: seq<Input>, k: nat)
    requires |cs| == |ins| + 1 && k < |ins|
  {
    MemoryEffect(cs[k], ins[k], cs[k + 1])
  }

  ghost predicate Remembers(cs: seq<Controller>, ins: seq<Input>) {
    |cs| == |ins| + 1 && cs[0] == INITIAL && forall k | 0 <= k < |ins| :: MemoryAt(cs, ins, k)
  }

  lemma RunRemembers(cs: seq<Controller>, ins: seq<Input>)
    requires Run(cs, ins)
    ensures Remembers(cs, ins)
  {
    forall k | 0 <= k < |ins| ensures MemoryAt(cs, ins, k) {
      assert StepAt(cs, ins, k);
      StepRemembers(cs[k], ins[k]);
    }
  }

  /** The burner that burns at `k` was lit by tick `a`. */
  ghost predicate LitBy(cs: seq<Controller>, a: nat, k: nat) {
    a < k < |cs| && Starts(cs[a], cs[a + 1]) && forall i | a < i <= k :: cs[i].burner
  }

  lemma {:induction false} BurnBegan(cs: seq<Controller>, ins: seq<Input>, k: nat) returns (a: nat)
    requires Remembers(cs, ins) && k <= |ins| && cs[k].burner
    ensures LitBy(cs, a, k) && cs[k].requestStart == Counter(ins[a].at) && cs[k].extend == Extension(ins[a])
  {
    assert MemoryAt(cs, ins, k - 1);
    if cs[k - 1].burner { a := BurnBegan(cs, ins, k - 1); } else { a := k - 1; }
  }

  /** The circulation pump that runs at `k` was started by tick `m`. */
  ghost predicate CirculatingBy(cs: seq<Controller>, m: nat, k: nat) {
    m < k < |cs| && !cs[m].circulation && forall i | m < i <= k :: cs[i].circulation
  }

  lemma {:induction false} CirculationBegan(cs: seq<Controller>, ins: seq<Input>, k: nat) returns (m: nat)
    requires Remembers(cs, ins) && k <= |ins| && cs[k].circulation
    ensures CirculatingBy(cs, m, k) && cs[k].circulationStart == Counter(ins[m].at)
  {
    assert MemoryAt(cs, ins, k - 1);
    if cs[k - 1].circulation { m := CirculationBegan(cs, ins, k - 1); } else { m := k - 1; }
  }

  /** The burner has been off since it was put out by tick `a`, or since the beginning. */
  ghost predicate OffSince(cs: seq<Controller>, a: int, k: nat) {
    -1 <= a < k < |cs| && (a >= 0 ==> Stops(cs[a], cs[a + 1])) && forall i | a < i <= k :: !cs[i].burner
  }

  lemma {:induction false} BurnEnded(cs: seq<Controller>, ins: seq<Input>, k: nat) returns (a: int)
    requires Remembers(cs, ins) && k <= |ins| && !cs[k].burner
    ensures OffSince(cs, a, k) && cs[k].burnerStop == if a < 0 then 0x8FF00 else Counter(ins[a].at)
  {
    a := -1;
    if k > 0 {
      assert MemoryAt(cs, ins, k - 1);
      if cs[k - 1].burner { a := k - 1; } else { a := BurnEnded(cs, ins, k - 1); }
    }
  }

  /** Seconds between two ticks as the controller counts them; below one turn of the counter, the real ones. */
  function Seconds(since: nat, now: nat): nat { I2S(Elapsed(Counter(now), Counter(since))) }

  lemma SecondsAreReal(since: nat, now: nat)
    requires since <= now < since + 0x1_0000_0000
    ensures Seconds(since, now) == I2S(now - since)
  {
    ElapsedNeverExceedsReal(since, now);
  }

  ghost predicate Exceeds(temp: int, i: Input, ext: int) { temp - i.targetFlow > i.cfg.turnOff && temp - i.targetFlow > ext }

  /**
   While the controller heats, a burning burner goes off if and only if the flow or the
   burner is too hot for the hysteresis and for the extension of this burn, or the
   integral is above its threshold, or the burner has become hotter than the flow after
   burning and circulating for the set times.
   */
  lemma BurnerStopsIff(cs: seq<Controller>, ins: seq<Input>, k: nat) returns (a: nat, ext: int, circulating: nat)
    requires Run(cs, ins) && k < |ins| && cs[k].burner && ins[k].mode == DayNight && ins[k].targetFlow > ins[k].cfg.minFlowTarget
    ensures LitBy(cs, a, k) && IsExtension(ins[a], ext)
    ensures if cs[k].circulation then exists m: nat :: CirculatingBy(cs, m, k) && circulating == Seconds(ins[m].at, ins[k].at) else circulating == 0
    ensures var i := ins[k];
      !cs[k + 1].burner <==>
        || Exceeds(i.flow, i, ext) || Exceeds(i.burnerTemp, i, ext)
        || (i.cfg.hysteresis != 0 && cs[k + 1].deviation > i.cfg.hysteresis)
        || (i.burnerTemp > i.flow && ToInt16(Seconds(ins[a].at, i.at) - 50) > i.cfg.riseTime && circulating > i.cfg.circulationMinOn)
  {
    RunRemembers(cs, ins);
    a := BurnBegan(cs, ins, k);
    ext := Extension(ins[a]);
    ExtensionFits(ins[a]);
    circulating := 0;
    if cs[k].circulation {
      var m := CirculationBegan(cs, ins, k);
      circulating := Seconds(ins[m].at, ins[k].at);
    }
    assert StepAt(cs, ins, k);
    StopIff(cs[k], ins[k]);
  }

  lemma StopIff(c: Controller, i: Input)
    requires c.burner && Heats(i)
    ensures var c' := Step(c, i);
      !c'.burner <==>
        || Exceeds(i.flow, i, c.extend) || Exceeds(i.burnerTemp, i, c.extend)
        || (i.cfg.hysteresis != 0 && c'.deviation > i.cfg.hysteresis)
        || (i.burnerTemp > i.flow && ToInt16(I2S(Elapsed(Counter(i.at), c.requestStart)) - 50) > i.cfg.riseTime
            && (if c.circulation then I2S(Elapsed(Counter(i.at), c.circulationStart)) else 0) > i.cfg.circulationMinOn)
  {
  }

  /** When the controller does not heat, a burner goes on burning only by the first bit of the slope switch in Debug. */
  lemma BurnerWithoutHeating(cs: seq<Controller>, ins: seq<Input>, k: nat)
    requires Run(cs, ins) && k < |ins| && !(ins[k].mode == DayNight && ins[k].targetFlow > ins[k].cfg.minFlowTarget)
    ensures cs[k].burner ==> (cs[k + 1].burner <==> ins[k].mode == Debug && ins[k].slopeKey % 2 == 1)
  {
    assert StepAt(cs, ins, k);
  }

  /**
   A burner that is off starts if and only if its minimum off time is over and, in Debug,
   the first bit of the slope switch is set or, in DayNight with a target to heat to, the
   flow is too cold (without integral) or the integral is below its threshold.
   */
  lemma BurnerStartsIff(cs: seq<Controller>, ins: seq<Input>, k: nat) returns (a: int)
    requires Run(cs, ins) && k < |ins| && !cs[k].burner
    ensures OffSince(cs, a, k)
    ensures var i := ins[k];
      cs[k + 1].burner <==>
        && I2S(Elapsed(Counter(i.at), if a < 0 then 0x8FF00 else Counter(ins[a].at))) >= i.cfg.minOffTime
        && ((i.mode == Debug && i.slopeKey % 2 == 1) ||
            (i.mode == DayNight && i.targetFlow > i.cfg.minFlowTarget &&
             if i.cfg.hysteresis == 0 then i.flow < i.targetFlow - i.cfg.turnOn else cs[k + 1].deviation < -i.cfg.hysteresis))
  {
    RunRemembers(cs, ins);
    a := BurnEnded(cs, ins, k);
    assert StepAt(cs, ins, k);
  }

  /** When the circulation pump runs after a tick. */
  lemma CirculatesIff(cs: seq<Controller>, ins: seq<Input>, k: nat)
    requires Run(cs, ins) && k < |ins|
    ensures var i := ins[k];
      var hot := i.flow > i.cfg.minCirculation || i.burnerTemp > i.cfg.minCirculation;
      cs[k + 1].circulation <==>
        || (i.mode == Debug && i.slopeKey / 2 % 2 == 1)
        || (i.mode == DayNight && (hot || (cs[k].circulation && i.flow > i.cfg.minCirculation - 100)))
        || (i.mode == DayOff && hot)
  {
    assert StepAt(cs, ins, k);
  }

  /** What a tick makes of the integral, as long as 32 bits hold it. */
  lemma IntegralIs(cs: seq<Controller>, ins: seq<Input>, k: nat)
    requires Run(cs, ins) && k < |ins|
    ensures var i, d, d' := ins[k], cs[k].deviation, cs[k + 1].deviation;
      var h := i.cfg.hysteresis;
      && (i.mode == DayNight && i.targetFlow > i.cfg.minFlowTarget && 0 <= h && 8 * h < 0x8000_0000 && -0x8000_0000 <= d + i.contribution < 0x8000_0000 ==>
          d' == if d + i.contribution > 8 * h then 8 * h else if d + i.contribution < -8 * h then -8 * h else d + i.contribution)
      && (i.mode == DayOff || (i.mode == DayNight && i.targetFlow <= i.cfg.minFlowTarget) ==> d' == 0)
      && (i.mode == Debug || i.mode == Other ==> d' == d)
  {
    assert StepAt(cs, ins, k);
    var i, h := ins[k], ins[k].cfg.hysteresis;
    if 0 <= h && 8 * h < 0x8000_0000 {
      NoOverflow(8 * h);
      NoOverflow(-8 * h);
    }
    if -0x8000_0000 <= cs[k].deviation + i.contribution < 0x8000_0000 { NoOverflow(cs[k].deviation + i.contribution); }
  }
}
