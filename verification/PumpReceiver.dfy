/**
 The greywater pump controller: pumps from a source tank to a target tank that
 reports its level over the bus, and refills with fresh water when the source is
 empty.

 The states below carry real times; the code stores and compares them in the
 32-bit counter, and that is what every comparison here does.
 */
module PumpReceiver {
  import opened Bytes
  import opened Clock

  const FRESH := 3 * FREQUENCY
  const MAX_PUMP_ON := 180 * FREQUENCY
  const MAX_REFILL := 600 * FREQUENCY
  const COOLDOWN := 20 * FREQUENCY

  datatype Mode = Wait | Pump | RefillOnly | RefillPump | Error

  datatype Controller = Controller(
    mode: Mode,
    targetError: bool, targetFull: bool, targetEmpty: bool,
    pumpOn: bool, refillOn: bool,
    pumpOnAt: nat, refillOnAt: nat, dataAt: nat, emptyStopAt: nat,
    fillLevel: byte, sourceEmpty: bool, variance: byte, longVariance: byte
  )

  const INITIAL := Controller(Wait, true, true, false, false, false, 0, 0, 0, 0, 0, false, 0, 0)

  /** Low pass filters of the source level and of its variance, then the hysteresis. */
  function Sensed(c: Controller, level: byte): Controller {
    var before: int := if c.fillLevel == 0 then level else c.fillLevel;
    var deviation: int := if level < before then before - level else level - before;
    var filtered := (3 * before + level) / 4;
    c.(fillLevel := filtered,
       variance := (3 * (c.variance as int) + deviation) / 4,
       longVariance := (15 * (c.longVariance as int) + deviation) / 16,
       sourceEmpty := if c.sourceEmpty then filtered <= 210 else filtered < 205)
  }

  predicate Fresh(c: Controller, now: nat) { Ahead(c.dataAt, FRESH, now) }

  predicate RecentlyEmpty(c: Controller, now: nat) { Ahead(c.emptyStopAt, COOLDOWN, now) }

  predicate Unsteady(c: Controller) { c.variance as int - c.longVariance as int > 10 }

  /** The tick finds the pump running into an empty source. */
  predicate StopsForEmptySource(c: Controller, now: nat) {
    (c.mode == Pump && c.sourceEmpty) ||
    (c.mode == RefillPump && !Behind(c.refillOnAt, MAX_REFILL, now) && (c.sourceEmpty || Unsteady(c)))
  }

  /** The transitions, before the overrides. */
  function Chosen(c: Controller, now: nat): Mode {
    match c.mode
    case Wait => if !c.targetEmpty then Wait else if c.sourceEmpty || RecentlyEmpty(c, now) then RefillOnly else Pump
    case Pump => if c.sourceEmpty || c.targetFull then Wait else if Behind(c.pumpOnAt, MAX_PUMP_ON, now) then Error else Pump
    case RefillOnly =>
      if Behind(c.refillOnAt, MAX_REFILL, now) then Error
      else if !c.sourceEmpty && !RecentlyEmpty(c, now) then RefillPump else RefillOnly
    case RefillPump =>
      if Behind(c.refillOnAt, MAX_REFILL, now) then Error else if c.sourceEmpty || Unsteady(c) then RefillOnly else RefillPump
    case Error => Error
  }

  predicate Overridden(c: Controller, now: nat) { c.targetFull || c.targetError || !Fresh(c, now) }

  function NextMode(c: Controller, now: nat): Mode { if Overridden(c, now) then Wait else Chosen(c, now) }

  predicate PumpRuns(m: Mode) { m == Pump || m == RefillPump }

  predicate Refills(m: Mode) { m == RefillOnly || m == RefillPump }

  function WithOutputs(c: Controller, m: Mode, now: nat): Controller {
    c.(mode := m,
       pumpOn := PumpRuns(m), pumpOnAt := if PumpRuns(m) && !c.pumpOn then now else c.pumpOnAt,
       refillOn := Refills(m), refillOnAt := if Refills(m) && !c.refillOn then now else c.refillOnAt)
  }

  function Ticked(c0: Controller, now: nat, level: byte): Controller {
    var c := Sensed(c0, level);
    WithOutputs(if StopsForEmptySource(c, now) then c.(emptyStopAt := now) else c, NextMode(c, now), now)
  }

  datatype Event =
    | Tick(at: nat, level: byte)
    | Data(at: nat, length: nat, fromTarget: bool, error: bool, full: bool, notEmpty: bool)

  predicate Accepted(e: Event) { e.Data? && e.length >= 1 && e.fromTarget }

  function Step(c: Controller, e: Event): Controller {
    if e.Tick? then Ticked(c, e.at, e.level)
    else if Accepted(e) then c.(targetError := e.error, targetFull := e.full, targetEmpty := !e.notEmpty, dataAt := e.at)
    else c
  }

  class PumpController {
    var mode: Mode
    var targetError: bool
    var targetFull: bool
    var targetEmpty: bool
    var pumpOn: bool
    var refillOn: bool
    var pumpOnTime: systime
    var refillOnTime: systime
    var dataUpdateTime: systime
    var lastEmptyStop: systime
    var fillLevel: byte
    var sourceEmpty: bool
    var variance: byte
    var longVariance: byte
    ghost var pumpOnAt: nat
    ghost var refillOnAt: nat
    ghost var dataAt: nat
    ghost var emptyStopAt: nat
    const targetNode: byte

    ghost predicate Valid() reads this {
      && pumpOnTime == Counter(pumpOnAt) && refillOnTime == Counter(refillOnAt)
      && dataUpdateTime == Counter(dataAt) && lastEmptyStop == Counter(emptyStopAt)
    }

    ghost function State(): Controller reads this {
      Controller(mode, targetError, targetFull, targetEmpty, pumpOn, refillOn, pumpOnAt, refillOnAt, dataAt, emptyStopAt,
                 fillLevel, sourceEmpty, variance, longVariance)
    }

    constructor (targetNode: byte)
      ensures Valid() && State() == INITIAL && this.targetNode == targetNode
    {
      this.targetNode := targetNode;
      mode, targetError, targetFull, targetEmpty, pumpOn, refillOn := Wait, true, true, false, false, false;
      pumpOnTime, refillOnTime, dataUpdateTime, lastEmptyStop := 0, 0, 0, 0;
      pumpOnAt, refillOnAt, dataAt, emptyStopAt := 0, 0, 0, 0;
      fillLevel, sourceEmpty, variance, longVariance := 0, false, 0, 0;
    }

    method SetOutputs(pump: bool, refill: bool, now: systime, ghost at: nat)
      requires Valid() && now == Counter(at)
      modifies this`pumpOn, this`refillOn, this`pumpOnTime, this`refillOnTime, this`pumpOnAt, this`refillOnAt
      ensures Valid()
      ensures pumpOn == pump && refillOn == refill
      ensures pumpOnAt == (if pump && !old(pumpOn) then at else old(pumpOnAt))
      ensures refillOnAt == (if refill && !old(refillOn) then at else old(refillOnAt))
    {
      if pump && !pumpOn {
        pumpOnTime, pumpOnAt := now, at;
      }
      pumpOn := pump;
      if refill && !refillOn {
        refillOnTime, refillOnAt := now, at;
      }
      refillOn := refill;
    }

    method Sense(level: byte)
      requires Valid()
      modifies this`fillLevel, this`variance, this`longVariance, this`sourceEmpty
      ensures Valid() && State() == Sensed(old(State()), level)
    {
      if fillLevel == 0 {
        fillLevel := level;
      }
      var deviation: int := if level < fillLevel then fillLevel - level else level - fillLevel;
      fillLevel := (3 * (fillLevel as int) + level as int) / 4;
      variance := (3 * (variance as int) + deviation) / 4;
      longVariance := (15 * (longVariance as int) + deviation) / 16;
      if sourceEmpty && fillLevel > 210 {
        sourceEmpty := false;
      } else if !sourceEmpty && fillLevel < 205 {
        sourceEmpty := true;
      }
    }

    /** The state transitions and the overrides. */
    method Decide(now: systime, ghost at: nat) returns (next: Mode)
      requires Valid() && now == Counter(at)
      modifies this`lastEmptyStop, this`emptyStopAt
      ensures Valid() && next == NextMode(old(State()), at)
      ensures emptyStopAt == if StopsForEmptySource(old(State()), at) then at else old(emptyStopAt)
    {
      next := mode;
      var recentlyEmpty := Sum(lastEmptyStop, COOLDOWN) > now;
      match mode {
        case Wait =>
          if targetEmpty {
            next := if sourceEmpty || recentlyEmpty then RefillOnly else Pump;
          }
        case Pump =>
          if sourceEmpty {
            lastEmptyStop, emptyStopAt := now, at;
            next := Wait;
          } else if targetFull {
            next := Wait;
          } else if Sum(pumpOnTime, MAX_PUMP_ON) < now {
            next := Error;
          }
        case RefillOnly =>
          if Sum(refillOnTime, MAX_REFILL) < now {
            next := Error;
          } else if !sourceEmpty && !recentlyEmpty {
            next := RefillPump;
          }
        case RefillPump =>
          if Sum(refillOnTime, MAX_REFILL) < now {
            next := Error;
          } else if sourceEmpty || (variance > longVariance && variance - longVariance > 10) {
            lastEmptyStop, emptyStopAt := now, at;
            next := RefillOnly;
          }
        case Error =>
      }
      if targetFull || targetError || !(Sum(dataUpdateTime, FRESH) > now) {
        next := Wait;
      }
    }

    method Enter(next: Mode, now: systime, ghost at: nat)
      requires Valid() && now == Counter(at)
      modifies this`mode, this`pumpOn, this`refillOn, this`pumpOnTime, this`refillOnTime, this`pumpOnAt, this`refillOnAt
      ensures Valid() && State() == WithOutputs(old(State()), next, at)
    {
      mode := next;
      match mode {
        case Wait => SetOutputs(false, false, now, at);
        case Pump => SetOutputs(true, false, now, at);
        case RefillOnly => SetOutputs(false, true, now, at);
        case RefillPump => SetOutputs(true, true, now, at);
        case Error => SetOutputs(false, false, now, at);
      }
    }

    method Tick(now: systime, level: byte, ghost at: nat)
      requires Valid() && now == Counter(at)
      modifies this
      ensures Valid() && State() == Ticked(old(State()), at, level)
    {
      Sense(level);
      var next := Decide(now, at);
      Enter(next, now, at);
    }

    method OnConductionSensorData(length: nat, source: byte, error: bool, full: bool, notEmpty: bool, now: systime, ghost at: nat)
      requires Valid() && now == Counter(at)
      modifies this
      ensures Valid() && State() == Step(old(State()), Data(at, length, source == targetNode, error, full, notEmpty))
      ensures State() == if length >= 1 && source == targetNode
        then old(State()).(targetError := error, targetFull := full, targetEmpty := !notEmpty, dataAt := at) else old(State())
    {
      if length < 1 {
        return;
      }
      if source != targetNode {
        return;
      }
      targetError := error;
      targetFull := full;
      targetEmpty := !notEmpty;
      dataUpdateTime, dataAt := now, at;
    }
  }

  // ---------------------------------------------------------------- one step

  ghost predicate Consistent(c: Controller) {
    c.pumpOn == PumpRuns(c.mode) && c.refillOn == Refills(c.mode) && (c.mode == RefillPump ==> c.refillOnAt <= c.pumpOnAt)
  }

  /** What a tick of the code guarantees, in terms of its own comparisons. */
  ghost predicate TickEffect(c: Controller, t: nat, level: byte, c': Controller) {
    && c'.targetError == c.targetError && c'.targetFull == c.targetFull && c'.targetEmpty == c.targetEmpty && c'.dataAt == c.dataAt
    && c'.pumpOn == PumpRuns(c'.mode) && c'.refillOn == Refills(c'.mode)
    && c'.pumpOnAt == (if c'.pumpOn && !c.pumpOn then t else c.pumpOnAt)
    && c'.refillOnAt == (if c'.refillOn && !c.refillOn then t else c.refillOnAt)
    && c'.emptyStopAt == (if StopsForEmptySource(Sensed(c, level), t) then t else c.emptyStopAt)
    && (c'.pumpOn || c'.refillOn ==> !Overridden(c, t))
    && (c'.mode == Pump && c.pumpOn ==> !Behind(c.pumpOnAt, MAX_PUMP_ON, t))
    && (c'.refillOn && c.refillOn ==> !Behind(c.refillOnAt, MAX_REFILL, t))
    && (c'.mode == RefillPump ==> c.refillOn)
    && (c'.mode == Pump ==> !c.refillOn)
    && (c'.pumpOn && !c.pumpOn ==> !RecentlyEmpty(c, t))
    && (c'.pumpOn ==> !c'.sourceEmpty)
    && (StopsForEmptySource(Sensed(c, level), t) ==> !c'.pumpOn)
  }

  lemma ModeDecides(c: Controller, t: nat)
    requires Consistent(c)
    ensures var m := NextMode(c, t);
      && (PumpRuns(m) || Refills(m) ==> !Overridden(c, t))
      && (m == Pump && c.pumpOn ==> !Behind(c.pumpOnAt, MAX_PUMP_ON, t))
      && (Refills(m) && c.refillOn ==> !Behind(c.refillOnAt, MAX_REFILL, t))
      && (m == RefillPump ==> c.refillOn)
      && (m == Pump ==> !c.refillOn)
      && (PumpRuns(m) && !c.pumpOn ==> !RecentlyEmpty(c, t))
      && (PumpRuns(m) ==> !c.sourceEmpty)
      && (StopsForEmptySource(c, t) ==> !PumpRuns(m))
  {
  }

  /** The filters change what the controller knows of the source, and nothing else. */
  lemma SensedKeeps(c: Controller, level: byte)
    ensures var d := Sensed(c, level);
      d == c.(fillLevel := d.fillLevel, variance := d.variance, longVariance := d.longVariance, sourceEmpty := d.sourceEmpty)
  {
  }

  lemma TickHasEffect(c: Controller, t: nat, level: byte)
    requires Consistent(c)
    ensures TickEffect(c, t, level, Ticked(c, t, level))
  {
    SensedKeeps(c, level);
    ModeDecides(Sensed(c, level), t);
  }

  // ------------------------------------------- exactly when one tick breaks a limit

  /** An output on although the last report is 3 s old or older. */
  lemma StaleOutputIff(c: Controller, t: nat, level: byte)
    requires Consistent(c)
    ensures var d, c' := Sensed(c, level), Ticked(c, t, level);
      (c'.pumpOn || c'.refillOn) && c.dataAt + FRESH <= t <==>
        LooksAhead(c.dataAt + FRESH, t) && !c.targetError && !c.targetFull && (PumpRuns(Chosen(d, t)) || Refills(Chosen(d, t)))
  {
    SensedKeeps(c, level);
    ComparisonErrsIff(c.dataAt, FRESH, t);
  }

  /** The pump kept on in mode Pump more than 180 s after its start. */
  lemma PumpOverrunIff(c: Controller, t: nat, level: byte)
    requires Consistent(c)
    ensures var d, c' := Sensed(c, level), Ticked(c, t, level);
      c.pumpOn && c'.mode == Pump && c.pumpOnAt + MAX_PUMP_ON < t <==>
        LooksNotOver(c.pumpOnAt + MAX_PUMP_ON, t) && c.mode == Pump && !d.sourceEmpty && !Overridden(c, t)
  {
    SensedKeeps(c, level);
    ComparisonErrsIff(c.pumpOnAt, MAX_PUMP_ON, t);
  }

  /** The valve kept open more than 600 s after it was opened. */
  lemma RefillOverrunIff(c: Controller, t: nat, level: byte)
    requires Consistent(c)
    ensures var c' := Ticked(c, t, level);
      c.refillOn && c'.refillOn && c.refillOnAt + MAX_REFILL < t <==>
        LooksNotOver(c.refillOnAt + MAX_REFILL, t) && Refills(c.mode) && !Overridden(c, t)
  {
    SensedKeeps(c, level);
    ComparisonErrsIff(c.refillOnAt, MAX_REFILL, t);
  }

  /** The pump started less than 20 s after a stop for an empty source. */
  lemma CooldownBreachIff(c: Controller, t: nat, level: byte)
    requires Consistent(c)
    ensures var d, c' := Sensed(c, level), Ticked(c, t, level);
      !c.pumpOn && c'.pumpOn && t < c.emptyStopAt + COOLDOWN <==>
        && LooksOver(c.emptyStopAt + COOLDOWN, t) && !d.sourceEmpty && !Overridden(c, t)
        && ((c.mode == Wait && c.targetEmpty) || (c.mode == RefillOnly && !Behind(c.refillOnAt, MAX_REFILL, t)))
  {
    SensedKeeps(c, level);
    ComparisonErrsIff(c.emptyStopAt, COOLDOWN, t);
  }

  // --------------------------------------------------------------- whole runs

  ghost predicate StepAt(cs: seq<Controller>, es: seq<Event>, i: nat)
    requires |cs| == |es| + 1 && i < |es|
  {
    cs[i + 1] == Step(cs[i], es[i])
  }

  ghost predicate Ordered(es: seq<Event>) { forall i, j | 0 <= i <= j < |es| :: es[i].at <= es[j].at }

  /** Whatever the code does, for whatever time: nothing is assumed about the counter. */
  ghost predicate Run(cs: seq<Controller>, es: seq<Event>) {
    |cs| == |es| + 1 && cs[0] == INITIAL && Ordered(es) && forall i | 0 <= i < |es| :: StepAt(cs, es, i)
  }

  ghost predicate TimersPast(c: Controller, t: nat) {
    c.pumpOnAt <= t && c.refillOnAt <= t && c.dataAt <= t && c.emptyStopAt <= t
  }

  /** Step `i` in terms of its effect. */
  ghost predicate EffectAt(cs: seq<Controller>, es: seq<Event>, i: nat)
    requires |cs| == |es| + 1 && i < |es|
  {
    var c, e, c' := cs[i], es[i], cs[i + 1];
    && Consistent(c) && TimersPast(c, e.at) && Consistent(c')
    && if e.Tick? then TickEffect(c, e.at, e.level, c')
       else c' == if Accepted(e) then c.(targetError := e.error, targetFull := e.full, targetEmpty := !e.notEmpty, dataAt := e.at) else c
  }

  ghost predicate Effects(cs: seq<Controller>, es: seq<Event>) {
    |cs| == |es| + 1 && cs[0] == INITIAL && forall i | 0 <= i < |es| :: EffectAt(cs, es, i)
  }

  lemma StepHasEffect(cs: seq<Controller>, es: seq<Event>, i: nat)
    requires |cs| == |es| + 1 && i < |es| && StepAt(cs, es, i)
    requires Consistent(cs[i]) && TimersPast(cs[i], es[i].at)
    ensures EffectAt(cs, es, i)
  {
    if es[i].Tick? { TickHasEffect(cs[i], es[i].at, es[i].level); }
  }

  lemma {:induction false} EffectsUpTo(cs: seq<Controller>, es: seq<Event>, n: nat)
    requires Run(cs, es) && n <= |es|
    ensures forall i | 0 <= i < n :: EffectAt(cs, es, i)
    ensures Consistent(cs[n]) && forall t | (forall i | 0 <= i < n :: es[i].at <= t) :: TimersPast(cs[n], t)
  {
    if n > 0 {
      EffectsUpTo(cs, es, n - 1);
      assert StepAt(cs, es, n - 1);
      StepHasEffect(cs, es, n - 1);
    }
  }

  lemma RunHasEffects(cs: seq<Controller>, es: seq<Event>)
    requires Run(cs, es)
    ensures Effects(cs, es)
  {
    EffectsUpTo(cs, es, |es|);
  }

  lemma {:induction false} PumpStart(cs: seq<Controller>, es: seq<Event>, n: nat) returns (j: nat)
    requires Effects(cs, es) && n <= |es| && cs[n].pumpOn
    ensures j < n && es[j].Tick? && es[j].at == cs[n].pumpOnAt
    ensures !cs[j].pumpOn && forall i | j < i <= n :: cs[i].pumpOn
  {
    assert EffectAt(cs, es, n - 1);
    if cs[n - 1].pumpOn { j := PumpStart(cs, es, n - 1); } else { j := n - 1; }
  }

  lemma {:induction false} RefillStart(cs: seq<Controller>, es: seq<Event>, n: nat) returns (j: nat)
    requires Effects(cs, es) && n <= |es| && cs[n].refillOn
    ensures j < n && es[j].Tick? && es[j].at == cs[n].refillOnAt
    ensures !cs[j].refillOn && forall i | j < i <= n :: cs[i].refillOn
  {
    assert EffectAt(cs, es, n - 1);
    if cs[n - 1].refillOn { j := RefillStart(cs, es, n - 1); } else { j := n - 1; }
  }

  /** The start of the current stretch of the pump, or of the valve. */
  ghost predicate PumpSince(cs: seq<Controller>, es: seq<Event>, j: nat, n: nat)
    requires |cs| == |es| + 1 && n < |es|
  {
    j <= n && es[j].Tick? && !cs[j].pumpOn && forall i | j < i <= n + 1 :: cs[i].pumpOn
  }

  ghost predicate ValveSince(cs: seq<Controller>, es: seq<Event>, j: nat, n: nat)
    requires |cs| == |es| + 1 && n < |es|
  {
    j <= n && es[j].Tick? && !cs[j].refillOn && forall i | j < i <= n + 1 :: cs[i].refillOn
  }

  /**
   After every tick in mode Pump: the pump started at most 180 s ago, if and only
   if the counter does not make that one deadline look as if it were still ahead.
   */
  lemma PumpRunsAreShort(cs: seq<Controller>, es: seq<Event>, n: nat) returns (j: nat)
    requires Run(cs, es) && n < |es| && es[n].Tick? && cs[n + 1].mode == Pump
    ensures PumpSince(cs, es, j, n)
    ensures es[n].at - es[j].at <= MAX_PUMP_ON <==> !LooksNotOver(es[j].at + MAX_PUMP_ON, es[n].at)
  {
    RunHasEffects(cs, es);
    assert EffectAt(cs, es, n);
    j := PumpStart(cs, es, n + 1);
    ComparisonErrsIff(es[j].at, MAX_PUMP_ON, es[n].at);
  }

  /** The same for the valve and its 600 s, in both modes that refill. */
  lemma RefillRunsAreShort(cs: seq<Controller>, es: seq<Event>, n: nat) returns (r: nat)
    requires Run(cs, es) && n < |es| && es[n].Tick? && cs[n + 1].refillOn
    ensures ValveSince(cs, es, r, n) && es[r].at == cs[n + 1].refillOnAt
    ensures es[n].at - es[r].at <= MAX_REFILL <==> !LooksNotOver(es[r].at + MAX_REFILL, es[n].at)
  {
    RunHasEffects(cs, es);
    assert EffectAt(cs, es, n);
    r := RefillStart(cs, es, n + 1);
    ComparisonErrsIff(es[r].at, MAX_REFILL, es[n].at);
  }

  /** While refilling the pump never runs for longer than the valve has been open, so 600 s bound it too. */
  lemma PumpRunsWithinRefill(cs: seq<Controller>, es: seq<Event>, n: nat) returns (j: nat, r: nat)
    requires Run(cs, es) && n < |es| && es[n].Tick? && cs[n + 1].mode == RefillPump
    ensures PumpSince(cs, es, j, n) && ValveSince(cs, es, r, n) && es[r].at <= es[j].at
    ensures !LooksNotOver(es[r].at + MAX_REFILL, es[n].at) ==> es[n].at - es[j].at <= MAX_REFILL
  {
    RunHasEffects(cs, es);
    assert EffectAt(cs, es, n);
    j := PumpStart(cs, es, n + 1);
    r := RefillRunsAreShort(cs, es, n);
  }

  ghost predicate Believes(c: Controller, e: Event) {
    Accepted(e) && c.targetError == e.error && c.targetFull == e.full && c.targetEmpty == !e.notEmpty && c.dataAt == e.at
  }

  /** What the controller believes about the target is its last accepted report, if there was one. */
  lemma {:induction false} LastReport(cs: seq<Controller>, es: seq<Event>, n: nat) returns (d: int)
    requires Effects(cs, es) && n <= |es|
    ensures -1 <= d < n && forall i | d < i < n :: !Accepted(es[i])
    ensures if d < 0 then cs[n].targetError else Believes(cs[n], es[d])
  {
    d := -1;
    if n > 0 {
      assert EffectAt(cs, es, n - 1);
      if Accepted(es[n - 1]) { d := n - 1; } else { d := LastReport(cs, es, n - 1); }
    }
  }

  /**
   After every tick: an output is on only on the word of a last report without error
   and not full; it is less than 3 s old if and only if the counter does not make
   its expiry look as if it were still ahead.
   */
  lemma OutputsNeedFreshGoodData(cs: seq<Controller>, es: seq<Event>, n: nat) returns (d: nat)
    requires Run(cs, es) && n < |es| && es[n].Tick? && (cs[n + 1].pumpOn || cs[n + 1].refillOn)
    ensures d < n && Accepted(es[d]) && !es[d].error && !es[d].full && forall i | d < i < n :: !Accepted(es[i])
    ensures es[n].at - es[d].at < FRESH <==> !LooksAhead(es[d].at + FRESH, es[n].at)
  {
    RunHasEffects(cs, es);
    assert EffectAt(cs, es, n);
    var r := LastReport(cs, es, n);
    d := r;
    ComparisonErrsIff(es[d].at, FRESH, es[n].at);
  }

  /** After every tick of every run: the pump does not run on a source that the filtered level calls empty. */
  lemma PumpNeverRunsDry(cs: seq<Controller>, es: seq<Event>, n: nat)
    requires Run(cs, es) && n < |es| && es[n].Tick? && cs[n + 1].pumpOn
    ensures !cs[n + 1].sourceEmpty
  {
    RunHasEffects(cs, es);
    assert EffectAt(cs, es, n);
  }

  /** Tick `i` stops the pump, or keeps it from running, because the source is empty. */
  ghost predicate EmptyStop(cs: seq<Controller>, es: seq<Event>, i: nat)
    requires |cs| == |es| + 1 && i < |es|
  {
    es[i].Tick? && StopsForEmptySource(Sensed(cs[i], es[i].level), es[i].at)
  }

  lemma {:induction false} LastEmptyStop(cs: seq<Controller>, es: seq<Event>, j: nat, k: nat) returns (m: nat)
    requires Effects(cs, es) && j < k <= |es| && EmptyStop(cs, es, j)
    ensures j <= m < k && EmptyStop(cs, es, m) && forall i | m < i < k :: !EmptyStop(cs, es, i)
    ensures cs[k].emptyStopAt == es[m].at && !cs[m + 1].pumpOn
    decreases k - j
  {
    assert EffectAt(cs, es, k - 1);
    if EmptyStop(cs, es, k - 1) { m := k - 1; } else { m := LastEmptyStop(cs, es, j, k - 1); }
  }

  /**
   A pump start comes at least 20 s after the last stop for an empty source, if and
   only if the counter does not make the end of that time look as if it were over;
   and then at least 20 s after every earlier such stop.
   */
  lemma CooldownAfterEmptySource(cs: seq<Controller>, es: seq<Event>, j: nat, k: nat) returns (m: nat)
    requires Run(cs, es) && j < k < |es| && EmptyStop(cs, es, j) && !cs[k].pumpOn && cs[k + 1].pumpOn
    ensures j <= m < k && EmptyStop(cs, es, m) && !cs[m + 1].pumpOn && forall i | m < i < k :: !EmptyStop(cs, es, i)
    ensures es[k].at - es[m].at >= COOLDOWN <==> !LooksOver(es[m].at + COOLDOWN, es[k].at)
    ensures !LooksOver(es[m].at + COOLDOWN, es[k].at) ==> es[k].at - es[j].at >= COOLDOWN
  {
    RunHasEffects(cs, es);
    m := LastEmptyStop(cs, es, j, k);
    assert EffectAt(cs, es, k);
    ComparisonErrsIff(es[m].at, COOLDOWN, es[k].at);
  }

  // -------------------------------------------------------------- transitions

  /** `d` is the last accepted report before `n`; it is good, and its 3 s look as if they were not over. */
  ghost predicate FitReport(es: seq<Event>, d: nat, n: nat)
    requires n < |es|
  {
    && d < n && Accepted(es[d]) && (forall i | d < i < n :: !Accepted(es[i]))
    && !es[d].error && !es[d].full && Ahead(es[d].at, FRESH, es[n].at)
  }

  /** The controller may work at event `n`, for all the target has reported. */
  ghost predicate Fit(es: seq<Event>, n: nat)
    requires n < |es|
  {
    exists d: nat :: FitReport(es, d, n)
  }

  /** And the target is empty. */
  ghost predicate Wanted(es: seq<Event>, n: nat)
    requires n < |es|
  {
    exists d: nat :: FitReport(es, d, n) && !es[d].notEmpty
  }

  lemma OneFitReport(es: seq<Event>, d: nat, e: nat, n: nat)
    requires n < |es| && FitReport(es, d, n) && FitReport(es, e, n)
    ensures d == e
  {
  }

  lemma FitIff(cs: seq<Controller>, es: seq<Event>, n: nat)
    requires Effects(cs, es) && n < |es|
    ensures Fit(es, n) <==> !Overridden(cs[n], es[n].at)
    ensures Fit(es, n) ==> (Wanted(es, n) <==> cs[n].targetEmpty)
    ensures Wanted(es, n) ==> Fit(es, n)
  {
    var d := LastReport(cs, es, n);
    if d >= 0 && !Overridden(cs[n], es[n].at) { assert FitReport(es, d, n); }
    if e: nat :| FitReport(es, e, n) {
      assert d == e;
      if f: nat :| FitReport(es, f, n) && !es[f].notEmpty { OneFitReport(es, e, f, n); }
    }
  }

  /** Before the counter's first wrap a report is fit for exactly three seconds. */
  lemma FitInRealTime(es: seq<Event>, n: nat)
    requires n < |es| && es[n].at + FRESH < 0x1_0000_0000 && Ordered(es)
    ensures Fit(es, n) <==> exists d: nat :: d < n && LastGoodReport(es, d, n) && es[n].at - es[d].at < FRESH
  {
    forall d: nat | d < n ensures Ahead(es[d].at, FRESH, es[n].at) <==> es[n].at - es[d].at < FRESH {
      ComparisonErrsIff(es[d].at, FRESH, es[n].at);
      NothingErrsBeforeWrap(es[d].at + FRESH, es[n].at);
    }
    if d: nat :| FitReport(es, d, n) { assert LastGoodReport(es, d, n); }
    if d: nat :| d < n && LastGoodReport(es, d, n) && es[n].at - es[d].at < FRESH { assert FitReport(es, d, n); }
  }

  ghost predicate LastGoodReport(es: seq<Event>, d: nat, n: nat)
    requires d < n < |es|
  {
    Accepted(es[d]) && !es[d].error && !es[d].full && forall i | d < i < n :: !Accepted(es[i])
  }

  /** What a tick makes of each mode; `e` and `u` say that the source is empty and unsteady now. */
  ghost predicate Transition(c: Controller, t: nat, fit: bool, wanted: bool, e: bool, u: bool, m: Mode) {
    if !fit then m == Wait
    else match c.mode
      case Wait =>
        && (m == Pump <==> wanted && !e && !Ahead(c.emptyStopAt, COOLDOWN, t))
        && (m == RefillOnly <==> wanted && (e || Ahead(c.emptyStopAt, COOLDOWN, t)))
        && (m == Wait <==> !wanted)
      case Pump =>
        && (m == Wait <==> e)
        && (m == Error <==> !e && Behind(c.pumpOnAt, MAX_PUMP_ON, t))
        && (m == Pump <==> !e && !Behind(c.pumpOnAt, MAX_PUMP_ON, t))
      case RefillOnly =>
        && (m == Error <==> Behind(c.refillOnAt, MAX_REFILL, t))
        && (m == RefillPump <==> !Behind(c.refillOnAt, MAX_REFILL, t) && !e && !Ahead(c.emptyStopAt, COOLDOWN, t))
        && (m == RefillOnly <==> !Behind(c.refillOnAt, MAX_REFILL, t) && (e || Ahead(c.emptyStopAt, COOLDOWN, t)))
      case RefillPump =>
        && (m == Error <==> Behind(c.refillOnAt, MAX_REFILL, t))
        && (m == RefillOnly <==> !Behind(c.refillOnAt, MAX_REFILL, t) && (e || u))
        && (m == RefillPump <==> !Behind(c.refillOnAt, MAX_REFILL, t) && !e && !u)
      case Error => m == Error
  }

  lemma NextModeIsTransition(c: Controller, t: nat)
    ensures Transition(c, t, !Overridden(c, t), c.targetEmpty, c.sourceEmpty, Unsteady(c), NextMode(c, t))
  {
  }

  lemma TickIsTransition(c: Controller, t: nat, level: byte)
    ensures var c' := Ticked(c, t, level);
      Transition(c, t, !Overridden(c, t), c.targetEmpty, c'.sourceEmpty, c'.variance as int - c'.longVariance as int > 10, c'.mode)
  {
    SensedKeeps(c, level);
    NextModeIsTransition(Sensed(c, level), t);
  }

  /** In every run each tick takes the transition its reports, its source and its timers call for, and no other. */
  lemma EveryTickIsTransition(cs: seq<Controller>, es: seq<Event>, n: nat)
    requires Run(cs, es) && n < |es| && es[n].Tick?
    ensures var c' := cs[n + 1];
      Transition(cs[n], es[n].at, Fit(es, n), Wanted(es, n), c'.sourceEmpty, c'.variance as int - c'.longVariance as int > 10, c'.mode)
      && c'.pumpOn == (c'.mode == Pump || c'.mode == RefillPump) && c'.refillOn == (c'.mode == RefillOnly || c'.mode == RefillPump)
  {
    RunHasEffects(cs, es);
    FitIff(cs, es, n);
    assert StepAt(cs, es, n) && EffectAt(cs, es, n);
    TickIsTransition(cs[n], es[n].at, es[n].level);
  }

  /** A tick leaves the error state if and only if the target is not fit, and then for the waiting state; both outputs are off either way. */
  lemma ErrorIsLeftIff(cs: seq<Controller>, es: seq<Event>, n: nat)
    requires Run(cs, es) && n < |es| && es[n].Tick? && cs[n].mode == Error
    ensures cs[n + 1].mode != Error <==> !Fit(es, n)
    ensures cs[n + 1].mode != Error ==> cs[n + 1].mode == Wait
    ensures !cs[n + 1].pumpOn && !cs[n + 1].refillOn
  {
    EveryTickIsTransition(cs, es, n);
  }

  /** Between an overrun and the next start of the pump or the valve lies a tick that finds the target not fit. */
  lemma {:induction false} ErrorUntilUnfit(cs: seq<Controller>, es: seq<Event>, a: nat, b: nat) returns (n: nat)
    requires Run(cs, es) && a <= b <= |es| && cs[a].mode == Error && cs[b].mode != Error
    ensures a <= n < b && es[n].Tick? && !Fit(es, n) && cs[n + 1].mode == Wait
    ensures forall i | a <= i <= n :: cs[i].mode == Error && !cs[i].pumpOn && !cs[i].refillOn
    decreases b - a
  {
    RunHasEffects(cs, es);
    assert EffectAt(cs, es, a);
    if es[a].Tick? && !Fit(es, a) {
      ErrorIsLeftIff(cs, es, a);
      n := a;
    } else {
      if es[a].Tick? { ErrorIsLeftIff(cs, es, a); }
      n := ErrorUntilUnfit(cs, es, a + 1, b);
    }
  }

  // ------------------------------------------------------------------ the source

  /** At tick `i` the filtered level fell below 205, and at no tick from then on did it pass 210. */
  ghost predicate LowSince(cs: seq<Controller>, es: seq<Event>, i: nat, n: nat)
    requires |cs| == |es| + 1 && n <= |es|
  {
    i < n && es[i].Tick? && cs[i + 1].fillLevel < 205 && forall k | i <= k < n && es[k].Tick? :: cs[k + 1].fillLevel <= 210
  }

  lemma TickJudgesSource(c: Controller, t: nat, level: byte)
    ensures var c' := Ticked(c, t, level);
      c'.sourceEmpty <==> c'.fillLevel < 205 || (c.sourceEmpty && c'.fillLevel <= 210)
  {
    SensedKeeps(c, level);
  }

  /** In every run the source counts as empty exactly from a filtered level below 205 until one above 210. */
  lemma {:induction false} SourceIsEmptyIff(cs: seq<Controller>, es: seq<Event>, n: nat)
    requires Run(cs, es) && n <= |es|
    ensures cs[n].sourceEmpty <==> exists i: nat :: LowSince(cs, es, i, n)
  {
    if n > 0 {
      var m := n - 1;
      SourceIsEmptyIff(cs, es, m);
      assert StepAt(cs, es, m);
      if es[m].Tick? {
        TickJudgesSource(cs[m], es[m].at, es[m].level);
        if cs[n].fillLevel < 205 { assert LowSince(cs, es, m, n); }
      }
      if i: nat :| LowSince(cs, es, i, m) {
        if es[m].Tick? ==> cs[n].fillLevel <= 210 { assert LowSince(cs, es, i, n); }
      }
      if i: nat :| LowSince(cs, es, i, n) {
        if i < m { assert LowSince(cs, es, i, m); }
      }
    }
  }

  /** A filter went from `before` to `after` towards `aim`: a quarter of the way, rounded so that it falls sooner than it rises. */
  predicate QuarterWay(before: int, aim: int, after: int) {
    if aim <= before then after - aim == 3 * (before - aim) / 4 else aim - after == (3 * (aim - before) + 3) / 4
  }

  predicate SixteenthWay(before: int, aim: int, after: int) {
    if aim <= before then after - aim == 15 * (before - aim) / 16 else aim - after == (15 * (aim - before) + 15) / 16
  }

  lemma QuarterFilter(at: int, aim: int)
    ensures QuarterWay(at, aim, (3 * at + aim) / 4)
  {
  }

  lemma SixteenthFilter(at: int, aim: int)
    ensures SixteenthWay(at, aim, (15 * at + aim) / 16)
  {
  }

  function Before(c: Controller, level: byte): int { if c.fillLevel == 0 then level else c.fillLevel }

  function Jump(c: Controller, level: byte): int {
    if level as int < Before(c, level) then Before(c, level) - level as int else level as int - Before(c, level)
  }

  lemma SensedFilters(c: Controller, level: byte)
    ensures var d := Sensed(c, level);
      && d.fillLevel as int == (3 * Before(c, level) + level as int) / 4
      && d.variance as int == (3 * (c.variance as int) + Jump(c, level)) / 4
      && d.longVariance as int == (15 * (c.longVariance as int) + Jump(c, level)) / 16
  {
  }

  lemma SensedFollows(c: Controller, level: byte)
    ensures var d := Sensed(c, level);
      && QuarterWay(Before(c, level), level as int, d.fillLevel as int)
      && QuarterWay(c.variance as int, Jump(c, level), d.variance as int)
      && SixteenthWay(c.longVariance as int, Jump(c, level), d.longVariance as int)
  {
    SensedFilters(c, level);
    QuarterFilter(Before(c, level), level as int);
    QuarterFilter(c.variance as int, Jump(c, level));
    SixteenthFilter(c.longVariance as int, Jump(c, level));
  }

  /** The level follows the level read, and the two variances follow its distance from the filtered level; none overshoots. */
  lemma FiltersFollow(c: Controller, t: nat, level: byte)
    ensures var c' := Ticked(c, t, level);
      && QuarterWay(Before(c, level), level as int, c'.fillLevel as int)
      && QuarterWay(c.variance as int, Jump(c, level), c'.variance as int)
      && SixteenthWay(c.longVariance as int, Jump(c, level), c'.longVariance as int)
  {
    SensedKeeps(c, level);
    SensedFollows(c, level);
  }

  /** Until 20 s before the counter's first wrap, 119 hours after reset, no comparison errs and every limit holds. */
  lemma LimitsHoldBeforeWrap(cs: seq<Controller>, es: seq<Event>, n: nat)
    requires Run(cs, es) && n < |es| && es[n].Tick? && es[n].at + COOLDOWN < 0x1_0000_0000
    ensures var c, t := cs[n + 1], es[n].at;
      && (c.pumpOn || c.refillOn ==> t < c.dataAt + FRESH)
      && (c.mode == Pump ==> t <= c.pumpOnAt + MAX_PUMP_ON)
      && (c.refillOn ==> t <= c.refillOnAt + MAX_REFILL)
      && (c.pumpOn && !cs[n].pumpOn ==> cs[n].emptyStopAt + COOLDOWN <= t)
  {
    RunHasEffects(cs, es);
    assert EffectAt(cs, es, n);
    var c, t := cs[n], es[n].at;
    ComparisonErrsIff(c.dataAt, FRESH, t);
    ComparisonErrsIff(c.pumpOnAt, MAX_PUMP_ON, t);
    ComparisonErrsIff(c.refillOnAt, MAX_REFILL, t);
    ComparisonErrsIff(c.emptyStopAt, COOLDOWN, t);
    NothingErrsBeforeWrap(c.dataAt + FRESH, t);
    NothingErrsBeforeWrap(c.pumpOnAt + MAX_PUMP_ON, t);
    NothingErrsBeforeWrap(c.refillOnAt + MAX_REFILL, t);
    NothingErrsBeforeWrap(c.emptyStopAt + COOLDOWN, t);
  }
}
