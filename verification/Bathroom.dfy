/**
 The bathroom node: run-out control of the fan, the occupancy indicator with its
 private mode, the push button behind it, and the brightness average. The sensor
 evaluations that use floating point are inputs.
 */
module Bathroom {
  import opened Bytes
  import opened Clock

  // ---------------------------------------------------------------------- fan

  /** 0: off, 1: running out, 2: triggered. */
  datatype Fan = Fan(running: nat, untriggeredAt: systime)

  datatype FanTick = FanTick(at: nat, trigger: bool, runOut: systime)

  const FAN_INITIAL := Fan(0, 0)

  function FanStep(f: Fan, t: FanTick): Fan {
    if t.trigger then f.(running := 2)
    else
      var now := Counter(t.at);
      var g := if f.running == 2 then Fan(1, now) else f;
      if g.running != 0 && Elapsed(now, g.untriggeredAt) > t.runOut then g.(running := 0) else g
  }

  class FanControl {
    var fanRunning: nat
    var notTriggeredAnymoreAt: systime
    var pin: bool

    ghost predicate Valid() reads this { pin == (fanRunning != 0) }

    ghost function State(): Fan reads this { Fan(fanRunning, notTriggeredAnymoreAt) }

    constructor ()
      ensures Valid() && State() == FAN_INITIAL
    {
      fanRunning, notTriggeredAnymoreAt, pin := 0, 0, false;
    }

    method Tick(t: FanTick) returns (statusRunning: bool)
      requires Valid()
      modifies this
      ensures Valid() && State() == FanStep(old(State()), t) && statusRunning == pin
    {
      var now := Counter(t.at);
      if t.trigger {
        fanRunning := 2;
        pin := true;
      }
      if !t.trigger && fanRunning == 2 {
        fanRunning := 1;
        notTriggeredAnymoreAt := now;
      }
      if !t.trigger && fanRunning != 0 && Elapsed(now, notTriggeredAnymoreAt) > t.runOut {
        fanRunning := 0;
        pin := false;
      }
      statusRunning := fanRunning != 0;
    }
  }

  function FanAfter(ts: seq<FanTick>, n: nat): Fan
    requires n <= |ts|
  {
    if n == 0 then FAN_INITIAL else FanStep(FanAfter(ts, n - 1), ts[n - 1])
  }

  /** Since which tick a fan that runs out has not been triggered. */
  lemma {:induction false} UntriggeredSince(ts: seq<FanTick>, n: nat) returns (j: nat)
    requires n <= |ts| && FanAfter(ts, n).running != 0 && FanAfter(ts, n).running != 2
    ensures j < n && FanAfter(ts, n).untriggeredAt == Counter(ts[j].at) && FanAfter(ts, n).running == 1
    ensures 0 < j && ts[j - 1].trigger && forall i | j <= i < n :: !ts[i].trigger
  {
    if FanAfter(ts, n - 1).running == 2 {
      j := n - 1;
      TriggeredJustBefore(ts, j);
    } else {
      j := UntriggeredSince(ts, n - 1);
    }
  }

  lemma TriggeredJustBefore(ts: seq<FanTick>, n: nat)
    requires n <= |ts|
    ensures FanAfter(ts, n).running == 2 <==> n > 0 && ts[n - 1].trigger
  {
  }

  /**
   A running fan goes off exactly at an untriggered tick at which the counter shows
   more than the run-out time since the first of the untriggered ticks, so only after
   that time; and below one turn of the counter, exactly after it.
   */
  lemma FanRunsOut(ts: seq<FanTick>, k: nat) returns (j: nat)
    requires k < |ts| && forall a, b | 0 <= a <= b < |ts| :: ts[a].at <= ts[b].at
    requires FanAfter(ts, k).running != 0
    ensures j <= k && forall i | j <= i < k :: !ts[i].trigger
    ensures !ts[k].trigger ==> 0 < j && ts[j - 1].trigger
    ensures var off, past := FanAfter(ts, k + 1).running == 0, ts[k].at - ts[j].at;
      && (off <==> !ts[k].trigger && Elapsed(Counter(ts[k].at), Counter(ts[j].at)) > ts[k].runOut)
      && (off ==> past > ts[k].runOut)
      && (past < 0x1_0000_0000 ==> (off <==> !ts[k].trigger && past > ts[k].runOut))
  {
    TriggeredJustBefore(ts, k);
    if FanAfter(ts, k).running == 2 {
      j := k;
    } else {
      j := UntriggeredSince(ts, k);
    }
    ElapsedNeverExceedsReal(ts[j].at, ts[k].at);
  }

  // ------------------------------------------------------------------- button

  /** The debounce counter after a sample; the code's "last sample" is never written and stays low. */
  function Counted(count: nat, low: bool): nat { if !low then 0 else if count <= 10 then count + 1 else count }

  predicate Fires(count: nat, low: bool) { low && count == 10 }

  function CountAfter(lows: seq<bool>): nat {
    if lows == [] then 0 else Counted(CountAfter(lows[..|lows| - 1]), lows[|lows| - 1])
  }

  ghost predicate LowRun(lows: seq<bool>, n: nat) { n <= |lows| && forall i | |lows| - n <= i < |lows| :: lows[i] }

  lemma {:induction false} CountIsLengthOfLowRun(lows: seq<bool>)
    ensures var c := CountAfter(lows);
      c <= 11 && LowRun(lows, c) && (c < 11 ==> c == |lows| || !lows[|lows| - 1 - c])
  {
    if lows != [] {
      var rest := lows[..|lows| - 1];
      CountIsLengthOfLowRun(rest);
      assert forall i | 0 <= i < |rest| :: lows[i] == rest[i];
    }
  }

  /** A press is the eleventh low sample in a row, so each low run makes one at most. */
  lemma PressIsEleventhLowSample(lows: seq<bool>, low: bool)
    ensures Fires(CountAfter(lows), low) <==>
      low && |lows| >= 10 && LowRun(lows, 10) && (|lows| == 10 || !lows[|lows| - 11])
  {
    CountIsLengthOfLowRun(lows);
    var c := CountAfter(lows);
    if c < 10 && |lows| >= 10 { assert !lows[|lows| - 1 - c]; }
    if c == 11 { assert lows[|lows| - 11]; }
  }

  // ---------------------------------------------------------------- occupancy

  datatype Mode = Empty | OpenInUse | InUse | Private

  datatype Indicator = Indicator(count: nat, pressed: bool, mode: Mode, pressedAt: systime, motionSinceClosed: bool)

  const INDICATOR_INITIAL := Indicator(0, false, Empty, 0, false)

  datatype Event =
    | Sample(low: bool)
    /** The times of the tick, of the last motion and of the last open door are real ones. */
    | Tick(at: nat, doorClosed: bool, motionAt: nat, doorAt: nat)

  function MotionSince(s: bool, doorClosed: bool, motionAgo: systime, doorAgo: systime): bool {
    doorClosed && (s || (doorAgo >= S2I(120) && motionAgo < doorAgo - S2I(120)))
  }

  /** The press that is still waiting to be used: one read now, or an older one that is not yet stale. */
  function PressAt(s: Indicator, now: systime): systime {
    var p := if !s.pressed then s.pressedAt else if now == 0 then 1 else now;
    if Elapsed(now, p) > S2I(30) then 0 else p
  }

  function NextMode(m: Mode, press: bool, doorClosed: bool, since: bool, motionAgo: systime, doorAgo: systime): Mode {
    match m
    case Empty => if motionAgo < S2I(2) then OpenInUse else Empty
    case OpenInUse =>
      if press then Private else if motionAgo > S2I(60) then Empty else if doorClosed && since then InUse else OpenInUse
    case InUse =>
      if press then Private else if motionAgo > S2I(60) then Empty else if !doorClosed then OpenInUse else InUse
    case Private =>
      if press then InUse
      else if motionAgo > S2I(900) || (doorClosed && doorAgo > S2I(120) && !since) then Empty else Private
  }

  function IndicatorStep(s: Indicator, e: Event): Indicator {
    match e
    case Sample(low) => s.(count := Counted(s.count, low), pressed := s.pressed || Fires(s.count, low))
    case Tick(at, doorClosed, motionAt, doorAt) =>
      var now := Counter(at);
      var motionAgo, doorAgo := Elapsed(now, Counter(motionAt)), Elapsed(now, Counter(doorAt));
      var since := MotionSince(s.motionSinceClosed, doorClosed, motionAgo, doorAgo);
      var p := PressAt(s, now);
      Indicator(s.count, false, NextMode(s.mode, p != 0, doorClosed, since, motionAgo, doorAgo),
                if s.mode == Empty then p else 0, since)
  }

  class OccupancyIndicator {
    var switchCount: nat
    var switchPressed: bool
    var mode: Mode
    var occupancyPressedAt: systime
    var motionSinceClosed: bool

    ghost function State(): Indicator reads this {
      Indicator(switchCount, switchPressed, mode, occupancyPressedAt, motionSinceClosed)
    }

    constructor ()
      ensures State() == INDICATOR_INITIAL
    {
      switchCount, switchPressed, mode, occupancyPressedAt, motionSinceClosed := 0, false, Empty, 0, false;
    }

    /** The button's part of readButtons. */
    method ReadButton(level: bool)
      modifies this
      ensures State() == IndicatorStep(old(State()), Sample(!level))
    {
      if level == false {
        if switchCount == 10 && !level {
          switchPressed := true;
        }
        if switchCount <= 10 {
          switchCount := switchCount + 1;
        }
      } else {
        switchCount := 0;
      }
    }

    method ReadKey() returns (pressed: bool)
      modifies this`switchPressed
      ensures pressed == old(switchPressed) && !switchPressed
    {
      if switchPressed {
        switchPressed := false;
        return true;
      }
      return false;
    }

    /** The first half of a tick: motion since the door closed, and the waiting press. */
    method Observe(now: systime, doorClosed: bool, motionAgo: systime, doorAgo: systime)
      modifies this`motionSinceClosed, this`switchPressed, this`occupancyPressedAt
      ensures motionSinceClosed == MotionSince(old(motionSinceClosed), doorClosed, motionAgo, doorAgo)
      ensures occupancyPressedAt == old(PressAt(State(), now)) && !switchPressed
    {
      if doorClosed && !motionSinceClosed {
        if doorAgo >= S2I(120) && motionAgo < doorAgo - S2I(120) {
          motionSinceClosed := true;
        }
      } else if !doorClosed {
        motionSinceClosed := false;
      }
      var key := ReadKey();
      if key {
        occupancyPressedAt := now;
        if occupancyPressedAt == 0 {
          occupancyPressedAt := 1;
        }
      }
      if Elapsed(now, occupancyPressedAt) > S2I(30) {
        occupancyPressedAt := 0;
      }
    }

    /** The second half: the next mode, which uses up the press in every mode but one. */
    method Decide(doorClosed: bool, motionAgo: systime, doorAgo: systime)
      modifies this`mode, this`occupancyPressedAt
      ensures mode == NextMode(old(mode), old(occupancyPressedAt) != 0, doorClosed, motionSinceClosed, motionAgo, doorAgo)
      ensures occupancyPressedAt == if old(mode) == Empty then old(occupancyPressedAt) else 0
    {
      var nextMode := mode;
      var shouldHaveMoved := doorClosed && doorAgo > S2I(120);
      match mode {
        case Empty =>
          if motionAgo < S2I(2) {
            nextMode := OpenInUse;
          }
        case OpenInUse =>
          if doorClosed && motionSinceClosed {
            nextMode := InUse;
          }
          if motionAgo > S2I(60) {
            nextMode := Empty;
          }
          if occupancyPressedAt != 0 {
            occupancyPressedAt := 0;
            nextMode := Private;
          }
        case InUse =>
          if occupancyPressedAt != 0 {
            nextMode := Private;
            occupancyPressedAt := 0;
          } else {
            if !doorClosed {
              nextMode := OpenInUse;
            }
            if motionAgo > S2I(60) {
              nextMode := Empty;
            }
          }
        case Private =>
          if motionAgo > S2I(900) || (shouldHaveMoved && !motionSinceClosed) {
            nextMode := Empty;
          }
          if occupancyPressedAt != 0 {
            nextMode := InUse;
            occupancyPressedAt := 0;
          }
      }
      mode := nextMode;
    }

    method Tick(now: systime, doorClosed: bool, motionLast: systime, doorLast: systime, ghost at: nat, ghost motionAt: nat, ghost doorAt: nat)
      returns (privateMode: bool, personInside: bool)
      requires now == Counter(at) && motionLast == Counter(motionAt) && doorLast == Counter(doorAt)
      modifies this
      ensures State() == IndicatorStep(old(State()), Event.Tick(at, doorClosed, motionAt, doorAt))
      ensures privateMode == (mode == Private) && personInside == (mode != Empty)
    {
      var motionAgo, doorAgo := Elapsed(now, motionLast), Elapsed(now, doorLast);
      Observe(now, doorClosed, motionAgo, doorAgo);
      Decide(doorClosed, motionAgo, doorAgo);
      privateMode := mode == Private;
      personInside := mode != Empty;
    }
  }

  function IndicatorAfter(es: seq<Event>, n: nat): Indicator
    requires n <= |es|
  {
    if n == 0 then INDICATOR_INITIAL else IndicatorStep(IndicatorAfter(es, n - 1), es[n - 1])
  }

  /** The button samples among the first `n` events. */
  function Lows(es: seq<Event>, n: nat): seq<bool>
    requires n <= |es|
  {
    if n == 0 then [] else if es[n - 1].Sample? then Lows(es, n - 1) + [es[n - 1].low] else Lows(es, n - 1)
  }

  lemma {:induction false} CountIsOfSamples(es: seq<Event>, n: nat)
    requires n <= |es|
    ensures IndicatorAfter(es, n).count == CountAfter(Lows(es, n))
  {
    if n > 0 {
      CountIsOfSamples(es, n - 1);
      StepCounts(IndicatorAfter(es, n - 1), es[n - 1]);
      if es[n - 1].Sample? { CountOfAppended(Lows(es, n - 1), es[n - 1].low); }
    }
  }

  lemma StepCounts(s: Indicator, e: Event)
    ensures IndicatorStep(s, e).count == if e.Sample? then Counted(s.count, e.low) else s.count
  {
  }

  lemma CountOfAppended(lows: seq<bool>, low: bool)
    ensures CountAfter(lows + [low]) == Counted(CountAfter(lows), low)
  {
    assert (lows + [low])[..|lows|] == lows;
  }

  /** The sample `j` makes a press: the eleventh low one of its run. */
  predicate PressAtSample(es: seq<Event>, j: nat)
    requires j < |es|
  {
    es[j].Sample? && Fires(CountAfter(Lows(es, j)), es[j].low)
  }

  /** Debounced presses among the first `n` events. */
  function Presses(es: seq<Event>, n: nat): nat
    requires n <= |es|
  {
    if n == 0 then 0
    else Presses(es, n - 1) + if PressAtSample(es, n - 1) then 1 else 0
  }

  /** Private mode begins, or ends into normal use: what only the button does. */
  predicate ButtonChange(before: Mode, after: Mode) {
    (before != Private && after == Private) || (before == Private && after == InUse)
  }

  function ButtonChanges(es: seq<Event>, n: nat): nat
    requires n <= |es|
  {
    if n == 0 then 0
    else ButtonChanges(es, n - 1) + if ButtonChange(IndicatorAfter(es, n - 1).mode, IndicatorAfter(es, n).mode) then 1 else 0
  }

  /** Presses not used yet: in the flag the button sets, and in the time the indicator keeps. */
  function Unused(s: Indicator): nat { (if s.pressed then 1 else 0) + (if s.pressedAt != 0 then 1 else 0) }

  lemma StepUsesOnePress(s: Indicator, e: Event)
    ensures var s' := IndicatorStep(s, e);
      Unused(s') + (if ButtonChange(s.mode, s'.mode) then 1 else 0)
        <= Unused(s) + (if e.Sample? && Fires(s.count, e.low) then 1 else 0)
  {
  }

  /** Private mode is entered, and left by the button, never more often than the button was pressed. */
  lemma {:induction false} ButtonChangesNeedPresses(es: seq<Event>, n: nat)
    requires n <= |es|
    ensures ButtonChanges(es, n) + Unused(IndicatorAfter(es, n)) <= Presses(es, n)
  {
    if n > 0 {
      ButtonChangesNeedPresses(es, n - 1);
      CountIsOfSamples(es, n - 1);
      StepUsesOnePress(IndicatorAfter(es, n - 1), es[n - 1]);
    }
  }

  /** A tick with the door closed that sees motion later than two minutes after the closing. */
  predicate SeesMotion(e: Event) {
    e.Tick? && e.doorClosed &&
    var now := Counter(e.at);
    var motionAgo, doorAgo := Elapsed(now, Counter(e.motionAt)), Elapsed(now, Counter(e.doorAt));
    doorAgo >= S2I(120) && motionAgo < doorAgo - S2I(120)
  }

  /** Such a tick is among the first `n` events, and at no tick since then was the door open. */
  ghost predicate MotionSinceClosing(es: seq<Event>, n: nat)
    requires n <= |es|
  {
    exists i: nat :: i < n && MotionAndClosedSince(es, i, n)
  }

  ghost predicate MotionAndClosedSince(es: seq<Event>, i: nat, n: nat)
    requires i < n <= |es|
  {
    SeesMotion(es[i]) && forall k | i <= k < n :: es[k].Tick? ==> es[k].doorClosed
  }

  lemma StepMotion(s: Indicator, e: Event)
    ensures IndicatorStep(s, e).motionSinceClosed <==>
      if e.Sample? then s.motionSinceClosed else e.doorClosed && (s.motionSinceClosed || SeesMotion(e))
  {
  }

  lemma {:induction false} MotionIsRemembered(es: seq<Event>, n: nat)
    requires n <= |es|
    ensures IndicatorAfter(es, n).motionSinceClosed <==> MotionSinceClosing(es, n)
  {
    if n > 0 {
      MotionIsRemembered(es, n - 1);
      StepMotion(IndicatorAfter(es, n - 1), es[n - 1]);
      MotionUpTo(es, n);
    }
  }

  lemma MotionUpTo(es: seq<Event>, n: nat)
    requires 0 < n <= |es|
    ensures MotionSinceClosing(es, n) <==>
      if es[n - 1].Sample? then MotionSinceClosing(es, n - 1)
      else es[n - 1].doorClosed && (MotionSinceClosing(es, n - 1) || SeesMotion(es[n - 1]))
  {
    var m := n - 1;
    if i: nat :| i < n && MotionAndClosedSince(es, i, n) {
      if i < m { assert MotionAndClosedSince(es, i, m); }
    }
    if i: nat :| i < m && MotionAndClosedSince(es, i, m) {
      if es[m].Tick? ==> es[m].doorClosed { assert MotionAndClosedSince(es, i, n); }
    }
    if SeesMotion(es[m]) { assert MotionAndClosedSince(es, m, n); }
  }

  // ------------------------------------------------------------ waiting presses

  /** The button was pressed since the last tick before `n`. */
  ghost predicate PressBefore(es: seq<Event>, n: nat)
    requires n <= |es|
  {
    exists j: nat :: j < n && PressedAndNotRead(es, j, n)
  }

  ghost predicate PressedAndNotRead(es: seq<Event>, j: nat, n: nat)
    requires j < n <= |es|
  {
    PressAtSample(es, j) && forall i | j < i < n :: !es[i].Tick?
  }

  lemma StepPress(s: Indicator, e: Event)
    ensures IndicatorStep(s, e).pressed <==> e.Sample? && (s.pressed || Fires(s.count, e.low))
  {
  }

  lemma {:induction false} PressFlagIff(es: seq<Event>, n: nat)
    requires n <= |es|
    ensures IndicatorAfter(es, n).pressed <==> PressBefore(es, n)
  {
    if n > 0 {
      var m := n - 1;
      PressFlagIff(es, m);
      CountIsOfSamples(es, m);
      StepPress(IndicatorAfter(es, m), es[m]);
      PressUpTo(es, m);
    }
  }

  lemma PressUpTo(es: seq<Event>, m: nat)
    requires m < |es|
    ensures PressBefore(es, m + 1) <==> es[m].Sample? && (PressBefore(es, m) || PressAtSample(es, m))
  {
    var n := m + 1;
    if j: nat :| j < n && PressedAndNotRead(es, j, n) {
      if j < m { assert PressedAndNotRead(es, j, m); }
    }
    if j: nat :| j < m && PressedAndNotRead(es, j, m) {
      if es[m].Sample? { assert PressedAndNotRead(es, j, n); }
    }
    if PressAtSample(es, m) { assert PressedAndNotRead(es, m, n); }
  }

  /** The time the code notes for a press: zero is avoided, since it means that none waits. */
  function Noted(at: nat): systime { if Counter(at) == 0 then 1 else Counter(at) }

  /** At tick `j` the press read by tick `i` is not older than 30 s. */
  predicate StillValid(es: seq<Event>, i: nat, j: nat)
    requires i < |es| && j < |es| && es[i].Tick? && es[j].Tick?
  {
    Elapsed(Counter(es[j].at), Noted(es[i].at)) <= S2I(30)
  }

  /** Event `j` leaves the press read by tick `i` waiting: a tick does if it reads no other, and finds it valid and the room empty. */
  ghost predicate LeavesWaiting(es: seq<Event>, i: nat, j: nat)
    requires i < |es| && j < |es| && es[i].Tick?
  {
    es[j].Tick? ==> (j == i || !PressBefore(es, j)) && StillValid(es, i, j) && IndicatorAfter(es, j).mode == Empty
  }

  /** A press read by tick `i` waits behind the first `n` events. */
  ghost predicate KeptFrom(es: seq<Event>, i: nat, n: nat)
    requires i < n <= |es|
  {
    es[i].Tick? && PressBefore(es, i) && forall j | i <= j < n :: LeavesWaiting(es, i, j)
  }

  /** A press read by tick `i` waits at tick `k`, which may use it. */
  ghost predicate WaitsFrom(es: seq<Event>, i: nat, k: nat)
    requires i <= k < |es| && es[k].Tick?
  {
    && es[i].Tick? && PressBefore(es, i) && (i == k || !PressBefore(es, k)) && StillValid(es, i, k)
    && forall j | i <= j < k :: LeavesWaiting(es, i, j)
  }

  /** Some press waits at tick `k`. */
  ghost predicate PressWaits(es: seq<Event>, k: nat)
    requires k < |es| && es[k].Tick?
  {
    exists i: nat :: i <= k && WaitsFrom(es, i, k)
  }

  lemma StepKeepsPress(s: Indicator, e: Event)
    ensures IndicatorStep(s, e).pressedAt ==
      if e.Sample? then s.pressedAt else if s.mode == Empty then PressAt(s, Counter(e.at)) else 0
  {
  }

  /** What the indicator keeps behind the first `n` events is the time of the press kept, or zero. */
  ghost predicate PressKept(es: seq<Event>, n: nat)
    requires n <= |es|
  {
    var p := IndicatorAfter(es, n).pressedAt;
    && (p != 0 ==> exists i: nat :: i < n && KeptFrom(es, i, n))
    && forall i: nat | i < n && KeptFrom(es, i, n) :: p == Noted(es[i].at)
  }

  lemma {:induction false} PressIsKept(es: seq<Event>, n: nat)
    requires n <= |es|
    ensures PressKept(es, n)
  {
    if n > 0 {
      PressIsKept(es, n - 1);
      StepKeepsPress(IndicatorAfter(es, n - 1), es[n - 1]);
      if es[n - 1].Tick? { KeptBehindTick(es, n - 1); } else { KeptBehindSample(es, n - 1); }
    }
  }

  lemma KeptOneMore(es: seq<Event>, i: nat, m: nat)
    requires i < m < |es|
    ensures KeptFrom(es, i, m + 1) <==> KeptFrom(es, i, m) && LeavesWaiting(es, i, m)
  {
  }

  lemma KeptBehindSample(es: seq<Event>, m: nat)
    requires m < |es| && es[m].Sample? && PressKept(es, m)
    requires IndicatorAfter(es, m + 1).pressedAt == IndicatorAfter(es, m).pressedAt
    ensures PressKept(es, m + 1)
  {
    var n := m + 1;
    forall i: nat | i < m ensures KeptFrom(es, i, n) <==> KeptFrom(es, i, m) { KeptOneMore(es, i, m); }
  }

  lemma KeptBehindTick(es: seq<Event>, m: nat)
    requires m < |es| && es[m].Tick? && PressKept(es, m)
    requires IndicatorAfter(es, m + 1).pressedAt ==
      if IndicatorAfter(es, m).mode == Empty then PressAt(IndicatorAfter(es, m), Counter(es[m].at)) else 0
    ensures PressKept(es, m + 1)
  {
    var n := m + 1;
    PressFlagIff(es, m);
    PressAtTick(es, m);
    forall i: nat | i < n ensures KeptFrom(es, i, n) <==> IndicatorAfter(es, m).mode == Empty && WaitsFrom(es, i, m) {
      if i < m { KeptOneMore(es, i, m); }
      assert KeptFrom(es, i, n) ==> LeavesWaiting(es, i, m);
    }
  }

  /** At a tick a press waits exactly if the indicator finds one: read just now, or kept and still valid. */
  lemma PressAtTick(es: seq<Event>, k: nat)
    requires k < |es| && es[k].Tick? && PressKept(es, k)
    requires IndicatorAfter(es, k).pressed <==> PressBefore(es, k)
    ensures FoundAt(es, k, PressAt(IndicatorAfter(es, k), Counter(es[k].at)))
  {
    if PressBefore(es, k) {
      forall i: nat | i < k ensures !WaitsFrom(es, i, k) {
      }
      if StillValid(es, k, k) { assert WaitsFrom(es, k, k); }
    } else {
      PressKeptAtTick(es, k);
    }
  }

  /** `p` is the time of the press that waits at tick `k`, or zero. */
  ghost predicate FoundAt(es: seq<Event>, k: nat, p: systime)
    requires k < |es| && es[k].Tick?
  {
    (p != 0 <==> PressWaits(es, k)) && forall i: nat | i <= k && WaitsFrom(es, i, k) :: p == Noted(es[i].at)
  }

  lemma PressKeptAtTick(es: seq<Event>, k: nat)
    requires k < |es| && es[k].Tick? && PressKept(es, k) && !PressBefore(es, k) && !IndicatorAfter(es, k).pressed
    ensures FoundAt(es, k, PressAt(IndicatorAfter(es, k), Counter(es[k].at)))
  {
    forall i: nat | i < k ensures WaitsFrom(es, i, k) <==> KeptFrom(es, i, k) && StillValid(es, i, k) {
    }
    assert !WaitsFrom(es, k, k);
    if i: nat :| i < k && KeptFrom(es, i, k) {
      assert IndicatorAfter(es, k).pressedAt == Noted(es[i].at);
    }
  }

  lemma PressFoundIff(es: seq<Event>, k: nat)
    requires k < |es| && es[k].Tick?
    ensures PressAt(IndicatorAfter(es, k), Counter(es[k].at)) != 0 <==> PressWaits(es, k)
  {
    PressIsKept(es, k);
    PressFlagIff(es, k);
    PressAtTick(es, k);
  }

  // ------------------------------------------------------- what each mode becomes

  /** Seconds without motion, and since the door was last open, are counted in ticks of the 32-bit clock. */
  function MotionAgo(e: Event): systime
    requires e.Tick?
  {
    Elapsed(Counter(e.at), Counter(e.motionAt))
  }

  function DoorAgo(e: Event): systime
    requires e.Tick?
  {
    Elapsed(Counter(e.at), Counter(e.doorAt))
  }

  lemma SamplesKeepMode(es: seq<Event>, k: nat)
    requires k < |es| && es[k].Sample?
    ensures IndicatorAfter(es, k + 1).mode == IndicatorAfter(es, k).mode
  {
  }

  /** An empty room is left exactly when a tick sees motion less than 2 s ago, and then for open use. */
  lemma EmptyIsLeftIff(es: seq<Event>, k: nat)
    requires k < |es| && es[k].Tick? && IndicatorAfter(es, k).mode == Empty
    ensures IndicatorAfter(es, k + 1).mode == if MotionAgo(es[k]) < S2I(2) then OpenInUse else Empty
  {
  }

  /** Open use: a waiting press makes it private; else 60 s without motion end it, and motion behind the closed door closes it. */
  lemma OpenInUseBecomes(es: seq<Event>, k: nat)
    requires k < |es| && es[k].Tick? && IndicatorAfter(es, k).mode == OpenInUse
    ensures var next, e := IndicatorAfter(es, k + 1).mode, es[k];
      && (next == Private <==> PressWaits(es, k))
      && (next == Empty <==> !PressWaits(es, k) && MotionAgo(e) > S2I(60))
      && (next == InUse <==> !PressWaits(es, k) && MotionAgo(e) <= S2I(60) && e.doorClosed && MotionSinceClosing(es, k + 1))
      && (next == OpenInUse <==> !PressWaits(es, k) && MotionAgo(e) <= S2I(60) && !(e.doorClosed && MotionSinceClosing(es, k + 1)))
  {
    PressFoundIff(es, k);
    MotionIsRemembered(es, k + 1);
  }

  /** Use behind a closed door: the same, but an open door makes it open use. */
  lemma InUseBecomes(es: seq<Event>, k: nat)
    requires k < |es| && es[k].Tick? && IndicatorAfter(es, k).mode == InUse
    ensures var next, e := IndicatorAfter(es, k + 1).mode, es[k];
      && (next == Private <==> PressWaits(es, k))
      && (next == Empty <==> !PressWaits(es, k) && MotionAgo(e) > S2I(60))
      && (next == OpenInUse <==> !PressWaits(es, k) && MotionAgo(e) <= S2I(60) && !e.doorClosed)
      && (next == InUse <==> !PressWaits(es, k) && MotionAgo(e) <= S2I(60) && e.doorClosed)
  {
    PressFoundIff(es, k);
  }

  /** Nobody has moved for 900 s, or the door has been closed for 120 s, as the counter shows it, with no motion since. */
  ghost predicate RoomLooksEmpty(es: seq<Event>, k: nat)
    requires k < |es| && es[k].Tick?
  {
    MotionAgo(es[k]) > S2I(900) || (es[k].doorClosed && DoorAgo(es[k]) > S2I(120) && !MotionSinceClosing(es, k + 1))
  }

  /** Private mode ends by a waiting press or, without one, exactly if the room looks empty. */
  lemma PrivateBecomes(es: seq<Event>, k: nat)
    requires k < |es| && es[k].Tick? && IndicatorAfter(es, k).mode == Private
    ensures var next := IndicatorAfter(es, k + 1).mode;
      && (next == InUse <==> PressWaits(es, k))
      && (next == Empty <==> !PressWaits(es, k) && RoomLooksEmpty(es, k))
      && (next == Private <==> !PressWaits(es, k) && !RoomLooksEmpty(es, k))
  {
    PressFoundIff(es, k);
    MotionIsRemembered(es, k + 1);
  }

  /** In real time the room was then without motion for more than 900 s, or its door closed for more than 120 s. */
  lemma EmptyRoomInRealTime(es: seq<Event>, k: nat)
    requires k < |es| && es[k].Tick? && es[k].motionAt <= es[k].at && es[k].doorAt <= es[k].at && RoomLooksEmpty(es, k)
    ensures es[k].at - es[k].motionAt > S2I(900) || (es[k].doorClosed && es[k].at - es[k].doorAt > S2I(120) && !MotionSinceClosing(es, k + 1))
  {
    ElapsedNeverExceedsReal(es[k].motionAt, es[k].at);
    ElapsedNeverExceedsReal(es[k].doorAt, es[k].at);
  }

  /**
   Somebody inside, in real time: an empty room becomes an occupied one exactly at motion
   less than 2 s ago, as long as motion is no longer ago than a turn of the counter; and
   an occupied one becomes empty only after more than 60 s without motion or, from private
   mode, after more than 120 s behind a closed door.
   */
  lemma PersonInsideInRealTime(es: seq<Event>, k: nat)
    requires k < |es| && es[k].Tick? && es[k].motionAt <= es[k].at && es[k].doorAt <= es[k].at
    ensures var before, after, ago := IndicatorAfter(es, k).mode, IndicatorAfter(es, k + 1).mode, es[k].at - es[k].motionAt;
      && (before == Empty && ago < 0x1_0000_0000 ==> (after != Empty <==> ago < S2I(2)))
      && (before != Empty && after == Empty ==>
          ago > S2I(60) || (before == Private && es[k].doorClosed && es[k].at - es[k].doorAt > S2I(120)))
      && (before == OpenInUse || before == InUse ==> ago < 0x1_0000_0000 && ago > S2I(60) && !PressWaits(es, k) ==> after == Empty)
  {
    ElapsedNeverExceedsReal(es[k].motionAt, es[k].at);
    ElapsedNeverExceedsReal(es[k].doorAt, es[k].at);
    match IndicatorAfter(es, k).mode {
      case Empty => EmptyIsLeftIff(es, k);
      case OpenInUse => OpenInUseBecomes(es, k);
      case InUse => InUseBecomes(es, k);
      case Private => PrivateBecomes(es, k);
    }
  }

  // --------------------------------------------------------------- brightness

  const WINDOW := 128

  function Total(s: seq<byte>): nat { if s == [] then 0 else s[0] as nat + Total(s[1..]) }

  lemma {:induction false} TotalOfConcat(a: seq<byte>, b: seq<byte>)
    ensures Total(a + b) == Total(a) + Total(b)
  {
    if a == [] {
      assert a + b == b;
    } else {
      assert (a + b)[1..] == a[1..] + b;
      TotalOfConcat(a[1..], b);
    }
  }

  lemma {:induction false} TotalBound(s: seq<byte>)
    ensures Total(s) <= 255 * |s|
  {
    if s != [] { TotalBound(s[1..]); }
  }

  lemma {:induction false} TotalOfZeros(n: nat)
    ensures Total(Zeros(n)) == 0
  {
    if n > 0 {
      assert Zeros(n)[1..] == Zeros(n - 1);
      TotalOfZeros(n - 1);
    }
  }

  lemma TotalOfUpdate(s: seq<byte>, i: nat, v: byte)
    requires i < |s|
    ensures Total(s[i := v]) == Total(s) - s[i] as nat + v as nat
  {
    assert s == s[..i] + ([s[i]] + s[i + 1..]) && s[i := v] == s[..i] + ([v] + s[i + 1..]);
    TotalOfConcat(s[..i], [s[i]] + s[i + 1..]);
    TotalOfConcat(s[..i], [v] + s[i + 1..]);
    assert ([s[i]] + s[i + 1..])[1..] == s[i + 1..] && ([v] + s[i + 1..])[1..] == s[i + 1..];
  }

  /** The ring from its oldest to its newest entry. */
  function InOrder(window: seq<byte>, pointer: nat): seq<byte>
    requires pointer < |window|
  {
    window[pointer + 1..] + window[..pointer + 1]
  }

  lemma RingShifts(window: seq<byte>, pointer: nat, v: byte)
    requires |window| == WINDOW && pointer < WINDOW
    ensures var p := (pointer + 1) % WINDOW;
      InOrder(window[p := v], p) == InOrder(window, pointer)[1..] + [v] && window[p] == InOrder(window, pointer)[0]
  {
  }

  class BrightnessSensor {
    const window: array<byte>
    var windowPointer: nat
    var sum: nat
    var lastReadingAt: systime
    /** Every reading so far, oldest first, behind a window of zeros. */
    ghost var readings: seq<byte>

    ghost predicate Valid() reads this, window {
      && window.Length == WINDOW && windowPointer < WINDOW
      && sum == Total(window[..]) <= 255 * WINDOW
      && |readings| >= WINDOW && InOrder(window[..], windowPointer) == readings[|readings| - WINDOW..]
    }

    constructor ()
      ensures Valid() && fresh(window) && readings == Zeros(WINDOW)
    {
      window := new byte[WINDOW](_ => 0);
      windowPointer, sum, lastReadingAt, readings := 0, 0, 0, Zeros(WINDOW);
      new;
      assert window[..] == Zeros(WINDOW);
      TotalOfZeros(WINDOW);
    }

    /** Darkness 0 to brightness 255: the high byte of the complement. */
    function Scaled(adc: nat): byte
      requires adc < U16
    {
      ((-(adc as int) - 1) / 256) % 256
    }

    /** Replaces the oldest entry of the ring and keeps the running sum, in 16 bits. */
    method Put(v: byte)
      requires Valid()
      modifies this`windowPointer, this`sum, this`readings, window
      ensures Valid() && readings == old(readings) + [v] && sum == Total(readings[|readings| - WINDOW..])
    {
      ghost var ring, p, past := window[..], windowPointer, readings;
      windowPointer := (windowPointer + 1) % WINDOW;
      RingShifts(ring, p, v);
      TotalOfUpdate(ring, windowPointer, v);
      TotalBound(ring[windowPointer := v]);
      sum := (sum + v as int - window[windowPointer] as int) % U16;
      window[windowPointer] := v;
      assert window[..] == ring[windowPointer := v];
      readings := readings + [v];
      LastOnes(past, v, WINDOW);
      SumOfRing(window[..], windowPointer);
    }

    method Read(now: systime, adc: nat, bright: bool, personInside: bool, before: nat) returns (brightness: nat)
      requires Valid() && adc < U16 && before < 8
      modifies this, window
      ensures Valid() && brightness < 8
      ensures Elapsed(now, old(lastReadingAt)) < S2I(10) ==> brightness == before && readings == old(readings)
      ensures Elapsed(now, old(lastReadingAt)) >= S2I(10) ==>
        && readings == old(readings) + [if bright then 0 else if personInside then old(readings)[|old(readings)| - 1] else 255 - adc / 256]
        && brightness == Total(readings[|readings| - WINDOW..]) / WINDOW / 32
        && lastReadingAt == now
    {
      brightness := before;
      if Elapsed(now, lastReadingAt) >= S2I(10) {
        var v: byte := Scaled(adc);
        ComplementIsDistance(adc);
        if bright {
          v := 0;
        } else if personInside {
          v := window[windowPointer];
          assert InOrder(window[..], windowPointer)[WINDOW - 1] == v;
        }
        Put(v);
        TotalBound(readings[|readings| - WINDOW..]);
        ThreeBits(sum);
        brightness := sum / WINDOW / 32;
        lastReadingAt := now;
      }
    }
  }

  lemma ComplementIsDistance(adc: nat)
    requires adc < 0x1_0000
    ensures ((-(adc as int) - 1) / 256) % 256 == 255 - adc / 256
  {
  }

  lemma ThreeBits(sum: nat)
    requires sum <= 255 * 128
    ensures sum / 128 / 32 < 8
  {
  }

  lemma LastOnes(s: seq<byte>, v: byte, n: nat)
    requires 0 < n <= |s|
    ensures (s + [v])[|s| + 1 - n..] == s[|s| - n..][1..] + [v]
  {
  }

  lemma SumOfRing(window: seq<byte>, pointer: nat)
    requires pointer < |window|
    ensures Total(InOrder(window, pointer)) == Total(window)
  {
    assert window == window[..pointer + 1] + window[pointer + 1..];
    TotalOfConcat(window[..pointer + 1], window[pointer + 1..]);
    TotalOfConcat(window[pointer + 1..], window[..pointer + 1]);
  }
}
