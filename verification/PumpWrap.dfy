/**
 Runs of the pump controller in which the wrap of the 32-bit counter breaks a limit.
 The controller ticks every second throughout; until the last few minutes before the
 wrap it has nothing to do. Times are in ticks of the clock; the counter wraps at
 4294967296.
 */
module PumpWrap {
  import opened Bytes
  import opened Clock
  import opened PumpReceiver

  /** One second: half a second in, the target's report, unless it is lost; at the end a tick. */
  datatype Second = Second(lost: bool, empty: bool, level: byte)

  type Schedule = nat -> Second

  function ReportAt(i: nat): nat { 10000 * i + 5000 }

  function TickAt(i: nat): nat { 10000 * i + 10000 }

  /** In the place of a lost report stands one of another node. */
  function EventOf(f: Schedule, k: nat): Event {
    var i := k / 2;
    if k % 2 == 0 then Data(ReportAt(i), 1, !f(i).lost, false, false, !f(i).empty) else Tick(TickAt(i), f(i).level)
  }

  function Events(f: Schedule, n: nat): (es: seq<Event>)
    ensures |es| == 2 * n && forall k | 0 <= k < 2 * n :: es[k] == EventOf(f, k)
  {
    seq(2 * n, k requires 0 <= k => EventOf(f, k))
  }

  function StateAt(f: Schedule, k: nat): Controller {
    if k == 0 then INITIAL else Step(StateAt(f, k - 1), EventOf(f, k - 1))
  }

  function States(f: Schedule, n: nat): (cs: seq<Controller>)
    ensures |cs| == 2 * n + 1 && forall k | 0 <= k <= 2 * n :: cs[k] == StateAt(f, k)
  {
    seq(2 * n + 1, k requires 0 <= k => StateAt(f, k))
  }

  lemma ScheduleIsRun(f: Schedule, n: nat)
    ensures Run(States(f, n), Events(f, n))
  {
    var cs, es := States(f, n), Events(f, n);
    assert StateAt(f, 0) == INITIAL;
    forall k | 0 <= k < |es| ensures StepAt(cs, es, k) {
      assert StateAt(f, k + 1) == Step(StateAt(f, k), EventOf(f, k));
    }
    forall j, k | 0 <= j <= k < |es| ensures es[j].at <= es[k].at {
    }
  }

  function Reported(c: Controller, s: Second, i: nat): Controller {
    if s.lost then c else c.(targetError := false, targetFull := false, targetEmpty := s.empty, dataAt := ReportAt(i))
  }

  lemma Reports(f: Schedule, i: nat)
    ensures StateAt(f, 2 * i + 1) == Reported(StateAt(f, 2 * i), f(i), i)
  {
    assert (2 * i) / 2 == i;
    var e := EventOf(f, 2 * i);
    assert StateAt(f, 2 * i + 1) == Step(StateAt(f, 2 * i), e);
  }

  lemma OneSecond(f: Schedule, i: nat)
    ensures StateAt(f, 2 * i + 2) == Ticked(Reported(StateAt(f, 2 * i), f(i), i), TickAt(i), f(i).level)
  {
    Reports(f, i);
    assert (2 * i + 1) / 2 == i;
    var t := EventOf(f, 2 * i + 1);
    assert StateAt(f, 2 * i + 2) == Step(StateAt(f, 2 * i + 1), t);
  }

  lemma {:induction false} Iterates<C>(step: (C, nat) -> C, state: nat -> C, inv: nat -> C, a: nat, n: nat)
    requires a <= n && state(a) == inv(a)
    requires forall i: nat | a <= i < n :: state(i + 1) == step(state(i), i)
    requires forall i: nat | a <= i < n :: step(inv(i), i) == inv(i + 1)
    ensures state(n) == inv(n)
    decreases n - a
  {
    if a < n { Iterates(step, state, inv, a + 1, n); }
  }

  /** One second, as a function that a lemma can take without its definition. */
  function SecondOf(f: Schedule): (Controller, nat) -> Controller {
    (c: Controller, i: nat) => Ticked(Reported(c, f(i), i), TickAt(i), f(i).level)
  }

  function BySeconds(f: Schedule): nat -> Controller { (i: nat) => StateAt(f, 2 * i) }

  lemma OneSecondLater(f: Schedule, i: nat)
    ensures BySeconds(f)(i + 1) == SecondOf(f)(BySeconds(f)(i), i)
  {
    OneSecond(f, i);
    assert 2 * (i + 1) == 2 * i + 2;
  }

  /** Second `i` of the schedule leads from `inv(i)` to `inv(i + 1)`. */
  ghost predicate Leads(f: Schedule, inv: nat -> Controller, i: nat) {
    SecondOf(f)(inv(i), i) == inv(i + 1)
  }

  lemma Follows(f: Schedule, inv: nat -> Controller, a: nat, n: nat)
    requires a <= n && StateAt(f, 2 * a) == inv(a) && forall i: nat | a <= i < n :: Leads(f, inv, i)
    ensures StateAt(f, 2 * n) == inv(n)
  {
    var step, state := SecondOf(f), BySeconds(f);
    forall i: nat | a <= i < n ensures state(i + 1) == step(state(i), i) { OneSecondLater(f, i); }
    forall i: nat | a <= i < n ensures step(inv(i), i) == inv(i + 1) { assert Leads(f, inv, i); }
    Iterates(step, state, inv, a, n);
  }

  // ------------------------------------------------------------------- phases

  function Waiting(level: byte, dataAt: nat): Controller {
    INITIAL.(targetError := false, dataAt := dataAt, fillLevel := level, sourceEmpty := level < 205,
             targetFull := false, targetEmpty := false)
  }

  /** Pumping from a full source, or refilling because it is empty. */
  function Working(m: Mode, level: byte, start: nat, dataAt: nat): Controller {
    Waiting(level, dataAt).(targetEmpty := true, mode := m, pumpOn := m == Pump, refillOn := m == RefillOnly,
                            pumpOnAt := if m == Pump then start else 0, refillOnAt := if m == RefillOnly then start else 0)
  }

  predicate Suits(m: Mode, level: byte) { (m == Pump && level == 255) || (m == RefillOnly && level == 100) }

  function Limit(m: Mode): nat { if m == Pump then MAX_PUMP_ON else MAX_REFILL }

  lemma SteadySource(c: Controller, level: byte)
    requires level in {100, 255} && c.variance == 0 && c.longVariance == 0
    requires (c.fillLevel == 0 && !c.sourceEmpty) || (c.fillLevel == level && c.sourceEmpty == (level < 205))
    ensures Sensed(c, level) == c.(fillLevel := level, sourceEmpty := level < 205)
  {
  }

  lemma BeginsToWait(level: byte)
    requires level in {100, 255}
    ensures Ticked(Reported(INITIAL, Second(false, false, level), 0), TickAt(0), level) == Waiting(level, ReportAt(0))
  {
    SteadySource(Reported(INITIAL, Second(false, false, level), 0), level);
  }

  lemma KeepsWaiting(level: byte, dataAt: nat, i: nat)
    requires level in {100, 255}
    ensures Ticked(Reported(Waiting(level, dataAt), Second(false, false, level), i), TickAt(i), level) == Waiting(level, ReportAt(i))
  {
    SteadySource(Reported(Waiting(level, dataAt), Second(false, false, level), i), level);
  }

  lemma Idles(f: Schedule, level: byte, n: nat)
    requires n > 0 && level in {100, 255} && forall i: nat | i < n :: f(i) == Second(false, false, level)
    ensures StateAt(f, 2 * n) == Waiting(level, ReportAt(n - 1))
  {
    var inv := (i: nat) => if i == 0 then INITIAL else Waiting(level, ReportAt(i - 1));
    forall i | 0 <= i < n ensures Leads(f, inv, i) {
      if i == 0 { BeginsToWait(level); } else { KeepsWaiting(level, ReportAt(i - 1), i); }
    }
    Follows(f, inv, 0, n);
  }

  lemma StartsWork(m: Mode, level: byte, dataAt: nat, i: nat)
    requires Suits(m, level) && Ahead(ReportAt(i), FRESH, TickAt(i)) && !Ahead(0, COOLDOWN, TickAt(i))
    ensures Ticked(Reported(Waiting(level, dataAt), Second(false, true, level), i), TickAt(i), level)
         == Working(m, level, TickAt(i), ReportAt(i))
  {
    SteadySource(Reported(Waiting(level, dataAt), Second(false, true, level), i), level);
  }

  lemma KeepsWorking(m: Mode, level: byte, start: nat, dataAt: nat, lost: bool, i: nat)
    requires Suits(m, level)
    requires Ahead(if lost then dataAt else ReportAt(i), FRESH, TickAt(i)) && !Behind(start, Limit(m), TickAt(i))
    ensures Ticked(Reported(Working(m, level, start, dataAt), Second(lost, true, level), i), TickAt(i), level)
         == Working(m, level, start, if lost then dataAt else ReportAt(i))
  {
    SteadySource(Reported(Working(m, level, start, dataAt), Second(lost, true, level), i), level);
  }

  /** The two comparisons, in the first two turns of the counter. */
  lemma InFirstTurns(start: nat, interval: nat, now: nat)
    requires start + interval < 0x2_0000_0000 && now < 0x2_0000_0000
    ensures var d := if start + interval < 0x1_0000_0000 then start + interval else start + interval - 0x1_0000_0000;
      var shown := if now < 0x1_0000_0000 then now else now - 0x1_0000_0000;
      (Ahead(start, interval, now) <==> d > shown) && (Behind(start, interval, now) <==> d < shown)
  {
    SumIsCounterOfSum(start, interval);
    FirstTurns(start + interval);
    FirstTurns(now);
  }

  // ----------------------------------------------- the 180 s, the 600 s, the 3 s

  /**
   Which reports are lost: the two in the last two seconds before the wrap, so that
   none is ever 3 s old; or, if the target falls silent, all from there on.
   */
  predicate Lost(silent: bool, i: nat) { i == 429494 || i == 429495 || (silent && i >= 429494) }

  /** The target is empty from the report of second `first` on. */
  function WorkFrom(silent: bool, first: nat, level: byte): Schedule { (i: nat) => Second(Lost(silent, i), i >= first, level) }

  function Newest(silent: bool, i: nat): nat { if Lost(silent, i) then ReportAt(429493) else ReportAt(i) }

  /** The limit is reached at the last tick before the wrap, but not passed: the next tick is behind the wrap. */
  predicate ReachedAtWrap(m: Mode, first: nat) { TickAt(first) + Limit(m) == 4294960000 }

  lemma LooksFreshAndUnlimited(silent: bool, m: Mode, first: nat, i: nat)
    requires (m == Pump || m == RefillOnly) && ReachedAtWrap(m, first) && first <= i < 858980
    ensures Ahead(Newest(silent, i), FRESH, TickAt(i)) && (!silent ==> TickAt(i) < Newest(silent, i) + FRESH)
    ensures !Behind(TickAt(first), Limit(m), TickAt(i))
    ensures !Ahead(0, COOLDOWN, TickAt(i)) || i > 429400
  {
    InFirstTurns(Newest(silent, i), FRESH, TickAt(i));
    InFirstTurns(TickAt(first), Limit(m), TickAt(i));
    InFirstTurns(0, COOLDOWN, TickAt(i));
  }

  function AtWork(silent: bool, m: Mode, level: byte, first: nat, i: nat): Controller
    requires 0 < first
  {
    if i <= first then Waiting(level, ReportAt(first - 1)) else Working(m, level, TickAt(first), Newest(silent, i - 1))
  }

  lemma WorksASecond(silent: bool, m: Mode, level: byte, first: nat, i: nat)
    requires Suits(m, level) && ReachedAtWrap(m, first) && first <= i < 858980
    ensures Ticked(Reported(AtWork(silent, m, level, first, i), Second(Lost(silent, i), true, level), i), TickAt(i), level)
         == AtWork(silent, m, level, first, i + 1)
  {
    LooksFreshAndUnlimited(silent, m, first, i);
    if i == first {
      StartsWork(m, level, ReportAt(first - 1), i);
    } else {
      KeepsWorking(m, level, TickAt(first), Newest(silent, i - 1), Lost(silent, i), i);
    }
  }

  lemma WorksOn(silent: bool, m: Mode, level: byte, first: nat, n: nat)
    requires Suits(m, level) && ReachedAtWrap(m, first) && first < n <= 858980
    ensures StateAt(WorkFrom(silent, first, level), 2 * n) == Working(m, level, TickAt(first), Newest(silent, n - 1))
  {
    var f, inv := WorkFrom(silent, first, level), (i: nat) => AtWork(silent, m, level, first, i);
    Idles(f, level, first);
    forall i: nat | first <= i < n ensures Leads(f, inv, i) { WorksASecond(silent, m, level, first, i); }
    Follows(f, inv, first, n);
  }

  /** A pump that reaches its 180 s while the counter wraps runs on, on fresh reports, for up to 119 hours. */
  lemma WrapLetsPumpRunOn(n: nat)
    requires 429496 < n <= 858980
    ensures var f := WorkFrom(false, 429315, 255);
      var cs, es := States(f, n), Events(f, n);
      && Run(cs, es) && es[2 * n - 1] == Tick(10000 * n, 255)
      && cs[2 * n].mode == Pump && es[2 * n - 1].at - cs[2 * n].pumpOnAt == 10000 * (n - 429316) > MAX_PUMP_ON
      && es[2 * n - 1].at < cs[2 * n].dataAt + FRESH
  {
    ScheduleIsRun(WorkFrom(false, 429315, 255), n);
    WorksOn(false, Pump, 255, 429315, n);
    LooksFreshAndUnlimited(false, Pump, 429315, n - 1);
  }

  /** So does the refill valve past its 600 s. */
  lemma WrapLetsValveStayOpen(n: nat)
    requires 429496 < n <= 858980
    ensures var f := WorkFrom(false, 428895, 100);
      var cs, es := States(f, n), Events(f, n);
      && Run(cs, es) && es[2 * n - 1] == Tick(10000 * n, 100)
      && cs[2 * n].refillOn && es[2 * n - 1].at - cs[2 * n].refillOnAt == 10000 * (n - 428896) > MAX_REFILL
      && es[2 * n - 1].at < cs[2 * n].dataAt + FRESH
  {
    ScheduleIsRun(WorkFrom(false, 428895, 100), n);
    WorksOn(false, RefillOnly, 100, 428895, n);
    LooksFreshAndUnlimited(false, RefillOnly, 428895, n - 1);
  }

  /** If the target falls silent 3.2 s before the wrap, the pump runs on its last report for up to 119 hours. */
  lemma WrapMakesStaleReportLookFresh(n: nat)
    requires 429496 < n <= 858980
    ensures var f := WorkFrom(true, 429315, 255);
      var cs, es := States(f, n), Events(f, n);
      && Run(cs, es) && es[2 * n - 1] == Tick(10000 * n, 255)
      && cs[2 * n].pumpOn && cs[2 * n].dataAt == 4294935000 && es[2 * n - 1].at - cs[2 * n].dataAt > FRESH
  {
    ScheduleIsRun(WorkFrom(true, 429315, 255), n);
    WorksOn(true, Pump, 255, 429315, n);
  }

  // --------------------------------------------------------------- the 20 s

  /** The level of the source drops for one second, 5.7 s before the wrap. */
  const DROPS: Schedule := (i: nat) => Second(false, i >= 429489, if i == 429490 then 50 else 255)

  lemma PumpsAtFirst()
    ensures StateAt(DROPS, 858980) == Working(Pump, 255, 4294900000, ReportAt(429489))
  {
    Idles(DROPS, 255, 429489);
    OneSecond(DROPS, 429489);
    InFirstTurns(ReportAt(429489), FRESH, TickAt(429489));
    InFirstTurns(0, COOLDOWN, TickAt(429489));
    StartsWork(Pump, 255, ReportAt(429488), 429489);
  }

  /** The controller after the stop. */
  const STOPPED :=
    Waiting(255, ReportAt(429490)).(targetEmpty := true, pumpOnAt := 4294900000, emptyStopAt := 4294910000,
                                    fillLevel := 203, sourceEmpty := true, variance := 51, longVariance := 12)

  lemma DropStops()
    ensures var c := Reported(Working(Pump, 255, 4294900000, ReportAt(429489)), Second(false, true, 50), 429490);
      StopsForEmptySource(Sensed(c, 50), 4294910000) && Ticked(c, 4294910000, 50) == STOPPED
  {
    var c := Reported(Working(Pump, 255, 4294900000, ReportAt(429489)), Second(false, true, 50), 429490);
    assert Sensed(c, 50) == c.(fillLevel := 203, sourceEmpty := true, variance := 51, longVariance := 12);
  }

  lemma RestartsAtOnce()
    ensures var c := Reported(STOPPED, Second(false, true, 255), 429491);
      Ticked(c, 4294920000, 255).pumpOn
  {
    var c := Reported(STOPPED, Second(false, true, 255), 429491);
    InFirstTurns(ReportAt(429491), FRESH, 4294920000);
    InFirstTurns(4294910000, COOLDOWN, 4294920000);
    var d := Sensed(c, 255);
    assert d.fillLevel == 216 && !d.sourceEmpty;
    SensedKeeps(c, 255);
    assert NextMode(d, 4294920000) == Pump;
  }

  /** The states around the stop and the start: 429490 seconds after reset, then one tick, one report, one tick. */
  lemma StopAndStart()
    ensures StateAt(DROPS, 858981) == Reported(Working(Pump, 255, 4294900000, ReportAt(429489)), Second(false, true, 50), 429490)
    ensures StateAt(DROPS, 858983) == Reported(STOPPED, Second(false, true, 255), 429491)
    ensures StateAt(DROPS, 858984).pumpOn
  {
    PumpsAtFirst();
    Reports(DROPS, 429490);
    OneSecond(DROPS, 429490);
    DropStops();
    Reports(DROPS, 429491);
    OneSecond(DROPS, 429491);
    RestartsAtOnce();
  }

  /** Six seconds before the wrap the pump starts one second after it stopped for an empty source. */
  lemma WrapSkipsCooldown()
    ensures var n := 429492;
      var cs, es := States(DROPS, n), Events(DROPS, n);
      && Run(cs, es) && EmptyStop(cs, es, 2 * n - 3)
      && es[2 * n - 1].Tick? && !cs[2 * n - 1].pumpOn && cs[2 * n].pumpOn
      && es[2 * n - 1].at - es[2 * n - 3].at == 10000 < COOLDOWN
  {
    ScheduleIsRun(DROPS, 429492);
    StopAndStart();
    DropStops();
  }
}
