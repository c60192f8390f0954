/** The debounced event counter of the digital inputs. */
module EventCount {
  import opened Clock

  const EVENTCOUNT_PORTS := 4

  /** What the counter keeps of one input. */
  datatype Port = Port(lastState: bool, lastChange: systime, lastStable: bool, count: nat)

  const INITIAL := Port(false, 0, false, 0)

  function Acquired(p: Port, minStable: systime, now: systime, level: bool): Port {
    if minStable == 0 || (level == p.lastState && Elapsed(now, p.lastChange) > minStable) then
      p.(count := if level && !p.lastStable then (p.count + 1) % 0x1_0000_0000 else p.count, lastStable := level)
    else if level != p.lastState then
      p.(lastState := level, lastChange := now)
    else
      p
  }

  class EventCounter {
    const ports: nat
    const minStable: array<systime>
    const lastChange: array<systime>
    const lastState: array<bool>
    const lastStable: array<bool>
    const count: array<nat>

    ghost predicate Valid() reads this {
      && ports <= EVENTCOUNT_PORTS
      && minStable.Length == lastChange.Length == lastState.Length == lastStable.Length == count.Length == EVENTCOUNT_PORTS
      && minStable != lastChange && lastState != lastStable
    }

    ghost function At(i: nat): Port
      requires Valid() && i < EVENTCOUNT_PORTS
      reads this, lastState, lastChange, lastStable, count
    {
      Port(lastState[i], lastChange[i], lastStable[i], count[i])
    }

    constructor (ports: nat, stable: seq<systime>)
      requires ports <= EVENTCOUNT_PORTS == |stable|
      ensures Valid() && this.ports == ports && minStable[..] == stable
      ensures forall i | 0 <= i < EVENTCOUNT_PORTS :: At(i) == INITIAL
      ensures fresh(minStable) && fresh(lastChange) && fresh(lastState) && fresh(lastStable) && fresh(count)
    {
      this.ports := ports;
      minStable := new systime[EVENTCOUNT_PORTS](i requires 0 <= i < |stable| => stable[i]);
      lastChange := new systime[EVENTCOUNT_PORTS](_ => 0);
      lastState := new bool[EVENTCOUNT_PORTS](_ => false);
      lastStable := new bool[EVENTCOUNT_PORTS](_ => false);
      count := new nat[EVENTCOUNT_PORTS](_ => 0);
    }

    method Acquire(now: systime, levels: seq<bool>)
      requires Valid() && |levels| == EVENTCOUNT_PORTS
      modifies lastChange, lastState, lastStable, count
      ensures forall i | 0 <= i < EVENTCOUNT_PORTS ::
        At(i) == if i < ports then Acquired(old(At(i)), minStable[i], now, levels[i]) else old(At(i))
    {
      for i := 0 to ports
        invariant forall j | 0 <= j < EVENTCOUNT_PORTS ::
          At(j) == if j < i then Acquired(old(At(j)), minStable[j], now, levels[j]) else old(At(j))
      {
        var state := levels[i];
        assert At(i) == old(At(i));
        if minStable[i] == 0 || (state == lastState[i] && Elapsed(now, lastChange[i]) > minStable[i]) {
          if state && !lastStable[i] {
            count[i] := (count[i] + 1) % 0x1_0000_0000;
          }
          lastStable[i] := state;
        } else if state != lastState[i] {
          lastState[i] := state;
          lastChange[i] := now;
        }
      }
    }
  }

  // --------------------------------------------------------------- whole runs

  /** A reading of the input at real time `at`. */
  datatype Sample = Sample(at: nat, level: bool)

  ghost predicate Ordered(s: seq<Sample>) {
    forall i, j | 0 <= i <= j < |s| :: s[i].at <= s[j].at
  }

  /** The state after the first `n` readings since reset. */
  function After(s: seq<Sample>, minStable: systime, n: nat): Port
    requires n <= |s|
  {
    if n == 0 then INITIAL else Acquired(After(s, minStable, n - 1), minStable, Counter(s[n - 1].at), s[n - 1].level)
  }

  /** Reading `k` raises the debounced state. */
  predicate Rises(s: seq<Sample>, minStable: systime, k: nat)
    requires k < |s|
  {
    !After(s, minStable, k).lastStable && After(s, minStable, k + 1).lastStable
  }

  function Rising(s: seq<Sample>, minStable: systime, n: nat): nat
    requires n <= |s|
  {
    if n == 0 then 0 else Rising(s, minStable, n - 1) + if Rises(s, minStable, n - 1) then 1 else 0
  }

  /** The readings from `j` to `k` all show `level`, over more than the minimum stable time. */
  ghost predicate Held(s: seq<Sample>, minStable: systime, level: bool, j: nat, k: nat) {
    j <= k < |s| && s[k].at - s[j].at > minStable && forall i | j <= i <= k :: s[i].level == level
  }

  lemma IncrementModulo(c: nat, n: nat)
    requires c == n % 0x1_0000_0000
    ensures (c + 1) % 0x1_0000_0000 == (n + 1) % 0x1_0000_0000
  {
  }

  /** The counter is the number of rising edges of the debounced state, modulo 2^32; it counts at those readings only. */
  lemma {:induction false} CountIsRisingEdges(s: seq<Sample>, minStable: systime, n: nat)
    requires n <= |s|
    ensures After(s, minStable, n).count == Rising(s, minStable, n) % 0x1_0000_0000
  {
    if n > 0 {
      CountIsRisingEdges(s, minStable, n - 1);
      IncrementModulo(After(s, minStable, n - 1).count, Rising(s, minStable, n - 1));
    }
  }

  /** Without a stable time every rising edge of the raw input counts. */
  lemma {:induction false} ZeroStableTimeDoesNotDebounce(s: seq<Sample>, n: nat)
    requires n <= |s|
    ensures After(s, 0, n).lastStable == (n > 0 && s[n - 1].level)
    ensures n < |s| ==> (Rises(s, 0, n) <==> s[n].level && (n == 0 || !s[n - 1].level))
  {
    if n > 0 { ZeroStableTimeDoesNotDebounce(s, n - 1); }
  }

  /** Where the current level began: the reading since which it is constant, or none since reset while it is low. */
  lemma {:induction false} RunStart(s: seq<Sample>, minStable: systime, n: nat) returns (j: int)
    requires minStable > 0 && n <= |s|
    ensures -1 <= j < n
    ensures var p := After(s, minStable, n);
      && (forall i | (if j < 0 then 0 else j) <= i < n :: s[i].level == p.lastState)
      && (if j < 0 then !p.lastState else p.lastChange == Counter(s[j].at))
  {
    j := -1;
    if n > 0 {
      j := RunStart(s, minStable, n - 1);
      if After(s, minStable, n).lastState != After(s, minStable, n - 1).lastState {
        j := n - 1;
      }
    }
  }

  /** The debounced state only changes to a level held for more than the minimum stable time. */
  lemma ChangeIsBacked(s: seq<Sample>, minStable: systime, k: nat) returns (j: int)
    requires Ordered(s) && minStable > 0 && k < |s|
    requires After(s, minStable, k + 1).lastStable != After(s, minStable, k).lastStable
    ensures s[k].level == After(s, minStable, k + 1).lastStable
    ensures -1 <= j <= k
    ensures if j >= 0 then Held(s, minStable, s[k].level, j, k) else !s[k].level && forall i | 0 <= i <= k :: !s[i].level
  {
    j := RunStart(s, minStable, k);
    if j >= 0 {
      ElapsedNeverExceedsReal(s[j].at, s[k].at);
    }
  }

  /** Each count is backed by more than the minimum stable time at the high level. */
  lemma CountIsBacked(s: seq<Sample>, minStable: systime, k: nat) returns (j: nat)
    requires Ordered(s) && minStable > 0 && k < |s| && Rises(s, minStable, k)
    ensures Held(s, minStable, true, j, k)
  {
    var i := ChangeIsBacked(s, minStable, k);
    j := i;
  }

  /** A fall after a high reading is backed the same way. */
  lemma FallIsBacked(s: seq<Sample>, minStable: systime, m: nat, a: nat) returns (j: nat)
    requires Ordered(s) && minStable > 0 && a < m < |s| && s[a].level
    requires After(s, minStable, m).lastStable && !After(s, minStable, m + 1).lastStable
    ensures a < j && Held(s, minStable, false, j, m)
  {
    var i := ChangeIsBacked(s, minStable, m);
    j := i;
  }

  /** Between a high and a low debounced state there is a change from one to the other. */
  lemma {:induction false} LastFall(s: seq<Sample>, minStable: systime, lo: nat, hi: nat) returns (m: nat)
    requires lo < hi <= |s| && After(s, minStable, lo).lastStable && !After(s, minStable, hi).lastStable
    ensures lo <= m < hi && After(s, minStable, m).lastStable && !After(s, minStable, m + 1).lastStable
    decreases hi - lo
  {
    if After(s, minStable, hi - 1).lastStable {
      m := hi - 1;
    } else {
      m := LastFall(s, minStable, lo, hi - 1);
    }
  }

  lemma HeldAfter(s: seq<Sample>, minStable: systime, level: bool, j: nat, k: nat, i: nat)
    requires Held(s, minStable, level, j, k) && i <= k && s[i].level != level
    ensures i < j
  {
  }

  /** Two counts are more than twice the minimum stable time apart in real time, also when the clock wraps in between. */
  lemma CountsAreFarApart(s: seq<Sample>, minStable: systime, a: nat, b: nat)
    requires Ordered(s) && minStable > 0 && a < b < |s| && Rises(s, minStable, a) && Rises(s, minStable, b)
    ensures s[b].at - s[a].at > 2 * minStable
  {
    var m := LastFall(s, minStable, a + 1, b);
    var _ := CountIsBacked(s, minStable, a);
    var b0 := CountIsBacked(s, minStable, b);
    assert s[a].level;
    var m0 := FallIsBacked(s, minStable, m, a);
    HeldAfter(s, minStable, true, b0, b, m);
  }

  // ------------------------------------------------------- every event is counted

  /** The readings from `j` to `k` all show `level`, and reading `j` begins them. */
  ghost predicate Stretch(s: seq<Sample>, level: bool, j: nat, k: nat) {
    j <= k < |s| && (j == 0 || s[j - 1].level != level) && forall i | j <= i <= k :: s[i].level == level
  }

  /** A reading of the stretch so far came more than the stable time after its beginning, as the counter shows it. */
  ghost predicate SeenStable(s: seq<Sample>, minStable: systime, j: nat, k: nat)
    requires j <= k < |s|
  {
    exists i: nat :: j < i <= k && StableAt(s, minStable, j, i)
  }

  predicate StableAt(s: seq<Sample>, minStable: systime, j: nat, i: nat)
    requires j < |s| && i < |s|
  {
    Elapsed(Counter(s[i].at), Counter(s[j].at)) > minStable
  }

  lemma {:induction false} LastLevelIsKept(s: seq<Sample>, minStable: systime, n: nat)
    requires minStable > 0 && n <= |s|
    ensures After(s, minStable, n).lastState == (n > 0 && s[n - 1].level)
  {
    if n > 0 { LastLevelIsKept(s, minStable, n - 1); }
  }

  /** Through a stretch the time of its beginning is kept, and the debounced state follows as soon as it has been seen stable. */
  lemma {:induction false} StretchIff(s: seq<Sample>, minStable: systime, level: bool, j: nat, k: nat)
    requires minStable > 0 && Stretch(s, level, j, k) && (j > 0 || level)
    ensures var p, q := After(s, minStable, j), After(s, minStable, k + 1);
      && q.lastState == level && q.lastChange == Counter(s[j].at)
      && q.lastStable == (if SeenStable(s, minStable, j, k) then level else p.lastStable)
      && q.count == (if SeenStable(s, minStable, j, k) && level && !p.lastStable then (p.count + 1) % 0x1_0000_0000 else p.count)
    decreases k
  {
    if k == j {
      LastLevelIsKept(s, minStable, j);
    } else {
      StretchIff(s, minStable, level, j, k - 1);
      SeenUpTo(s, minStable, j, k);
    }
  }

  lemma SeenUpTo(s: seq<Sample>, minStable: systime, j: nat, k: nat)
    requires j < k < |s|
    ensures SeenStable(s, minStable, j, k) <==> SeenStable(s, minStable, j, k - 1) || StableAt(s, minStable, j, k)
  {
  }

  /**
   At the end of a stretch the debounced state is its level if and only if it was so
   before, or a reading of the stretch came more than the stable time after its beginning;
   and a high stretch adds one to the count if and only if that is news.
   */
  lemma StretchIsFollowedIff(s: seq<Sample>, minStable: systime, level: bool, j: nat, k: nat)
    requires minStable > 0 && Stretch(s, level, j, k)
    ensures var before, after := After(s, minStable, j), After(s, minStable, k + 1);
      && (after.lastStable == level <==> before.lastStable == level || SeenStable(s, minStable, j, k))
      && after.count == (if level && !before.lastStable && SeenStable(s, minStable, j, k) then (before.count + 1) % 0x1_0000_0000 else before.count)
  {
    if j > 0 || level { StretchIff(s, minStable, level, j, k); } else { LowFromTheStart(s, minStable, k); }
  }

  lemma {:induction false} LowFromTheStart(s: seq<Sample>, minStable: systime, k: nat)
    requires minStable > 0 && Stretch(s, false, 0, k)
    ensures var p := After(s, minStable, k + 1); !p.lastState && !p.lastStable && p.count == 0
  {
    if k > 0 {
      LowFromTheStart(s, minStable, k - 1);
    } else {
      assert After(s, minStable, 0) == INITIAL;
    }
  }

  /** In real time, for stretches shorter than a turn of the counter: what counts is how long the stretch has lasted. */
  lemma SeenStableInRealTime(s: seq<Sample>, minStable: systime, j: nat, k: nat)
    requires Ordered(s) && j <= k < |s| && s[k].at - s[j].at < 0x1_0000_0000
    ensures SeenStable(s, minStable, j, k) <==> s[k].at - s[j].at > minStable
  {
    if i: nat :| j < i <= k && StableAt(s, minStable, j, i) {
      ElapsedNeverExceedsReal(s[j].at, s[i].at);
    }
    ElapsedNeverExceedsReal(s[j].at, s[k].at);
    if s[k].at - s[j].at > minStable { assert StableAt(s, minStable, j, k); }
  }

  /** Every high stretch that lasts longer than the stable time, after a debounced low, is counted once, however long it lasts. */
  lemma {:induction false} LongHighStretchCountsOnce(s: seq<Sample>, minStable: systime, j: nat, k: nat)
    requires Ordered(s) && minStable > 0 && Stretch(s, true, j, k) && !After(s, minStable, j).lastStable
    requires s[k].at - s[j].at < 0x1_0000_0000
    ensures Rising(s, minStable, k + 1) == Rising(s, minStable, j) + if s[k].at - s[j].at > minStable then 1 else 0
    ensures After(s, minStable, k + 1).lastStable <==> s[k].at - s[j].at > minStable
    decreases k
  {
    SeenStableInRealTime(s, minStable, j, k);
    StretchIsFollowedIff(s, minStable, true, j, k);
    if k > j {
      LongHighStretchCountsOnce(s, minStable, j, k - 1);
    } else {
      StretchIff(s, minStable, true, j, j);
    }
  }
}
