/**
 The two threads of the bootloader at statement granularity. The receive thread
 has the higher priority: it runs a whole callback between any two statements of
 the node thread. `Fine` adds the node thread's program counter and the transmit
 queue, which only that thread's own `processTx` empties.
 */
module FirmwareThreads {
  import opened Bytes
  import opened FlashMemory
  import opened Firmware

  datatype Pc =
    | Top                             // begins a turn of its loop
    | Test                            // inside an update, asks whether a request is outstanding
    | Branch                          // none is: chooses between writing a page and reading on
    | Compare | Erase | Program | CompareAgain
    | Matched                         // the page is in flash: was it the last?
    | Advance | Rewind                // makes room for the next page
    | Queue | Bump | Mark             // hands out a request, moves the offset on, begins to wait
    | Clear(k: nat, status: Status)   // resets the updater, one variable after the other
    | Release | Drop                  // gives up the server, then the job, after a success
    | Abort                           // gives up both after a failure
    | Wait                            // sleeps, and sends what is queued

  datatype Fine = Fine(pc: Pc, cur: Sys, queue: Option<Read>, snap: Sys)

  datatype FineEvent = Node | Rx(e: Event)

  /** Inside the processing function, from the test that found no request pending to the end of the update branch. */
  predicate Critical(pc: Pc) { !pc.Top? && !pc.Test? && !pc.Wait? }

  /** The page at hand reads back as the buffer. */
  ghost predicate PageMatches(base: nat, s: Sys) {
    BlockFits(s.flash, base + s.upd.writeOffset, s.upd.buffer, s.upd.bufferPtr) &&
    Matches(s.flash, base + s.upd.writeOffset, s.upd.buffer, s.upd.bufferPtr)
  }

  ghost predicate FlashStep(base: nat, s: Sys, s': Sys) {
    SameOutsidePage(s.flash, s'.flash, base + s.upd.writeOffset) && s' == s.(flash := s'.flash)
  }

  function ClearOne(u: Updater, k: nat): Updater {
    if k == 0 then u.(bufferPtr := 0) else if k == 1 then u.(eof := false)
    else if k == 2 then u.(requestPtr := 0) else u.(writeOffset := 0)
  }

  /** One statement of the node thread. */
  ghost predicate NodeStep(base: nat, f: Fine, f': Fine) {
    var s, u := f.cur, f.cur.upd;
    match f.pc
    case Top => f' == f.(pc := if s.updating then Test else Wait)
    case Test => f' == if u.pending then f.(pc := Wait, cur := s.(last := InProgress)) else f.(pc := Branch, snap := s)
    case Branch => f' == f.(pc := if u.eof || u.bufferPtr == PAGE_SIZE then Compare else Queue)
    case Compare => f' == f.(pc := if PageMatches(base, s) then Matched else Erase)
    case Erase => f' == f.(pc := Program, cur := f'.cur) && FlashStep(base, s, f'.cur)
    case Program => f' == f.(pc := CompareAgain, cur := f'.cur) && FlashStep(base, s, f'.cur)
    case CompareAgain => f' == f.(pc := if PageMatches(base, s) then Matched else Clear(0, FlashFailed))
    case Matched => f' == f.(pc := if u.eof then Clear(0, Success) else Advance)
    case Advance => f' == f.(pc := Rewind, cur := s.(upd := u.(writeOffset := (u.writeOffset + u.bufferPtr) % U32)))
    case Rewind => f' == f.(pc := Wait, cur := s.(upd := u.(bufferPtr := 0), last := InProgress))
    case Queue =>
      var r := Read(s.server, s.path, u.requestPtr);
      f' == f.(pc := Bump, queue := Some(r), cur := s.(requests := s.requests + [r]))
    case Bump => f' == f.(pc := Mark, cur := s.(upd := u.(requestPtr := (u.requestPtr + CHUNK) % U32)))
    case Mark => f' == f.(pc := Wait, cur := s.(upd := u.(pending := true), last := InProgress))
    case Clear(k, status) =>
      f' == f.(pc := if k < 3 then Clear(k + 1, status) else if status == Success then Release else Abort,
               cur := s.(upd := ClearOne(u, k)))
    case Release => f' == f.(pc := Drop, cur := s.(server := 0))
    case Drop => f' == f.(pc := Wait, cur := s.(updating := false, last := Success))
    case Abort => f' == f.(pc := Wait, cur := s.(updating := false, server := 0, last := FlashFailed))
    case Wait =>
      f' == f.(pc := Top) || (f.queue.Some? && f' == f.(cur := s.(wire := f.queue), queue := None))
  }

  ghost predicate FineStep(base: nat, files: Files, f: Fine, e: FineEvent, f': Fine)
    requires Shape(f.cur.upd)
  {
    match e
    case Node => NodeStep(base, f, f')
    case Rx(ev) => !ev.Process? && f' == f.(cur := f'.cur) && Step(base, files, f.cur, ev, f'.cur)
  }

  /** The state of the atomic protocol: a pass of the node thread takes effect at its end. */
  function Abs(f: Fine): Sys {
    if Critical(f.pc) then f.snap else if f.queue.Some? then f.cur.(wire := f.queue) else f.cur
  }

  /** A request is pending exactly while it is on its way or at the server. */
  ghost predicate Linked(s: Sys) { Shape(s.upd) && (s.upd.pending <==> s.wire.Some?) }

  /** How far the pass has come, relative to the state `Branch` started from. */
  ghost predicate Midway(base: nat, f: Fine) {
    var s, u, c := f.snap, f.snap.upd, f.cur;
    match f.pc
    case Branch => c == s && f.queue == None
    case Compare => c == s && f.queue == None && WritesPage(u)
    case Erase => c == s && f.queue == None && WritesPage(u) && !PageMatches(base, s)
    case Program => f.queue == None && WritesPage(u) && !PageMatches(base, s) && FlashStep(base, s, c)
    case CompareAgain => f.queue == None && WritesPage(u) && !PageMatches(base, s) && FlashStep(base, s, c)
    case Matched => f.queue == None && WritesPage(u) && Written(base, s, c) && c == s.(flash := c.flash)
    case Advance => f.queue == None && WritesPage(u) && !u.eof && Written(base, s, c) && c == s.(flash := c.flash)
    case Rewind => f.queue == None && WritesPage(u) && !u.eof && Written(base, s, c)
      && c == s.(flash := c.flash, upd := u.(writeOffset := (u.writeOffset + u.bufferPtr) % U32))
    case Queue => c == s && f.queue == None && Requests(u)
    case Bump => Requests(u) && f.queue == Some(Read(s.server, s.path, u.requestPtr)) && c == s.(requests := s.requests + [f.queue.value])
    case Mark => Requests(u) && f.queue == Some(Read(s.server, s.path, u.requestPtr))
      && c == s.(requests := s.requests + [f.queue.value], upd := u.(requestPtr := (u.requestPtr + CHUNK) % U32))
    case Clear(k, status) => f.queue == None && k < 4 && Ended(base, s, c, status)
      && c == s.(flash := c.flash, upd := ClearedBelow(u, k))
    case Release => f.queue == None && Ended(base, s, c, Success) && c == s.(flash := c.flash, upd := Cleared(u))
    case Drop => f.queue == None && Ended(base, s, c, Success) && c == s.(flash := c.flash, upd := Cleared(u), server := 0)
    case Abort => f.queue == None && Ended(base, s, c, FlashFailed) && c == s.(flash := c.flash, upd := Cleared(u))
    case _ => true
  }

  /** The page is in flash now, and no other page changed. */
  ghost predicate Written(base: nat, s: Sys, c: Sys) {
    (if PageMatches(base, s) then c.flash == s.flash else SameOutsidePage(s.flash, c.flash, base + s.upd.writeOffset)) &&
    PageMatches(base, s.(flash := c.flash))
  }

  ghost predicate Ended(base: nat, s: Sys, c: Sys, status: Status) {
    && WritesPage(s.upd)
    && (status == Success || status == FlashFailed)
    && (status == Success ==> s.upd.eof && Written(base, s, c))
    && (status == FlashFailed ==>
        !PageMatches(base, s) && SameOutsidePage(s.flash, c.flash, base + s.upd.writeOffset) && !PageMatches(base, s.(flash := c.flash)))
  }

  function ClearedBelow(u: Updater, k: nat): Updater {
    u.(bufferPtr := if k > 0 then 0 else u.bufferPtr,
       eof := u.eof && k <= 1,
       requestPtr := if k > 2 then 0 else u.requestPtr,
       writeOffset := if k > 3 then 0 else u.writeOffset)
  }

  ghost predicate FineInv(base: nat, f: Fine) {
    && Shape(f.cur.upd)
    && Linked(Abs(f))
    && (f.pc.Test? ==> f.cur.updating)
    && (f.queue.Some? ==> f.cur.wire == None)
    && (Critical(f.pc) ==> f.snap.updating && !f.snap.upd.pending && Midway(base, f))
  }

  /** A callback that preempts a pass finds nothing to do: no request is pending and the job is taken. */
  lemma CallbacksInsideAPassDoNothing(base: nat, files: Files, f: Fine, e: FineEvent, f': Fine)
    requires FineInv(base, f) && Critical(f.pc) && e.Rx? && FineStep(base, files, f, e, f')
    ensures f' == f
  {
  }

  /** The statements with which a pass takes effect. */
  predicate TakesEffect(f: Fine) {
    f.pc.Rewind? || f.pc.Mark? || f.pc.Drop? || f.pc.Abort? || (f.pc.Test? && f.cur.upd.pending)
  }

  /** Answers, and passes that do something, at the statement with which they take effect. */
  predicate FineEffective(f: Fine, e: FineEvent) {
    if e.Rx? then e.e.Reply? else f.pc.Rewind? || f.pc.Mark? || f.pc.Drop? || f.pc.Abort?
  }

  lemma UpdateEnds(base: nat, files: Files, f: Fine, f': Fine)
    requires FineInv(base, f) && (f.pc.Drop? || f.pc.Abort?) && NodeStep(base, f, f') && Writable(base, Abs(f).flash, Abs(f).upd)
    ensures FineInv(base, f') && Step(base, files, Abs(f), Process, Abs(f'))
  {
  }

  lemma PassTakesEffect(base: nat, files: Files, f: Fine, f': Fine)
    requires FineInv(base, f) && TakesEffect(f) && NodeStep(base, f, f') && Writable(base, Abs(f).flash, Abs(f).upd)
    ensures FineInv(base, f') && Step(base, files, Abs(f), Process, Abs(f'))
  {
    if f.pc.Drop? || f.pc.Abort? {
      UpdateEnds(base, files, f, f');
    }
  }

  predicate AtFlash(pc: Pc) { pc.Compare? || pc.Erase? || pc.Program? || pc.CompareAgain? || pc.Matched? || pc.Advance? }

  lemma FlashStatementIsSilent(base: nat, f: Fine, f': Fine)
    requires FineInv(base, f) && AtFlash(f.pc) && NodeStep(base, f, f')
    ensures FineInv(base, f') && Abs(f') == Abs(f)
  {
    assert Midway(base, f);
    assert Midway(base, f');
  }

  lemma StatementInsidePassIsSilent(base: nat, f: Fine, f': Fine)
    requires FineInv(base, f) && Critical(f.pc) && !AtFlash(f.pc) && !TakesEffect(f) && NodeStep(base, f, f')
    ensures FineInv(base, f') && Abs(f') == Abs(f)
  {
  }

  lemma StatementOutsidePassIsSilent(base: nat, f: Fine, f': Fine)
    requires FineInv(base, f) && !Critical(f.pc) && !TakesEffect(f) && NodeStep(base, f, f')
    ensures FineInv(base, f') && Abs(f') == Abs(f)
  {
  }

  lemma CallbackOutsidePassIsAtomic(base: nat, files: Files, f: Fine, e: FineEvent, f': Fine)
    requires FineInv(base, f) && !Critical(f.pc) && e.Rx? && FineStep(base, files, f, e, f')
    ensures FineInv(base, f') && Step(base, files, Abs(f), e.e, Abs(f'))
  {
  }

  /** Each statement, and each callback between statements, is one step of the atomic protocol or none. */
  lemma FineStepRefines(base: nat, files: Files, f: Fine, e: FineEvent, f': Fine) returns (a: Event)
    requires FineInv(base, f) && FineStep(base, files, f, e, f') && Writable(base, Abs(f).flash, Abs(f).upd)
    ensures FineInv(base, f')
    ensures Step(base, files, Abs(f), a, Abs(f'))
    ensures a.Begin? ==> e == Rx(a)
    ensures e.Node? && f.pc.Drop? ==> a == Process
    ensures FineEffective(f, e) <==> Effective(Abs(f), a)
  {
    a := Stray([]);
    if e.Rx? {
      if Critical(f.pc) {
        CallbacksInsideAPassDoNothing(base, files, f, e, f');
      } else {
        CallbackOutsidePassIsAtomic(base, files, f, e, f');
        a := e.e;
      }
    } else if TakesEffect(f) {
      PassTakesEffect(base, files, f, f');
      a := Process;
    } else if AtFlash(f.pc) {
      FlashStatementIsSilent(base, f, f');
    } else if Critical(f.pc) {
      StatementInsidePassIsSilent(base, f, f');
    } else {
      StatementOutsidePassIsSilent(base, f, f');
    }
  }

  // --------------------------------------------------------------- whole runs

  ghost predicate FineStepAt(base: nat, files: Files, fs: seq<Fine>, es: seq<FineEvent>, i: nat)
    requires |fs| == |es| + 1 && i < |es|
  {
    Shape(fs[i].cur.upd) && FineStep(base, files, fs[i], es[i], fs[i + 1])
  }

  /** Any preemption of the node thread by any callbacks, from power-up on. */
  ghost predicate FineRun(base: nat, files: Files, fs: seq<Fine>, es: seq<FineEvent>) {
    && |fs| == |es| + 1
    && fs[0].pc == Top && fs[0].queue == None && Idle(fs[0].cur)
    && (forall i | 0 <= i < |es| :: FineStepAt(base, files, fs, es, i))
    && (forall i | 0 <= i < |es| && es[i].Rx? && es[i].e.Begin? :: Fits(base, fs[0].cur.flash, files(es[i].e.source, es[i].e.path)))
  }

  ghost function AbsRun(fs: seq<Fine>): (ss: seq<Sys>)
    ensures |ss| == |fs| && forall i | 0 <= i < |fs| :: ss[i] == Abs(fs[i])
  {
    seq(|fs|, i requires 0 <= i < |fs| => Abs(fs[i]))
  }

  /** How the atomic events `atoms` relate to the events of the preempted run. */
  ghost predicate Matching(fs: seq<Fine>, es: seq<FineEvent>, atoms: seq<Event>) {
    && |fs| == |es| + 1 && |atoms| == |es|
    && forall i | 0 <= i < |es| :: AtomMatches(fs[i], es[i], atoms[i])
  }

  ghost predicate AtomMatches(f: Fine, e: FineEvent, a: Event) {
    && (a.Begin? ==> e == Rx(a))
    && (e.Node? && f.pc.Drop? ==> a == Process)
    && (FineEffective(f, e) <==> Effective(Abs(f), a))
  }

  /** Every preempted run is, seen from its pass boundaries, a run of the atomic protocol. */
  lemma {:induction false} FineRunRefines(base: nat, files: Files, fs: seq<Fine>, es: seq<FineEvent>) returns (atoms: seq<Event>)
    requires FineRun(base, files, fs, es)
    ensures Run(base, files, AbsRun(fs), atoms) && Matching(fs, es, atoms)
    ensures forall i | 0 <= i < |fs| :: FineInv(base, fs[i])
    decreases |es|
  {
    if |es| == 0 {
      atoms := [];
    } else {
      PrefixRun(base, files, fs, es);
      atoms := FineRunRefines(base, files, fs[..|es|], es[..|es| - 1]);
      atoms := OneMoreAtom(base, files, fs, es, atoms);
    }
  }

  lemma OneMoreAtom(base: nat, files: Files, fs: seq<Fine>, es: seq<FineEvent>, atoms: seq<Event>) returns (atoms': seq<Event>)
    requires FineRun(base, files, fs, es) && |es| > 0
    requires Run(base, files, AbsRun(fs[..|es|]), atoms) && Matching(fs[..|es|], es[..|es| - 1], atoms)
    requires forall i | 0 <= i < |es| :: FineInv(base, fs[..|es|][i])
    ensures Run(base, files, AbsRun(fs), atoms') && Matching(fs, es, atoms')
    ensures forall i | 0 <= i < |fs| :: FineInv(base, fs[i])
  {
    var m, ss := |es| - 1, AbsRun(fs[..|es|]);
    assert fs[..|es|][m] == fs[m] && FineStepAt(base, files, fs, es, m);
    RunIsWritable(base, files, ss, atoms);
    var a := FineStepRefines(base, files, fs[m], es[m], fs[m + 1]);
    ExtendRun(base, files, ss, atoms, a, Abs(fs[m + 1]));
    assert AbsRun(fs) == ss + [Abs(fs[m + 1])];
    atoms' := atoms + [a];
    MatchingExtends(fs, es, atoms, a);
    forall i | 0 <= i < |fs| ensures FineInv(base, fs[i]) {
      if i <= m { assert fs[..|es|][i] == fs[i]; }
    }
  }

  lemma MatchingExtends(fs: seq<Fine>, es: seq<FineEvent>, atoms: seq<Event>, a: Event)
    requires |es| > 0 && |fs| == |es| + 1 && Matching(fs[..|es|], es[..|es| - 1], atoms) && AtomMatches(fs[|es| - 1], es[|es| - 1], a)
    ensures Matching(fs, es, atoms + [a])
  {
    forall i | 0 <= i < |es| ensures AtomMatches(fs[i], es[i], (atoms + [a])[i]) {
      if i < |es| - 1 { assert AtomMatches(fs[..|es|][i], es[..|es| - 1][i], atoms[i]); }
    }
  }

  lemma PrefixRun(base: nat, files: Files, fs: seq<Fine>, es: seq<FineEvent>)
    requires FineRun(base, files, fs, es) && |es| > 0
    ensures FineRun(base, files, fs[..|es|], es[..|es| - 1])
  {
    var gs, ds := fs[..|es|], es[..|es| - 1];
    forall i | 0 <= i < |ds| ensures FineStepAt(base, files, gs, ds, i) {
      assert FineStepAt(base, files, fs, es, i);
    }
  }

  lemma RunIsWritable(base: nat, files: Files, ss: seq<Sys>, es: seq<Event>)
    requires Run(base, files, ss, es)
    ensures Shape(ss[|es|].upd) && Writable(base, ss[|es|].flash, ss[|es|].upd)
  {
    var b := Origin(base, files, ss, es, |es|);
    if ss[|es|].updating {
      ActiveIsWritable(base, ss[|es|], es[b].source, es[b].path, files(es[b].source, es[b].path), ss[b].flash);
    }
  }

  lemma ExtendRun(base: nat, files: Files, ss: seq<Sys>, es: seq<Event>, e: Event, s: Sys)
    requires Run(base, files, ss, es) && Shape(ss[|es|].upd) && Step(base, files, ss[|es|], e, s)
    requires e.Begin? ==> Fits(base, ss[0].flash, files(e.source, e.path))
    ensures Run(base, files, ss + [s], es + [e])
  {
    var ss', es' := ss + [s], es + [e];
    forall i | 0 <= i < |es'| ensures StepAt(base, files, ss', es', i) {
      if i < |es| { assert StepAt(base, files, ss, es, i); }
    }
  }

  // ------------------------------------------------------- one preempted update

  /** The request accepted by callback `b` is being worked on until `n`. */
  ghost predicate Job(fs: seq<Fine>, es: seq<FineEvent>, b: nat, n: nat)
    requires |fs| == |es| + 1
  {
    && b < n <= |es| && es[b].Rx? && es[b].e.Begin? && !fs[b].cur.updating
    && forall i | b < i <= n :: JobAt(fs[i], es[b].e)
  }

  ghost predicate JobAt(f: Fine, e: Event)
    requires e.Begin?
  {
    f.cur.updating && f.cur.path == e.path && (f.pc != Drop ==> f.cur.server == e.source)
  }

  lemma ActiveIsJob(base: nat, f: Fine, e: Event, file: seq<byte>, start: seq<byte>)
    requires FineInv(base, f) && e.Begin? && Active(base, Abs(f), e.source, e.path, file, start)
    ensures JobAt(f, e)
  {
  }

  lemma UpdatingIsAbstract(base: nat, f: Fine)
    requires FineInv(base, f)
    ensures Abs(f).updating == f.cur.updating
    ensures !f.cur.updating ==> Abs(f).flash == f.cur.flash
  {
  }

  lemma StartedIsJob(base: nat, files: Files, fs: seq<Fine>, es: seq<FineEvent>, atoms: seq<Event>, b: nat, n: nat)
    requires |fs| == |es| + 1 && Matching(fs, es, atoms) && forall i | 0 <= i < |fs| :: FineInv(base, fs[i])
    requires StartedAt(base, files, AbsRun(fs), atoms, b, n)
    ensures Job(fs, es, b, n) && es[b].e == atoms[b] && AbsRun(fs)[b].flash == fs[b].cur.flash
  {
    var ss := AbsRun(fs);
    assert AtomMatches(fs[b], es[b], atoms[b]);
    UpdatingIsAbstract(base, fs[b]);
    forall i | b < i <= n ensures JobAt(fs[i], atoms[b]) {
      assert Active(base, ss[i], atoms[b].source, atoms[b].path, files(atoms[b].source, atoms[b].path), ss[b].flash);
      ActiveIsJob(base, fs[i], atoms[b], files(atoms[b].source, atoms[b].path), ss[b].flash);
    }
  }

  /** The requests for 0, 256, 512, ... up to the first short chunk. */
  function AllReads(server: byte, path: seq<byte>, len: nat): seq<Read> {
    seq(len / CHUNK + 1, i requires 0 <= i => Read(server, path, CHUNK * i))
  }

  lemma AtDrop(base: nat, files: Files, f: Fine, f': Fine)
    requires FineInv(base, f) && f.pc == Drop && FineStep(base, files, f, Node, f')
    ensures Abs(f').last == Success && Abs(f').flash == f.cur.flash && Abs(f').requests == f.cur.requests
  {
  }

  /**
   The update theorem under preemption: when the node thread is about to drop the
   update flag after a success, the flash holds the file of the request accepted
   last, only that file's pages differ from what that request found, and the file
   was read by requests for 0, 256, 512, ..., each once.
   */
  lemma PreemptedSuccessMeansFileInFlash(base: nat, files: Files, fs: seq<Fine>, es: seq<FineEvent>, n: nat) returns (b: nat)
    requires FineRun(base, files, fs, es) && n < |es|
    requires fs[n].pc == Drop && es[n] == Node
    ensures Job(fs, es, b, n)
    ensures var file := files(es[b].e.source, es[b].e.path);
      && base + |file| <= |fs[n].cur.flash| && fs[n].cur.flash[base..base + |file|] == file
      && Untouched(base, fs[n].cur.flash, fs[b].cur.flash, |file|)
      && fs[n].cur.requests == AllReads(es[b].e.source, es[b].e.path, |file|)
  {
    var atoms := FineRunRefines(base, files, fs, es);
    assert FineStepAt(base, files, fs, es, n) && FineInv(base, fs[n]) && AtomMatches(fs[n], es[n], atoms[n]);
    AtDrop(base, files, fs[n], fs[n + 1]);
    b := SuccessMeansFileInFlash(base, files, AbsRun(fs), atoms, n);
    StartedIsJob(base, files, fs, es, atoms, b, n);
  }

  function FineEffectiveSteps(fs: seq<Fine>, es: seq<FineEvent>, lo: nat, hi: nat): nat
    requires |fs| == |es| + 1 && lo <= hi <= |es|
    decreases hi
  {
    if lo == hi then 0 else FineEffectiveSteps(fs, es, lo, hi - 1) + (if FineEffective(fs[hi - 1], es[hi - 1]) then 1 else 0)
  }

  lemma {:induction false} SameEffectiveSteps(fs: seq<Fine>, es: seq<FineEvent>, atoms: seq<Event>, lo: nat, hi: nat)
    requires Matching(fs, es, atoms) && lo <= hi <= |es|
    ensures FineEffectiveSteps(fs, es, lo, hi) == EffectiveSteps(AbsRun(fs), atoms, lo, hi)
    decreases hi
  {
    if lo < hi {
      SameEffectiveSteps(fs, es, atoms, lo, hi - 1);
      assert AtomMatches(fs[hi - 1], es[hi - 1], atoms[hi - 1]);
    }
  }

  /** A job, preempted in any way, takes at most four answers and working passes per chunk. */
  lemma PreemptedUpdateTerminates(base: nat, files: Files, fs: seq<Fine>, es: seq<FineEvent>, n: nat) returns (b: nat)
    requires FineRun(base, files, fs, es) && n <= |es| && fs[n].cur.updating
    ensures Job(fs, es, b, n)
    ensures FineEffectiveSteps(fs, es, b + 1, n) <= 4 * (|files(es[b].e.source, es[b].e.path)| / CHUNK + 1)
  {
    var atoms := FineRunRefines(base, files, fs, es);
    var ss := AbsRun(fs);
    UpdatingIsAbstract(base, fs[n]);
    b := Origin(base, files, ss, atoms, n);
    StartedIsJob(base, files, fs, es, atoms, b, n);
    SameEffectiveSteps(fs, es, atoms, b + 1, n);
    UpdateTerminates(base, files, ss, atoms, b, n);
    assert Active(base, ss[n], atoms[b].source, atoms[b].path, files(atoms[b].source, atoms[b].path), ss[b].flash);
    RemainingIsPositive(base, ss[n], atoms[b].source, atoms[b].path, files(atoms[b].source, atoms[b].path), ss[b].flash);
  }
}
