/**
 The firmware update protocol of the bootloader: a file is read over the bus in
 chunks of 256 bytes, collected into pages of 2 KiB and written to flash.

 `Updater` holds the statics of the updater; `Sys` adds the flash, the node
 thread's flag, the job it works on and the request that is on the bus. One step
 of `Sys` is one call of a callback or one pass of the node thread.
 */
module Firmware {
  import opened Bytes
  import opened FlashMemory

  const CHUNK := 256

  datatype Updater = Updater(
    requestPtr: nat,
    pending: bool,
    eof: bool,
    buffer: seq<byte>,
    bufferPtr: nat,
    writeOffset: nat
  )

  datatype Status = InProgress | Success | FlashFailed

  /** What keeps every buffer access of the updater in bounds, whatever the server sends. */
  ghost predicate Shape(u: Updater) {
    && |u.buffer| == PAGE_SIZE
    && u.bufferPtr <= PAGE_SIZE
    && (!u.eof ==> u.bufferPtr % CHUNK == 0)
    && (u.eof ==> u.bufferPtr < PAGE_SIZE)
    && (u.pending ==> !u.eof && u.bufferPtr < PAGE_SIZE)
  }

  /** While an answer is awaited, the largest chunk fits behind what the buffer holds. */
  lemma RoomForChunk(u: Updater)
    requires Shape(u) && u.pending
    ensures u.bufferPtr + CHUNK <= PAGE_SIZE
  {
    assert u.bufferPtr == CHUNK * (u.bufferPtr / CHUNK);
  }

  /** The file-read response callback: two bytes of error code, then the chunk. */
  function Receive(u: Updater, payload: seq<byte>): (r: Updater)
    requires Shape(u)
    ensures Shape(r)
  {
    if !u.pending || |payload| < 2 || |payload| - 2 > CHUNK then
      u
    else
      u.(buffer := Splice(u.buffer, u.bufferPtr, payload[2..]),
         bufferPtr := u.bufferPtr + |payload| - 2,
         pending := false,
         eof := u.eof || |payload| - 2 != CHUNK)
  }

  function Cleared(u: Updater): Updater {
    u.(bufferPtr := 0, eof := false, requestPtr := 0, writeOffset := 0)
  }

  predicate WritesPage(u: Updater) { !u.pending && (u.eof || u.bufferPtr == PAGE_SIZE) }

  predicate Requests(u: Updater) { !u.pending && !u.eof && u.bufferPtr != PAGE_SIZE }

  /** A page can be handed to the flash driver. */
  ghost predicate Writable(base: nat, flash: seq<byte>, u: Updater) {
    WritesPage(u) ==> BlockFits(flash, base + u.writeOffset, u.buffer, u.bufferPtr)
  }

  /**
   One call of the processing function. Erase and program may leave anything in
   the page they work on; only the comparisons decide about the outcome.
   */
  ghost predicate Processed(base: nat, f: seq<byte>, u: Updater, f': seq<byte>, u': Updater, status: Status)
    requires Shape(u) && Writable(base, f, u)
  {
    if WritesPage(u) then
      var adr := base + u.writeOffset;
      && |f'| == |f|
      && (if Matches(f, adr, u.buffer, u.bufferPtr) then f' == f else SameOutsidePage(f, f', adr))
      && (if !Matches(f', adr, u.buffer, u.bufferPtr) then status == FlashFailed && u' == Cleared(u)
          else if u.eof then status == Success && u' == Cleared(u)
          else status == InProgress && u' == u.(writeOffset := (u.writeOffset + u.bufferPtr) % U32, bufferPtr := 0))
    else
      && f' == f && status == InProgress
      && u' == if Requests(u) then u.(requestPtr := (u.requestPtr + CHUNK) % U32, pending := true) else u
  }

  /** A request for the 256 bytes at `offset` of a file. */
  datatype Read = Read(server: byte, path: seq<byte>, offset: nat)

  datatype Sys = Sys(
    updating: bool,
    server: byte,
    path: seq<byte>,
    upd: Updater,
    flash: seq<byte>,
    wire: Option<Read>,
    requests: seq<Read>,   // every request of this update so far, oldest first
    last: Status        // result of the last call of the processing function
  )

  /** The contents of the files on the bus, by server and path. */
  type Files = (byte, seq<byte>) -> seq<byte>

  datatype Event =
    | Begin(source: byte, path: seq<byte>, restarting: bool)
    | Process
    | Reply(error: seq<byte>)
    | Stray(payload: seq<byte>)

  /** The chunk a file server answers with. */
  function Chunk(file: seq<byte>, offset: nat): (c: seq<byte>)
    ensures |c| <= CHUNK
  {
    if offset >= |file| then [] else file[offset..Min(offset + CHUNK, |file|)]
  }

  /** The bytes of the pages an image of `len` bytes occupies. */
  function Covered(len: nat): nat { (len + PAGE_SIZE - 1) / PAGE_SIZE * PAGE_SIZE }

  /** The application area starts on a page and the file fits behind it. */
  ghost predicate Fits(base: nat, flash: seq<byte>, file: seq<byte>) {
    base % PAGE_SIZE == 0 && base + Covered(|file|) <= |flash| && |flash| % PAGE_SIZE == 0 && |file| + PAGE_SIZE < U32
  }

  ghost predicate Step(base: nat, files: Files, s: Sys, e: Event, s': Sys)
    requires Shape(s.upd)
  {
    match e
    case Begin(source, path, restarting) =>
      s' == if s.updating || restarting then s
            else s.(updating := true, server := source, path := path, requests := [], last := InProgress)
    case Process =>
      && s.updating
      && Writable(base, s.flash, s.upd)
      && Processed(base, s.flash, s.upd, s'.flash, s'.upd, s'.last)
      && s'.path == s.path
      && (var done := s'.last != InProgress; s'.updating == !done && s'.server == if done then 0 else s.server)
      && (if Requests(s.upd) then var r := Read(s.server, s.path, s.upd.requestPtr); s'.wire == Some(r) && s'.requests == s.requests + [r]
          else s'.wire == s.wire && s'.requests == s.requests)
    case Reply(error) =>
      && s.wire.Some? && |error| == 2
      && (var r := s.wire.value;
          s' == s.(wire := None, upd := Receive(s.upd, error + Chunk(files(r.server, r.path), r.offset))))
    case Stray(payload) =>
      // a response to nothing, or one of impossible size
      && (!s.upd.pending || |payload| < 2 || |payload| - 2 > CHUNK)
      && s' == s.(upd := Receive(s.upd, payload))
  }

  /** The system after a pass of the node thread that left `flash` and `upd` and reported `status`. */
  function Passed(s: Sys, flash: seq<byte>, upd: Updater, status: Status): Sys {
    var r := Read(s.server, s.path, s.upd.requestPtr);
    var done := status != InProgress;
    s.(flash := flash, upd := upd, last := status, updating := !done, server := if done then 0 else s.server,
       wire := if Requests(s.upd) then Some(r) else s.wire, requests := if Requests(s.upd) then s.requests + [r] else s.requests)
  }

  lemma PassIsStep(base: nat, files: Files, s: Sys, flash: seq<byte>, upd: Updater, status: Status)
    requires s.updating && Shape(s.upd) && Writable(base, s.flash, s.upd) && Processed(base, s.flash, s.upd, flash, upd, status)
    ensures Step(base, files, s, Process, Passed(s, flash, upd, status))
  {
  }

  // ---------------------------------------------------------------- invariant

  ghost predicate Idle(s: Sys) {
    && !s.updating && Shape(s.upd) && !s.upd.pending && !s.upd.eof && s.wire == None
    && s.upd.requestPtr == s.upd.bufferPtr == s.upd.writeOffset == 0
  }

  /** `s` works on `file` of `server`, and found the flash as `start` when it began. */
  ghost predicate Active(base: nat, s: Sys, server: byte, path: seq<byte>, file: seq<byte>, start: seq<byte>) {
    && s.updating && s.server == server && s.path == path && Fits(base, start, file) && |s.flash| == |start|
    && Shape(s.upd)
    && Received(s.upd, file)
    && Asked(s, server, path, file)
    && Image(base, s.flash, file, s.upd.writeOffset)
    && Untouched(base, s.flash, start, s.upd.writeOffset)
  }

  /** The buffer holds the part of the file behind what is written already. */
  ghost predicate Received(u: Updater, file: seq<byte>)
    requires Shape(u)
  {
    && u.writeOffset % PAGE_SIZE == 0
    && u.writeOffset + u.bufferPtr <= |file|
    && (u.eof ==> u.writeOffset + u.bufferPtr == |file|)
    && forall i | 0 <= i < u.bufferPtr :: u.buffer[i] == file[u.writeOffset + i]
  }

  /** The requests so far are those for 0, 256, 512, ... and at most the last is unanswered. */
  ghost predicate Asked(s: Sys, server: byte, path: seq<byte>, file: seq<byte>) {
    var u := s.upd;
    && u.requestPtr == CHUNK * |s.requests|
    && |s.requests| <= |file| / CHUNK + 1
    && (forall i | 0 <= i < |s.requests| :: s.requests[i] == Read(server, path, CHUNK * i))
    && (u.pending ==> 0 < |s.requests| && u.requestPtr == u.writeOffset + u.bufferPtr + CHUNK && s.wire == Some(s.requests[|s.requests| - 1]))
    && (!u.pending ==> s.wire == None)
    && (!u.pending && !u.eof ==> u.requestPtr == u.writeOffset + u.bufferPtr)
    && (u.eof ==> |s.requests| == |file| / CHUNK + 1)
  }

  ghost predicate Image(base: nat, flash: seq<byte>, file: seq<byte>, len: nat) {
    base + len <= |flash| && len <= |file| && forall i | 0 <= i < len :: flash[base + i] == file[i]
  }

  ghost predicate Untouched(base: nat, flash: seq<byte>, start: seq<byte>, len: nat) {
    |flash| == |start| && forall i | 0 <= i < |start| && !(base <= i < base + Covered(len)) :: flash[i] == start[i]
  }

  lemma BeginActivates(base: nat, files: Files, s: Sys, e: Event, s': Sys)
    requires Idle(s) && e.Begin? && Step(base, files, s, e, s') && s'.updating
    requires Fits(base, s.flash, files(e.source, e.path))
    ensures Active(base, s', e.source, e.path, files(e.source, e.path), s.flash)
  {
  }

  lemma ChunkExtendsBuffer(u: Updater, error: seq<byte>, file: seq<byte>)
    requires Shape(u) && u.pending && Received(u, file) && |error| == 2
    ensures var at := u.writeOffset + u.bufferPtr;
      var u' := Receive(u, error + Chunk(file, at));
      && u' == u.(buffer := u'.buffer, bufferPtr := u.bufferPtr + |Chunk(file, at)|, pending := false, eof := |Chunk(file, at)| != CHUNK)
      && Received(u', file)
  {
    var at := u.writeOffset + u.bufferPtr;
    var chunk := Chunk(file, at);
    assert (error + chunk)[2..] == chunk;
    RoomForChunk(u);
    ChunkLandsBehind(u, chunk, file);
  }

  lemma ChunkLandsBehind(u: Updater, chunk: seq<byte>, file: seq<byte>)
    requires Shape(u) && Received(u, file) && u.bufferPtr + CHUNK <= PAGE_SIZE
    requires chunk == Chunk(file, u.writeOffset + u.bufferPtr)
    ensures u.writeOffset + u.bufferPtr + |chunk| <= |file|
    ensures |chunk| != CHUNK ==> u.writeOffset + u.bufferPtr + |chunk| == |file|
    ensures var b := Splice(u.buffer, u.bufferPtr, chunk);
      forall i | 0 <= i < u.bufferPtr + |chunk| :: b[i] == file[u.writeOffset + i]
  {
    var b := Splice(u.buffer, u.bufferPtr, chunk);
    forall i | 0 <= i < u.bufferPtr + |chunk| ensures b[i] == file[u.writeOffset + i] {
      if i >= u.bufferPtr { assert chunk[i - u.bufferPtr] == file[u.writeOffset + u.bufferPtr + (i - u.bufferPtr)]; }
    }
  }

  lemma ReplyKeepsActive(base: nat, files: Files, s: Sys, e: Event, s': Sys, server: byte, path: seq<byte>, start: seq<byte>)
    requires Active(base, s, server, path, files(server, path), start)
    requires e.Reply? && Step(base, files, s, e, s')
    ensures Active(base, s', server, path, files(server, path), start)
  {
    assert CHUNK * (|s.requests| - 1) == s.upd.writeOffset + s.upd.bufferPtr;
    ChunkExtendsBuffer(s.upd, e.error, files(server, path));
    var at := s.upd.writeOffset + s.upd.bufferPtr;
    if |Chunk(files(server, path), at)| != CHUNK { ShortChunkIsLast(|files(server, path)|, at, |s.requests|); }
  }

  lemma ShortChunkIsLast(len: nat, at: nat, n: nat)
    requires at == 256 * (n - 1) && at <= len < at + 256
    ensures n == len / 256 + 1
  {
  }

  lemma RequestKeepsActive(base: nat, files: Files, s: Sys, s': Sys, server: byte, path: seq<byte>, start: seq<byte>)
    requires Active(base, s, server, path, files(server, path), start)
    requires Requests(s.upd) && Step(base, files, s, Process, s')
    ensures Active(base, s', server, path, files(server, path), start)
  {
    var file := files(server, path);
    assert CHUNK * |s.requests| <= |file|;
    assert |s.requests| <= |file| / CHUNK;
  }

  lemma WriteStaysInPage(base: nat, files: Files, s: Sys, s': Sys, server: byte, path: seq<byte>, start: seq<byte>)
    requires Active(base, s, server, path, files(server, path), start)
    requires WritesPage(s.upd) && Step(base, files, s, Process, s')
    ensures Untouched(base, s'.flash, start, s.upd.writeOffset + s.upd.bufferPtr)
    ensures s'.last != FlashFailed ==> Image(base, s'.flash, files(server, path), s.upd.writeOffset + s.upd.bufferPtr)
  {
    var file, u := files(server, path), s.upd;
    var adr, len := base + u.writeOffset, u.writeOffset + u.bufferPtr;
    PageOfWrite(base, u.writeOffset, u.bufferPtr);
    CoveredGrows(u.writeOffset, len);
    if s'.last != FlashFailed {
      MatchExtendsImage(base, s.flash, s'.flash, u, file);
    }
  }

  lemma MatchExtendsImage(base: nat, flash: seq<byte>, flash': seq<byte>, u: Updater, file: seq<byte>)
    requires Shape(u) && Received(u, file) && Image(base, flash, file, u.writeOffset)
    requires PageStart(base + u.writeOffset) == base + u.writeOffset && SameOutsidePage(flash, flash', base + u.writeOffset)
    requires BlockFits(flash', base + u.writeOffset, u.buffer, u.bufferPtr) && Matches(flash', base + u.writeOffset, u.buffer, u.bufferPtr)
    ensures Image(base, flash', file, u.writeOffset + u.bufferPtr)
  {
    forall i | 0 <= i < u.writeOffset + u.bufferPtr ensures flash'[base + i] == file[i] {
      if i >= u.writeOffset {
        assert flash'[base + u.writeOffset + (i - u.writeOffset)] == u.buffer[i - u.writeOffset];
      }
    }
  }

  lemma FullPageKeepsActive(base: nat, files: Files, s: Sys, s': Sys, server: byte, path: seq<byte>, start: seq<byte>)
    requires Active(base, s, server, path, files(server, path), start)
    requires WritesPage(s.upd) && Step(base, files, s, Process, s') && s'.last == InProgress
    ensures Active(base, s', server, path, files(server, path), start)
  {
    var len := s.upd.writeOffset + s.upd.bufferPtr;
    WriteStaysInPage(base, files, s, s', server, path, start);
    WordFits(len);
    SumOfPages(s.upd.writeOffset, PAGE_SIZE);
    assert s'.upd == s.upd.(writeOffset := len, bufferPtr := 0);
  }

  lemma WordFits(x: nat)
    requires x < 0x1_0000_0000
    ensures x % 0x1_0000_0000 == x
  {
  }

  lemma WriteKeepsActive(base: nat, files: Files, s: Sys, s': Sys, server: byte, path: seq<byte>, start: seq<byte>)
    requires Active(base, s, server, path, files(server, path), start)
    requires WritesPage(s.upd) && Step(base, files, s, Process, s')
    ensures s'.last == InProgress ==> Active(base, s', server, path, files(server, path), start)
    ensures s'.last != InProgress ==> Idle(s')
    ensures s'.last == Success ==>
      Image(base, s'.flash, files(server, path), |files(server, path)|) && |s'.requests| == |files(server, path)| / CHUNK + 1
    ensures Untouched(base, s'.flash, start, |files(server, path)|)
  {
    var file := files(server, path);
    WriteStaysInPage(base, files, s, s', server, path, start);
    CoveredGrows(s.upd.writeOffset + s.upd.bufferPtr, |file|);
    assert Untouched(base, s'.flash, start, |file|);
    if s'.last == InProgress {
      FullPageKeepsActive(base, files, s, s', server, path, start);
    }
  }

  lemma PageOfWrite(base: nat, offset: nat, len: nat)
    requires base % PAGE_SIZE == 0 && offset % PAGE_SIZE == 0 && len <= PAGE_SIZE
    ensures (base + offset) % PAGE_SIZE == 0 && (base + offset) % 2 == 0
    ensures PageStart(base + offset) == base + offset
    ensures len > 0 ==> Covered(offset + len) == offset + PAGE_SIZE
    ensures Covered(offset) == offset
    ensures Rounded(len) <= PAGE_SIZE && offset + Rounded(len) <= Covered(offset + len)
  {
    SumOfPages(base, offset);
    PagesCovered(offset, len);
    HalvesInPage(len);
  }

  lemma SumOfPages(a: nat, b: nat)
    requires a % 2048 == 0 && b % 2048 == 0
    ensures (a + b) % 2048 == 0 && (a + b) % 2 == 0
  {
    SumOfMultiples(a, b);
    PagesAreEven(a + b);
  }

  lemma SumOfMultiples(a: nat, b: nat)
    requires a % 2048 == 0 && b % 2048 == 0
    ensures (a + b) % 2048 == 0
  {
  }

  lemma PagesAreEven(a: nat)
    requires a % 2048 == 0
    ensures a % 2 == 0
  {
    DoubleIsEven(a, 1024 * (a / 2048));
  }

  lemma DoubleIsEven(a: nat, half: nat)
    requires a == 2 * half
    ensures a % 2 == 0
  {
  }

  lemma PagesCovered(offset: nat, len: nat)
    requires offset % 2048 == 0 && len <= 2048
    ensures Covered(offset + len) == if len > 0 then offset + 2048 else offset
  {
  }

  lemma HalvesInPage(len: nat)
    requires len <= 2048
    ensures Rounded(len) <= 2048 && (len == 0 ==> Rounded(len) == 0)
  {
  }

  lemma CoveredGrows(a: nat, b: nat)
    requires a <= b
    ensures a <= Covered(a) <= Covered(b)
  {
  }

  // --------------------------------------------------------------- whole runs

  lemma StepKeepsShape(base: nat, files: Files, s: Sys, e: Event, s': Sys)
    requires Shape(s.upd) && Step(base, files, s, e, s')
    ensures Shape(s'.upd) && |s'.flash| == |s.flash|
  {
  }

  ghost predicate StepAt(base: nat, files: Files, ss: seq<Sys>, es: seq<Event>, i: nat)
    requires |ss| == |es| + 1 && i < |es|
  {
    Shape(ss[i].upd) && Step(base, files, ss[i], es[i], ss[i + 1])
  }

  /** Any interleaving of callbacks and passes of the node thread, from power-up on. */
  ghost predicate Run(base: nat, files: Files, ss: seq<Sys>, es: seq<Event>) {
    && |ss| == |es| + 1
    && Idle(ss[0])
    && (forall i | 0 <= i < |es| :: StepAt(base, files, ss, es, i))
    && (forall i | 0 <= i < |es| && es[i].Begin? :: Fits(base, ss[0].flash, files(es[i].source, es[i].path)))
  }

  ghost predicate StartedAt(base: nat, files: Files, ss: seq<Sys>, es: seq<Event>, b: nat, n: nat)
    requires |ss| == |es| + 1
  {
    && b < n <= |es| && es[b].Begin? && Idle(ss[b])
    && forall i | b < i <= n ::
      Active(base, ss[i], es[b].source, es[b].path, files(es[b].source, es[b].path), ss[b].flash)
  }

  /** Between updates the updater is reset; during one, job and start stay what the accepted request made them. */
  lemma {:induction false} Origin(base: nat, files: Files, ss: seq<Sys>, es: seq<Event>, n: nat) returns (b: nat)
    requires Run(base, files, ss, es) && n <= |es|
    ensures |ss[n].flash| == |ss[0].flash|
    ensures !ss[n].updating ==> Idle(ss[n])
    ensures ss[n].updating ==> StartedAt(base, files, ss, es, b, n)
  {
    b := 0;
    if n > 0 {
      b := Origin(base, files, ss, es, n - 1);
      assert StepAt(base, files, ss, es, n - 1);
      if ss[n - 1].updating {
        OriginStays(base, files, ss, es, b, n - 1);
      } else {
        OriginIsNew(base, files, ss, es, n - 1);
        b := n - 1;
      }
    }
  }

  lemma OriginStays(base: nat, files: Files, ss: seq<Sys>, es: seq<Event>, b: nat, m: nat)
    requires |ss| == |es| + 1 && m < |es| && StartedAt(base, files, ss, es, b, m)
    requires Shape(ss[m].upd) && Step(base, files, ss[m], es[m], ss[m + 1])
    ensures |ss[m + 1].flash| == |ss[m].flash|
    ensures if ss[m + 1].updating then StartedAt(base, files, ss, es, b, m + 1) else Idle(ss[m + 1])
  {
    StepKeepsShape(base, files, ss[m], es[m], ss[m + 1]);
    ActiveOrIdle(base, files, ss[m], es[m], ss[m + 1], es[b].source, es[b].path, ss[b].flash);
  }

  lemma OriginIsNew(base: nat, files: Files, ss: seq<Sys>, es: seq<Event>, m: nat)
    requires |ss| == |es| + 1 && m < |es| && Idle(ss[m]) && Step(base, files, ss[m], es[m], ss[m + 1])
    requires es[m].Begin? ==> Fits(base, ss[m].flash, files(es[m].source, es[m].path))
    ensures |ss[m + 1].flash| == |ss[m].flash|
    ensures if ss[m + 1].updating then StartedAt(base, files, ss, es, m, m + 1) else Idle(ss[m + 1])
  {
    if ss[m + 1].updating {
      BeginActivates(base, files, ss[m], es[m], ss[m + 1]);
    }
  }

  lemma ActiveOrIdle(base: nat, files: Files, s: Sys, e: Event, s': Sys, server: byte, path: seq<byte>, start: seq<byte>)
    requires Active(base, s, server, path, files(server, path), start) && Step(base, files, s, e, s')
    ensures if s'.updating then Active(base, s', server, path, files(server, path), start) else Idle(s')
    ensures s'.updating ==> s'.last == InProgress || s'.last == s.last
  {
    match e
    case Begin(_, _, _) =>
    case Process =>
      if WritesPage(s.upd) {
        WriteKeepsActive(base, files, s, s', server, path, start);
      } else if Requests(s.upd) {
        RequestKeepsActive(base, files, s, s', server, path, start);
      }
    case Reply(_) => ReplyKeepsActive(base, files, s, e, s', server, path, start);
    case Stray(_) =>
  }

  /**
   The update theorem. When the processing function reports success, the flash
   holds the file that the accepted request named, byte for byte; the pages
   outside the image are as that request found them; and the file was read by
   requests for 0, 256, 512, ... up to the first short chunk, each once.
   */
  lemma SuccessMeansFileInFlash(base: nat, files: Files, ss: seq<Sys>, es: seq<Event>, n: nat) returns (b: nat)
    requires Run(base, files, ss, es) && n < |es|
    requires es[n] == Process && ss[n + 1].last == Success
    ensures StartedAt(base, files, ss, es, b, n)
    ensures var file := files(es[b].source, es[b].path);
      && base + |file| <= |ss[n + 1].flash| && ss[n + 1].flash[base..base + |file|] == file
      && Untouched(base, ss[n + 1].flash, ss[b].flash, |file|)
      && ss[n + 1].requests == seq(|file| / CHUNK + 1, i requires 0 <= i => Read(es[b].source, es[b].path, CHUNK * i))
  {
    b := Origin(base, files, ss, es, n);
    var s, s' := ss[n], ss[n + 1];
    assert StepAt(base, files, ss, es, n);
    WriteKeepsActive(base, files, s, s', es[b].source, es[b].path, ss[b].flash);
  }

  /** Failed or not, an update never changes a byte outside the pages of its image. */
  lemma PagesOutsideImageUntouched(base: nat, files: Files, ss: seq<Sys>, es: seq<Event>, n: nat) returns (b: nat)
    requires Run(base, files, ss, es) && n < |es| && ss[n].updating
    ensures StartedAt(base, files, ss, es, b, n)
    ensures Untouched(base, ss[n + 1].flash, ss[b].flash, |files(es[b].source, es[b].path)|)
  {
    b := Origin(base, files, ss, es, n);
    var s, s' := ss[n], ss[n + 1];
    var file := files(es[b].source, es[b].path);
    assert StepAt(base, files, ss, es, n);
    CoveredGrows(s.upd.writeOffset, |file|);
    if es[n] == Process && WritesPage(s.upd) {
      WriteKeepsActive(base, files, s, s', es[b].source, es[b].path, ss[b].flash);
    }
  }

  // -------------------------------------------------------------- termination

  /** The steps that move an update on: answers, and passes that find the requested data received. */
  predicate Effective(s: Sys, e: Event) { e.Reply? || (e.Process? && !s.upd.pending) }

  function Remaining(s: Sys, len: nat): int {
    if !s.updating then 0
    else 1 + 4 * (len / CHUNK + 1 - |s.requests|) + (if s.upd.pending then 2 else if WritesPage(s.upd) then 1 else 0)
  }

  /** Every effective step uses up work, nothing else changes how much is left, and work left can be done. */
  lemma EveryEffectiveStepCounts(base: nat, files: Files, s: Sys, e: Event, s': Sys, server: byte, path: seq<byte>, start: seq<byte>)
    requires Active(base, s, server, path, files(server, path), start) && Step(base, files, s, e, s')
    ensures var len := |files(server, path)|;
      && 0 <= Remaining(s', len) && 0 < Remaining(s, len) <= 4 * (len / CHUNK + 1) + 1
      && if Effective(s, e) then Remaining(s', len) < Remaining(s, len) else Remaining(s', len) == Remaining(s, len)
  {
    ActiveOrIdle(base, files, s, e, s', server, path, start);
    if e == Process && Requests(s.upd) {
      RequestKeepsActive(base, files, s, s', server, path, start);
    }
  }

  lemma ActiveIsWritable(base: nat, s: Sys, server: byte, path: seq<byte>, file: seq<byte>, start: seq<byte>)
    requires Active(base, s, server, path, file, start)
    ensures Writable(base, s.flash, s.upd)
  {
    var u := s.upd;
    PageOfWrite(base, u.writeOffset, u.bufferPtr);
    CoveredGrows(u.writeOffset + u.bufferPtr, |file|);
    assert base + u.writeOffset + Rounded(u.bufferPtr) <= |s.flash|;
  }

  /** One outcome of a pass: the one a flash leaves that ignores erase and program. */
  function PassOutcome(s: Sys, matches: bool): Sys {
    var u := s.upd;
    if Requests(u) then
      var r := Read(s.server, s.path, u.requestPtr);
      s.(upd := u.(requestPtr := (u.requestPtr + CHUNK) % U32, pending := true), wire := Some(r), requests := s.requests + [r], last := InProgress)
    else if !matches then s.(upd := Cleared(u), last := FlashFailed, updating := false, server := 0)
    else if u.eof then s.(upd := Cleared(u), last := Success, updating := false, server := 0)
    else s.(upd := u.(writeOffset := (u.writeOffset + u.bufferPtr) % U32, bufferPtr := 0), last := InProgress)
  }

  lemma SomethingIsEnabled(base: nat, files: Files, s: Sys, server: byte, path: seq<byte>, start: seq<byte>)
    returns (e: Event, s': Sys)
    requires Active(base, s, server, path, files(server, path), start)
    ensures Effective(s, e) && Step(base, files, s, e, s')
  {
    ActiveIsWritable(base, s, server, path, files(server, path), start);
    if s.upd.pending {
      var r := s.wire.value;
      e := Reply([0, 0]);
      s' := s.(wire := None, upd := Receive(s.upd, [0, 0] + Chunk(files(r.server, r.path), r.offset)));
    } else {
      e := Process;
      s' := PassOutcome(s, WritesPage(s.upd) && Matches(s.flash, base + s.upd.writeOffset, s.upd.buffer, s.upd.bufferPtr));
    }
  }

  /** The step of a flash that is not worn. */
  ghost predicate Sound(base: nat, s: Sys, e: Event, s': Sys) {
    e.Process? && WritesPage(s.upd) && Writable(base, s.flash, s.upd) ==>
      Updated(s.flash, s'.flash, base + s.upd.writeOffset, s.upd.buffer, s.upd.bufferPtr)
  }

  ghost predicate SoundAt(base: nat, ss: seq<Sys>, es: seq<Event>, i: nat)
    requires |ss| == |es| + 1 && i < |es|
  {
    Sound(base, ss[i], es[i], ss[i + 1])
  }

  lemma SoundStepDoesNotFail(base: nat, files: Files, s: Sys, s': Sys, server: byte, path: seq<byte>, start: seq<byte>)
    requires Active(base, s, server, path, files(server, path), start)
    requires Step(base, files, s, Process, s') && Sound(base, s, Process, s')
    ensures s'.last != FlashFailed
  {
    if WritesPage(s.upd) {
      UpdatedMatches(s.flash, s'.flash, base + s.upd.writeOffset, s.upd.buffer, s.upd.bufferPtr);
    }
  }

  function EffectiveSteps(ss: seq<Sys>, es: seq<Event>, lo: nat, hi: nat): nat
    requires |ss| == |es| + 1 && lo <= hi <= |es|
    decreases hi
  {
    if lo == hi then 0 else EffectiveSteps(ss, es, lo, hi - 1) + (if Effective(ss[hi - 1], es[hi - 1]) then 1 else 0)
  }

  /** From a state of an update the run goes on with it up to `n`, or ends it by success on the way. */
  lemma {:induction false} GoesOnOrSucceeds(base: nat, files: Files, ss: seq<Sys>, es: seq<Event>, b: nat, m: nat, n: nat) returns (k: nat)
    requires Run(base, files, ss, es) && StartedAt(base, files, ss, es, b, m) && m <= n <= |es|
    requires forall i | 0 <= i < |es| :: SoundAt(base, ss, es, i)
    ensures m <= k <= n && StartedAt(base, files, ss, es, b, k)
    ensures k < n ==> es[k] == Process && ss[k + 1].last == Success && !ss[k + 1].updating
    decreases n - m
  {
    k := m;
    if m < n {
      assert StepAt(base, files, ss, es, m) && SoundAt(base, ss, es, m);
      OriginStays(base, files, ss, es, b, m);
      if ss[m + 1].updating {
        k := GoesOnOrSucceeds(base, files, ss, es, b, m + 1, n);
      } else {
        SoundStepDoesNotFail(base, files, ss[m], ss[m + 1], es[b].source, es[b].path, ss[b].flash);
      }
    }
  }

  /**
   On a flash that is not worn, an update whose requests are answered and whose
   thread runs ends in success: the number of effective steps it takes is bounded.
   */
  lemma UpdateSucceeds(base: nat, files: Files, ss: seq<Sys>, es: seq<Event>, b: nat, n: nat) returns (k: nat)
    requires Run(base, files, ss, es) && forall i | 0 <= i < |es| :: SoundAt(base, ss, es, i)
    requires StartedAt(base, files, ss, es, b, b + 1) && b < n <= |es|
    requires EffectiveSteps(ss, es, b + 1, n) > 4 * (|files(es[b].source, es[b].path)| / CHUNK + 1)
    ensures b < k < n && StartedAt(base, files, ss, es, b, k)
    ensures es[k] == Process && ss[k + 1].last == Success && !ss[k + 1].updating
    ensures var file := files(es[b].source, es[b].path);
      base + |file| <= |ss[k + 1].flash| && ss[k + 1].flash[base..base + |file|] == file
  {
    k := GoesOnOrSucceeds(base, files, ss, es, b, b + 1, n);
    var server, path, start := es[b].source, es[b].path, ss[b].flash;
    assert Active(base, ss[k], server, path, files(server, path), start);
    if k == n {
      UpdateTerminates(base, files, ss, es, b, n);
      RemainingIsPositive(base, ss[n], server, path, files(server, path), start);
      assert false;
    }
    assert StepAt(base, files, ss, es, k);
    WriteKeepsActive(base, files, ss[k], ss[k + 1], server, path, start);
  }

  lemma RemainingIsPositive(base: nat, s: Sys, server: byte, path: seq<byte>, file: seq<byte>, start: seq<byte>)
    requires Active(base, s, server, path, file, start)
    ensures Remaining(s, |file|) > 0
  {
  }

  /** An update is over after at most four steps per chunk. */
  lemma {:induction false} UpdateTerminates(base: nat, files: Files, ss: seq<Sys>, es: seq<Event>, b: nat, n: nat)
    requires Run(base, files, ss, es) && StartedAt(base, files, ss, es, b, n)
    ensures var len := |files(es[b].source, es[b].path)|;
      EffectiveSteps(ss, es, b + 1, n) + Remaining(ss[n], len) <= 4 * (len / CHUNK + 1) + 1
    decreases n - b
  {
    var server, path, start := es[b].source, es[b].path, ss[b].flash;
    assert Active(base, ss[b + 1], server, path, files(server, path), start);
    if n == b + 1 {
      assert StepAt(base, files, ss, es, b);
    } else {
      assert StartedAt(base, files, ss, es, b, n - 1);
      UpdateTerminates(base, files, ss, es, b, n - 1);
      assert StepAt(base, files, ss, es, n - 1);
      assert Active(base, ss[n - 1], server, path, files(server, path), start);
      EveryEffectiveStepCounts(base, files, ss[n - 1], es[n - 1], ss[n], server, path, start);
    }
  }
}
