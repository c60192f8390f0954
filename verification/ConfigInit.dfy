/**
 Start-up of the parameter store: a store without the magic number is cleared
 and given defaults; the magic number is written after the defaults it vouches for.
 */
module ConfigInit {
  import opened Bytes
  import opened Eeprom
  import opened Config

  const MAGIC := 0
  const VERSION := 1
  const NODE_ID := 2
  const NODE_NAME := 3

  const CONFIGURATION_MAGIC := 0xEF7389AC
  const CONFIGURATION_VERSION := 1
  const MAX_SIZE := 16384
  const PAGES := MAX_SIZE / PAGE_SIZE

  const MAGIC_BYTES: seq<byte> := [0xAC, 0x89, 0x73, 0xEF]
  const VERSION_BYTES: seq<byte> := [1, 0, 0, 0]
  const NODE_ID_BYTES: seq<byte> := [127, 0, 0, 0]
  // "Unconfigured node"
  const NODE_NAME_BYTES: seq<byte> := [85, 110, 99, 111, 110, 102, 105, 103, 117, 114, 101, 100, 32, 110, 111, 100, 101]

  datatype Status = Ok | Invalid | VersionMismatch

  /** The first four parameters of every table. */
  predicate Layout(sizes: Sizes) {
    SlotsFit(sizes) && |sizes| >= 4 && sizes[MAGIC] == 4 && sizes[VERSION] == 4 && sizes[NODE_ID] == 4 && sizes[NODE_NAME] == 80
  }

  lemma Offsets(sizes: Sizes)
    requires Layout(sizes)
    ensures Offset(sizes, MAGIC) == 0 && Offset(sizes, VERSION) == 5 && Offset(sizes, NODE_ID) == 10 && Offset(sizes, NODE_NAME) == 15
  {
    assert Offset(sizes, 1) == Offset(sizes, 0) + 5;
    assert Offset(sizes, 2) == Offset(sizes, 1) + 5;
  }

  predicate MagicValid(sizes: Sizes, mem: Memory)
    requires Layout(sizes)
  {
    LittleEndian(Value(sizes, mem, MAGIC)) == CONFIGURATION_MAGIC
  }

  predicate MagicThere(mem: Memory) { mem[0] >= 4 && mem[1] == 0xAC && mem[2] == 0x89 && mem[3] == 0x73 && mem[4] == 0xEF }

  /** Only the four bytes in full denote the magic number: a shorter value is too small. */
  lemma MagicIsFourBytes(sizes: Sizes, mem: Memory)
    requires Layout(sizes)
    ensures MagicValid(sizes, mem) <==> MagicThere(mem)
  {
    Offsets(sizes);
    var v := Value(sizes, mem, MAGIC);
    if |v| < 4 {
      LittleEndianBound(v, 3);
      Powers();
    } else {
      FourBytes(v);
      FourDigits(v[0] as int, v[1] as int, v[2] as int, v[3] as int);
    }
  }

  lemma FourDigits(a: int, b: int, c: int, d: int)
    requires 0 <= a < 256 && 0 <= b < 256 && 0 <= c < 256 && 0 <= d < 256
    ensures a + 0x100 * b + 0x1_0000 * c + 0x100_0000 * d == 0xEF7389AC <==> a == 0xAC && b == 0x89 && c == 0x73 && d == 0xEF
  {
  }

  lemma FourBytes(v: seq<byte>)
    requires |v| == 4
    ensures LittleEndian(v) == (v[0] as int) + 0x100 * (v[1] as int) + 0x1_0000 * (v[2] as int) + 0x100_0000 * (v[3] as int)
  {
    assert LittleEndian(v[1..]) == v[1] + 256 * LittleEndian(v[1..][1..]);
    assert v[1..][1..] == v[2..] && v[2..][1..] == v[3..] && v[3..][1..] == [];
    assert LittleEndian(v[3..]) == v[3];
  }

  /** The default node id and name are there. */
  predicate DefaultsThere(sizes: Sizes, mem: Memory)
    requires Layout(sizes)
  {
    Value(sizes, mem, NODE_ID) == NODE_ID_BYTES && Value(sizes, mem, NODE_NAME) == NODE_NAME_BYTES
  }

  // ------------------------------------------------------ the writes, in order

  datatype WriteOp = WriteOp(adr: nat, data: seq<byte>)

  const WRITES := PAGES + 8

  function DefaultWrite(k: nat): WriteOp
    requires k < 8
  {
    match k
    case 0 => WriteOp(10, [4])
    case 1 => WriteOp(11, NODE_ID_BYTES)
    case 2 => WriteOp(15, [17])
    case 3 => WriteOp(16, NODE_NAME_BYTES)
    case 4 => WriteOp(0, [4])
    case 5 => WriteOp(1, MAGIC_BYTES)
    case 6 => WriteOp(5, [4])
    case _ => WriteOp(6, VERSION_BYTES)
  }

  /** Write `i` of an initialisation. */
  function InitWrite(i: nat): (w: WriteOp)
    requires i < WRITES
    ensures w.adr + |w.data| <= CAPACITY
  {
    if i < PAGES then WriteOp(PAGE_SIZE * i, Zeros(PAGE_SIZE)) else DefaultWrite(i - PAGES)
  }

  function Cleared(mem: Memory, pages: nat): Memory
    requires pages <= PAGES
  {
    Splice(mem, 0, Zeros(PAGE_SIZE * pages))
  }

  function WithDefaults(mem: Memory, k: nat): Memory
    requires k <= 8
  {
    if k == 0 then Cleared(mem, PAGES) else Splice(WithDefaults(mem, k - 1), DefaultWrite(k - 1).adr, DefaultWrite(k - 1).data)
  }

  /** The device after the first `i` writes of an initialisation. */
  function InitState(mem: Memory, i: nat): Memory
    requires i <= WRITES
  {
    if i < PAGES then Cleared(mem, i) else WithDefaults(mem, i - PAGES)
  }

  lemma InitStateIsWriteByWrite(mem: Memory, i: nat)
    requires i < WRITES
    ensures InitState(mem, 0) == mem
    ensures InitState(mem, i + 1) == Splice(InitState(mem, i), InitWrite(i).adr, InitWrite(i).data)
  {
    assert Cleared(mem, 0) == mem;
    if i < PAGES {
      assert Cleared(mem, i + 1) == Splice(Cleared(mem, i), PAGE_SIZE * i, Zeros(PAGE_SIZE));
    }
  }

  /** The transfers of the first `i` writes of an initialisation. */
  function InitTransfers(i: nat): seq<Transfer>
    requires i <= WRITES
  {
    Joined(WriteTransfers()[..i])
  }

  function WriteTransfers(): (parts: seq<seq<Transfer>>)
    ensures |parts| == WRITES && forall i | 0 <= i < WRITES :: parts[i] == Transfers(InitWrite(i).adr, InitWrite(i).data)
  {
    seq(WRITES, i requires 0 <= i < WRITES => Transfers(InitWrite(i).adr, InitWrite(i).data))
  }

  function Joined(parts: seq<seq<Transfer>>): seq<Transfer> {
    if parts == [] then [] else Joined(parts[..|parts| - 1]) + parts[|parts| - 1]
  }

  lemma JoinedNext(parts: seq<seq<Transfer>>, i: nat)
    requires i < |parts|
    ensures Joined(parts[..i + 1]) == Joined(parts[..i]) + parts[i]
  {
    assert parts[..i + 1][..i] == parts[..i];
  }

  predicate At(m: Memory, adr: nat, data: seq<byte>) {
    adr + |data| <= CAPACITY && forall i | adr <= i < adr + |data| :: m[i] == data[i - adr]
  }

  /** Which of the defaults are there after `k` of the default writes. */
  ghost predicate Stage(m: Memory, k: nat) {
    && (k <= 4 ==> m[0] == 0)
    && (k >= 5 ==> m[0] == 4)
    && At(m, 1, if k <= 5 then Zeros(4) else MAGIC_BYTES)
    && (k >= 1 ==> m[10] == 4)
    && (k >= 2 ==> At(m, 11, NODE_ID_BYTES))
    && (k >= 3 ==> m[15] == 17)
    && (k >= 4 ==> At(m, 16, NODE_NAME_BYTES))
    && (k >= 7 ==> m[5] == 4)
    && (k >= 8 ==> At(m, 6, VERSION_BYTES))
  }

  lemma StageStep(m: Memory, k: nat)
    requires k < 8 && Stage(m, k)
    ensures Stage(Splice(m, DefaultWrite(k).adr, DefaultWrite(k).data), k + 1)
  {
  }

  lemma {:induction false} StageReached(mem: Memory, k: nat)
    requires k <= 8
    ensures Stage(WithDefaults(mem, k), k)
  {
    if k > 0 {
      StageReached(mem, k - 1);
      StageStep(WithDefaults(mem, k - 1), k - 1);
    }
  }

  predicate DefaultBytesThere(m: Memory) {
    m[10] == 4 && At(m, 11, NODE_ID_BYTES) && m[15] == 17 && At(m, 16, NODE_NAME_BYTES)
  }

  lemma AtIsSlice(m: Memory, adr: nat, data: seq<byte>)
    requires At(m, adr, data)
    ensures m[adr..adr + |data|] == data
  {
  }

  lemma DefaultBytesAreValues(sizes: Sizes, m: Memory)
    requires Layout(sizes) && DefaultBytesThere(m)
    ensures DefaultsThere(sizes, m)
  {
    Offsets(sizes);
    AtIsSlice(m, 11, NODE_ID_BYTES);
    AtIsSlice(m, 16, NODE_NAME_BYTES);
  }

  lemma LastStage(sizes: Sizes, m: Memory)
    requires Layout(sizes) && Stage(m, 8)
    ensures MagicThere(m) && Value(sizes, m, VERSION) == VERSION_BYTES
  {
    Offsets(sizes);
    AtIsSlice(m, 6, VERSION_BYTES);
    assert m[1] == MAGIC_BYTES[0] && m[2] == MAGIC_BYTES[1] && m[3] == MAGIC_BYTES[2] && m[4] == MAGIC_BYTES[3];
  }

  // ------------------------------------------------------------- interruption

  /** The power went during write `i`: the ones before are done, this one stopped anywhere. */
  ghost predicate CutAt(before: Memory, after: Memory, i: nat)
    requires i < WRITES
  {
    Stopped(InitState(before, i), after, InitWrite(i).adr, InitWrite(i).data)
  }

  /** A start-up that did not come to its end; with a valid magic number there is nothing to cut. */
  ghost predicate CutRun(sizes: Sizes, before: Memory, after: Memory)
    requires Layout(sizes)
  {
    if MagicValid(sizes, before) then after == before else exists i: nat :: i < WRITES && CutAt(before, after, i)
  }

  /** A start-up on a working bus. */
  function AfterInit(sizes: Sizes, mem: Memory): Memory
    requires Layout(sizes)
  {
    if MagicValid(sizes, mem) then mem else InitState(mem, WRITES)
  }

  /** The magic number vouches for node id and name. */
  predicate Trustworthy(sizes: Sizes, mem: Memory)
    requires Layout(sizes)
  {
    MagicValid(sizes, mem) ==> DefaultsThere(sizes, mem)
  }

  ghost predicate CutRunAt(sizes: Sizes, mems: seq<Memory>, i: nat)
    requires Layout(sizes) && i + 1 < |mems|
  {
    CutRun(sizes, mems[i], mems[i + 1])
  }

  lemma CutWhileClearing(before: Memory, after: Memory, i: nat)
    requires i < PAGES && CutAt(before, after, i) && !MagicThere(before)
    ensures !MagicThere(after)
  {
    var w := InitWrite(i);
    var k, c :| StoppedAt(InitState(before, i), after, w.adr, w.data, k, c);
    assert forall j | 0 <= j < 5 :: after[j] == 0 || after[j] == before[j];
  }

  lemma CutBeforeMagic(m: Memory, after: Memory, k: nat)
    requires k < 5 && Stage(m, k) && Stopped(m, after, DefaultWrite(k).adr, DefaultWrite(k).data)
    ensures !MagicThere(after)
  {
    var w := DefaultWrite(k);
    WriteStaysInRange(m, after, w.adr, w.data, false, w.adr, w.adr + |w.data|);
    assert m[1] == 0 && after[1] == m[1];
  }

  lemma CutAfterDefaults(m: Memory, after: Memory, k: nat)
    requires 4 <= k < 8 && Stage(m, k) && Stopped(m, after, DefaultWrite(k).adr, DefaultWrite(k).data)
    ensures DefaultBytesThere(after)
  {
    WriteStaysInRange(m, after, DefaultWrite(k).adr, DefaultWrite(k).data, false, 0, 10);
  }

  lemma CutWhileDefaulting(before: Memory, after: Memory, i: nat)
    requires PAGES <= i < WRITES && CutAt(before, after, i)
    ensures !MagicThere(after) || DefaultBytesThere(after)
  {
    var k := i - PAGES;
    var m := WithDefaults(before, k);
    StageReached(before, k);
    if k < 5 { CutBeforeMagic(m, after, k); } else { CutAfterDefaults(m, after, k); }
  }

  lemma CutRunKeepsTrust(sizes: Sizes, before: Memory, after: Memory)
    requires Layout(sizes) && Trustworthy(sizes, before) && CutRun(sizes, before, after)
    ensures Trustworthy(sizes, after)
  {
    MagicIsFourBytes(sizes, before);
    MagicIsFourBytes(sizes, after);
    if !MagicValid(sizes, before) && MagicValid(sizes, after) {
      var i: nat :| i < WRITES && CutAt(before, after, i);
      if i < PAGES {
        CutWhileClearing(before, after, i);
      } else {
        CutWhileDefaulting(before, after, i);
        DefaultBytesAreValues(sizes, after);
      }
    }
  }

  lemma InitCompletes(sizes: Sizes, mem: Memory)
    requires Layout(sizes) && Trustworthy(sizes, mem)
    ensures MagicValid(sizes, AfterInit(sizes, mem)) && DefaultsThere(sizes, AfterInit(sizes, mem))
    ensures !MagicValid(sizes, mem) ==> Value(sizes, AfterInit(sizes, mem), VERSION) == VERSION_BYTES
  {
    if !MagicValid(sizes, mem) {
      var m := InitState(mem, WRITES);
      StageReached(mem, 8);
      DefaultBytesAreValues(sizes, m);
      LastStage(sizes, m);
      MagicIsFourBytes(sizes, m);
    }
  }

  /**
   However often start-up is cut, at whatever byte, the first one that comes to
   its end leaves a valid magic number, the default id and the default name. Only
   the version can be missing, and only if a cut came after the magic number.
   */
  lemma {:induction false} InterruptedInitRecovers(sizes: Sizes, mems: seq<Memory>)
    requires Layout(sizes) && |mems| > 0 && !MagicValid(sizes, mems[0])
    requires forall i | 0 <= i < |mems| - 1 :: CutRunAt(sizes, mems, i)
    ensures Trustworthy(sizes, mems[|mems| - 1])
    ensures var last := mems[|mems| - 1];
      var end := AfterInit(sizes, last);
      && MagicValid(sizes, end) && DefaultsThere(sizes, end)
      && (!MagicValid(sizes, last) ==> Value(sizes, end, VERSION) == VERSION_BYTES)
  {
    var n := |mems| - 1;
    if n > 0 {
      forall i | 0 <= i < n - 1 ensures CutRunAt(sizes, mems[..n], i) { assert CutRunAt(sizes, mems, i); }
      InterruptedInitRecovers(sizes, mems[..n]);
      assert CutRunAt(sizes, mems, n - 1);
      CutRunKeepsTrust(sizes, mems[n - 1], mems[n]);
    }
    InitCompletes(sizes, mems[n]);
  }

  /** What readers of the two defaults get: node 127 of version 1. */
  lemma DefaultNumbers()
    ensures LittleEndian(NODE_ID_BYTES) == 127 && LittleEndian(VERSION_BYTES) == 1
  {
    FourBytes(NODE_ID_BYTES);
    FourBytes(VERSION_BYTES);
  }

  /** A second start-up changes nothing. */
  lemma InitTwiceIsInitOnce(sizes: Sizes, mem: Memory)
    requires Layout(sizes)
    ensures AfterInit(sizes, AfterInit(sizes, mem)) == AfterInit(sizes, mem)
  {
    if !MagicValid(sizes, mem) { InitCompletes(sizes, mem); }
  }

  // ----------------------------------------------------------------- start-up

  function Default(p: nat): (data: seq<byte>)
    ensures |data| <= 17
  {
    if p == NODE_ID then NODE_ID_BYTES else if p == NODE_NAME then NODE_NAME_BYTES
    else if p == MAGIC then MAGIC_BYTES else VERSION_BYTES
  }

  /** The default write that begins setting `p`. */
  function FirstWrite(p: nat): (k: nat)
    ensures k + 2 <= 8
  {
    if p == NODE_ID then 0 else if p == NODE_NAME then 2 else if p == MAGIC then 4 else 6
  }

  lemma SetIsTwoDefaultWrites(sizes: Sizes, start: Memory, p: nat)
    requires Layout(sizes) && p < 4
    ensures |Default(p)| <= sizes[p]
    ensures Stored(sizes, WithDefaults(start, FirstWrite(p)), p, Default(p)) == WithDefaults(start, FirstWrite(p) + 2)
  {
    Offsets(sizes);
    var k := FirstWrite(p);
    assert DefaultWrite(k) == WriteOp(Offset(sizes, p), [|Default(p)|]);
    assert DefaultWrite(k + 1) == WriteOp(Offset(sizes, p) + 1, Default(p));
    assert WithDefaults(start, k + 1) == Splice(WithDefaults(start, k), Offset(sizes, p), [|Default(p)|]);
  }

  lemma DefaultSlot(sizes: Sizes, p: nat)
    requires Layout(sizes) && p < 4
    ensures var k := FirstWrite(p);
      DefaultWrite(k) == WriteOp(Offset(sizes, p), [|Default(p)|]) && DefaultWrite(k + 1) == WriteOp(Offset(sizes, p) + 1, Default(p))
  {
    Offsets(sizes);
  }

  lemma SetSendsTwoDefaultWrites(sizes: Sizes, n: nat)
    requires Layout(sizes) && n < 4
    ensures SlotTransfers(Offset(sizes, Nth(n)), Default(Nth(n))) == WriteTransfers()[PAGES + 2 * n] + WriteTransfers()[PAGES + 2 * n + 1]
  {
    DefaultSlot(sizes, Nth(n));
    assert InitWrite(PAGES + 2 * n) == DefaultWrite(2 * n) && InitWrite(PAGES + 2 * n + 1) == DefaultWrite(2 * n + 1);
  }

  lemma Appended(before: seq<Transfer>, done: seq<Transfer>, next: seq<Transfer>, all: seq<Transfer>)
    requires all == done + next
    ensures before + done + next == before + all
  {
  }

  /** The order in which the defaults are set. */
  function Nth(n: nat): (p: nat)
    requires n < 4
    ensures p < 4 && FirstWrite(p) == 2 * n
  {
    if n == 0 then NODE_ID else if n == 1 then NODE_NAME else if n == 2 then MAGIC else VERSION
  }

  /** `mems` are states of the device between which the defaults were set, without a fault. */
  ghost predicate StoredAt(sizes: Sizes, mems: seq<Memory>, n: nat)
    requires Layout(sizes) && n < 4 && |mems| == 5
  {
    OneStored(sizes, n, mems[n], mems[n + 1])
  }

  ghost predicate OneStored(sizes: Sizes, n: nat, mem: Memory, mem': Memory)
    requires Layout(sizes) && n < 4
  {
    var p := Nth(n);
    |Default(p)| <= sizes[p] && mem' == Stored(sizes, mem, p, Default(p))
  }

  /** `sents` are the transfers up to those states. */
  ghost predicate SentAt(sizes: Sizes, sents: seq<seq<Transfer>>, n: nat)
    requires Layout(sizes) && n < 4 && |sents| == 5
  {
    OneSent(sizes, n, sents[n], sents[n + 1])
  }

  ghost predicate OneSent(sizes: Sizes, n: nat, sent: seq<Transfer>, sent': seq<Transfer>)
    requires Layout(sizes) && n < 4
  {
    sent' == sent + SlotTransfers(Offset(sizes, Nth(n)), Default(Nth(n)))
  }

  lemma AllFour(holds: nat -> bool)
    requires holds(0) && holds(1) && holds(2) && holds(3)
    ensures forall n: nat | n < 4 :: holds(n)
  {
  }

  lemma {:induction false} StoredInOrder(sizes: Sizes, mems: seq<Memory>, start: Memory, n: nat)
    requires Layout(sizes) && n <= 4 && |mems| == 5 && mems[0] == Cleared(start, PAGES) && forall i | 0 <= i < 4 :: StoredAt(sizes, mems, i)
    ensures mems[n] == WithDefaults(start, 2 * n)
  {
    if n > 0 {
      StoredInOrder(sizes, mems, start, n - 1);
      assert StoredAt(sizes, mems, n - 1);
      SetIsTwoDefaultWrites(sizes, start, Nth(n - 1));
    }
  }

  lemma SentInOrder(sizes: Sizes, sents: seq<seq<Transfer>>, before: seq<Transfer>, parts: seq<seq<Transfer>>)
    requires Layout(sizes) && |sents| == 5 && forall i | 0 <= i < 4 :: SentAt(sizes, sents, i)
    requires parts == WriteTransfers() && sents[0] == before + Joined(parts[..PAGES])
    ensures sents[4] == before + Joined(parts)
  {
    forall n | 0 <= n < 4 ensures TwoParts(parts, sents, PAGES, n) {
      SentIsTwoParts(sizes, sents, parts, n);
    }
    PairsAddUp(parts, sents, before, PAGES, 4);
    assert parts[..PAGES + 8] == parts;
  }

  lemma SentIsTwoParts(sizes: Sizes, sents: seq<seq<Transfer>>, parts: seq<seq<Transfer>>, n: nat)
    requires Layout(sizes) && |sents| == 5 && n < 4 && SentAt(sizes, sents, n) && parts == WriteTransfers()
    ensures TwoParts(parts, sents, PAGES, n)
  {
    SetSendsTwoDefaultWrites(sizes, n);
  }

  ghost predicate TwoParts(parts: seq<seq<Transfer>>, sents: seq<seq<Transfer>>, first: nat, n: nat)
    requires n + 1 < |sents| && first + 2 * n + 1 < |parts|
  {
    sents[n + 1] == sents[n] + (parts[first + 2 * n] + parts[first + 2 * n + 1])
  }

  lemma {:induction false} PairsAddUp(parts: seq<seq<Transfer>>, sents: seq<seq<Transfer>>, before: seq<Transfer>, first: nat, n: nat)
    requires n < |sents| && first + 2 * n <= |parts| && sents[0] == before + Joined(parts[..first])
    requires forall i | 0 <= i < n :: TwoParts(parts, sents, first, i)
    ensures sents[n] == before + Joined(parts[..first + 2 * n])
  {
    if n > 0 {
      PairsAddUp(parts, sents, before, first, n - 1);
      assert TwoParts(parts, sents, first, n - 1);
      var i := first + 2 * (n - 1);
      JoinedNext(parts, i);
      JoinedNext(parts, i + 1);
      assert i + 2 == first + 2 * n;
    }
  }

  lemma FourStored(sizes: Sizes, mems: seq<Memory>, start: Memory)
    requires Layout(sizes) && |mems| == 5 && mems[0] == Cleared(start, PAGES)
    requires StoredAt(sizes, mems, 0) && StoredAt(sizes, mems, 1) && StoredAt(sizes, mems, 2) && StoredAt(sizes, mems, 3)
    ensures mems[4] == InitState(start, WRITES)
  {
    AllFour((n: nat) => n < 4 && StoredAt(sizes, mems, n));
    StoredInOrder(sizes, mems, start, 4);
  }

  lemma FourSent(sizes: Sizes, sents: seq<seq<Transfer>>, before: seq<Transfer>)
    requires Layout(sizes) && |sents| == 5 && sents[0] == before + InitTransfers(PAGES)
    requires SentAt(sizes, sents, 0) && SentAt(sizes, sents, 1) && SentAt(sizes, sents, 2) && SentAt(sizes, sents, 3)
    ensures sents[4] == before + InitTransfers(WRITES)
  {
    AllFour((n: nat) => n < 4 && SentAt(sizes, sents, n));
    SentInOrder(sizes, sents, before, WriteTransfers());
    assert WriteTransfers()[..WRITES] == WriteTransfers();
  }

  /** Bytes from 0 on that hold the first four parameters. */
  const DEFAULTS_END := 96

  lemma SlotBeforeEnd(sizes: Sizes, p: nat)
    requires Layout(sizes) && p < 4
    ensures |Default(p)| <= sizes[p] && Offset(sizes, p) + 1 + sizes[p] <= DEFAULTS_END
    ensures Truncated(Default(p), sizes[p]) == Default(p)
  {
    Offsets(sizes);
  }

  method SetDefault(store: Store, p: nat, ghost n: nat)
    requires store.Valid() && Layout(store.sizes) && n < 4 && p == Nth(n)
    modifies store.driver.chip
    ensures store.Healthy() ==>
      && OneStored(store.sizes, n, old(store.Mem()), store.Mem())
      && OneSent(store.sizes, n, old(store.driver.chip.bursts), store.driver.chip.bursts)
    ensures SameOutside(old(store.Mem()), store.Mem(), 0, DEFAULTS_END)
  {
    SlotBeforeEnd(store.sizes, p);
    var _ := store.Set(p, Default(p));
  }

  /** Node id and name first, then the magic number, then the version; whatever fails, nothing else is touched. */
  method SetDefaults(store: Store) returns (ghost mems: seq<Memory>, ghost sents: seq<seq<Transfer>>)
    requires store.Valid() && Layout(store.sizes)
    modifies store.driver.chip
    ensures |mems| == |sents| == 5 && mems[0] == old(store.Mem()) && sents[0] == old(store.driver.chip.bursts)
    ensures mems[4] == store.Mem() && sents[4] == store.driver.chip.bursts
    ensures store.Healthy() ==>
      && StoredAt(store.sizes, mems, 0) && StoredAt(store.sizes, mems, 1) && StoredAt(store.sizes, mems, 2) && StoredAt(store.sizes, mems, 3)
      && SentAt(store.sizes, sents, 0) && SentAt(store.sizes, sents, 1) && SentAt(store.sizes, sents, 2) && SentAt(store.sizes, sents, 3)
    ensures SameOutside(old(store.Mem()), store.Mem(), 0, DEFAULTS_END)
  {
    ghost var m0, s0 := store.Mem(), store.driver.chip.bursts;
    SetDefault(store, NODE_ID, 0);
    ghost var m1, s1 := store.Mem(), store.driver.chip.bursts;
    SetDefault(store, NODE_NAME, 1);
    ghost var m2, s2 := store.Mem(), store.driver.chip.bursts;
    SetDefault(store, MAGIC, 2);
    ghost var m3, s3 := store.Mem(), store.driver.chip.bursts;
    SetDefault(store, VERSION, 3);
    mems, sents := [m0, m1, m2, m3, store.Mem()], [s0, s1, s2, s3, store.driver.chip.bursts];
  }

  /** Behind a clearing whose transfers may have failed every byte is as before or zero. */
  ghost predicate ClearedInPart(before: Memory, after: Memory, end: nat) {
    forall i | 0 <= i < CAPACITY :: after[i] == before[i] || (i < end && after[i] == 0)
  }

  lemma PageClearedInPart(before: Memory, mid: Memory, after: Memory, i: nat, ok: bool)
    requires i < PAGES && ClearedInPart(before, mid, PAGE_SIZE * i) && WriteEnds(mid, after, PAGE_SIZE * i, Zeros(PAGE_SIZE), ok)
    ensures ClearedInPart(before, after, PAGE_SIZE * (i + 1))
  {
    if !ok {
      var k, c :| StoppedAt(mid, after, PAGE_SIZE * i, Zeros(PAGE_SIZE), k, c);
    }
  }

  /** `i` pages are cleared, on a device that was `start` and had made the transfers `before`. */
  ghost predicate PagesDone(start: Memory, before: seq<Transfer>, i: nat, mem: Memory, sent: seq<Transfer>) {
    i <= PAGES && mem == Cleared(start, i) && sent == before + InitTransfers(i)
  }

  lemma PageDone(start: Memory, before: seq<Transfer>, i: nat, mem: Memory, sent: seq<Transfer>)
    requires i < PAGES && PagesDone(start, before, i, mem, sent)
    ensures PagesDone(start, before, i + 1, Splice(mem, PAGE_SIZE * i, Zeros(PAGE_SIZE)), sent + Transfers(PAGE_SIZE * i, Zeros(PAGE_SIZE)))
  {
    InitStateIsWriteByWrite(start, i);
    JoinedNext(WriteTransfers(), i);
    Appended(before, InitTransfers(i), Transfers(PAGE_SIZE * i, Zeros(PAGE_SIZE)), InitTransfers(i + 1));
  }

  lemma NothingDone(start: Memory, before: seq<Transfer>)
    ensures PagesDone(start, before, 0, start, before) && ClearedInPart(start, start, 0)
  {
    InitStateIsWriteByWrite(start, 0);
  }

  method ClearAll(store: Store)
    requires store.Valid()
    modifies store.driver.chip
    ensures store.Healthy() ==>
      PagesDone(old(store.Mem()), old(store.driver.chip.bursts), PAGES, store.Mem(), store.driver.chip.bursts)
    ensures ClearedInPart(old(store.Mem()), store.Mem(), MAX_SIZE)
  {
    ghost var start, before := store.Mem(), store.driver.chip.bursts;
    NothingDone(start, before);
    for i := 0 to PAGES
      invariant ClearedInPart(start, store.Mem(), PAGE_SIZE * i)
      invariant store.Healthy() ==> PagesDone(start, before, i, store.Mem(), store.driver.chip.bursts)
    {
      ghost var mem, sent := store.Mem(), store.driver.chip.bursts;
      var r := store.driver.Write(PAGE_SIZE * i, Zeros(PAGE_SIZE));
      PageClearedInPart(start, mem, store.Mem(), i, r == 0);
      if store.Healthy() { PageDone(start, before, i, mem, sent); }
    }
  }

  /**
   `magicRead` says whether the magic number could be read. If it could and is valid
   nothing is written, on any bus; if a read failed, a valid store may be cleared.
   */
  method Init(store: Store, found: bool) returns (res: int, status: Status, ghost magicRead: bool)
    requires store.Valid() && Layout(store.sizes)
    modifies store.driver.chip
    ensures res == if found then 0 else -1
    ensures store.Healthy() && found ==> magicRead
    ensures !found || (magicRead && MagicValid(store.sizes, old(store.Mem()))) ==>
      store.Mem() == old(store.Mem()) && store.driver.chip.bursts == old(store.driver.chip.bursts)
    ensures magicRead && !MagicValid(store.sizes, old(store.Mem())) ==> status == Invalid
    ensures !found ==> status == Invalid
    ensures SameOutside(old(store.Mem()), store.Mem(), 0, MAX_SIZE)
    ensures found && store.Healthy() ==> store.Mem() == AfterInit(store.sizes, old(store.Mem()))
    ensures found && store.Healthy() && !MagicValid(store.sizes, old(store.Mem())) ==>
      store.driver.chip.bursts == old(store.driver.chip.bursts) + InitTransfers(WRITES)
    ensures found && store.Healthy() ==>
      status == if !MagicValid(store.sizes, old(store.Mem())) then Invalid
                else if LittleEndian(Value(store.sizes, old(store.Mem()), VERSION)) == CONFIGURATION_VERSION then Ok
                else VersionMismatch
  {
    if !found {
      return -1, Invalid, false;
    }
    var r, m, _ := store.Get(MAGIC);
    magicRead := r == OK;
    var _, v, _ := store.Get(VERSION);
    if LittleEndian(m) == CONFIGURATION_MAGIC {
      return 0, if LittleEndian(v) == CONFIGURATION_VERSION then Ok else VersionMismatch, magicRead;
    }
    ghost var start, before := store.Mem(), store.driver.chip.bursts;
    ClearAll(store);
    ghost var mems, sents := SetDefaults(store);
    if store.Healthy() {
      FourStored(store.sizes, mems, start);
      FourSent(store.sizes, sents, before);
    }
    return 0, Invalid, magicRead;
  }
}
