/**
 The serial EEPROM and its driver. The device takes a burst of bytes into one
 32-byte page and wraps inside it; the driver splits a write so that this never
 shows.
 */
module Eeprom {
  import opened Bytes

  const CAPACITY := 0x1_0000
  const PAGE_SIZE := 32
  const RETRY_COUNT := 2

  type Memory = m: seq<byte> | |m| == CAPACITY witness Zeros(CAPACITY)

  /** The device's address counter only counts inside the page. */
  function NextInPage(adr: nat): nat { adr - adr % PAGE_SIZE + (adr + 1) % PAGE_SIZE }

  /** What a burst of `data` to `adr` leaves in the device. */
  function Burst(mem: Memory, adr: nat, data: seq<byte>): Memory
    requires adr < CAPACITY
    decreases |data|
  {
    if data == [] then mem else Burst(mem[adr := data[0]], NextInPage(adr), data[1..])
  }

  predicate InsidePage(adr: nat, len: nat) { adr % PAGE_SIZE + len <= PAGE_SIZE }

  lemma CountsOn(adr: nat)
    requires adr % 32 + 1 < 32
    ensures NextInPage(adr) == adr + 1 && (adr + 1) % 32 == adr % 32 + 1
  {
  }

  lemma {:induction false} BurstInsidePageIsFlat(mem: Memory, adr: nat, data: seq<byte>)
    requires adr < CAPACITY && InsidePage(adr, |data|)
    ensures adr + |data| <= CAPACITY && Burst(mem, adr, data) == Splice(mem, adr, data)
    decreases |data|
  {
    if data != [] {
      if |data| > 1 {
        CountsOn(adr);
        BurstInsidePageIsFlat(mem[adr := data[0]], adr + 1, data[1..]);
      } else {
        assert Burst(mem[adr := data[0]], NextInPage(adr), []) == mem[adr := data[0]];
      }
    }
  }

  /** One byte more than the page holds, and the first one is lost: this is what splitting avoids. */
  lemma BurstAcrossPageWraps(mem: Memory, a: byte, b: byte)
    ensures Burst(mem, PAGE_SIZE - 1, [a, b]) == mem[PAGE_SIZE - 1 := a][0 := b]
  {
    assert [a, b][1..] == [b] && NextInPage(PAGE_SIZE - 1) == 0;
    assert Burst(mem[PAGE_SIZE - 1 := a], 0, [b]) == Burst(mem[PAGE_SIZE - 1 := a][0 := b], 1, []);
  }

  /** Every byte is as before or as after: a burst that was not acknowledged. */
  ghost predicate Mixed(before: Memory, full: Memory, after: Memory) {
    forall i | 0 <= i < CAPACITY :: after[i] == before[i] || after[i] == full[i]
  }

  /**
   A write that stopped: the first `k` bytes are new, of the next `c`, which lie in
   one page, each is old or new, and everything else is old.
   */
  ghost predicate StoppedAt(before: Memory, after: Memory, adr: nat, data: seq<byte>, k: nat, c: nat) {
    && adr + |data| <= CAPACITY && k + c <= |data| && InsidePage(adr + k, c)
    && forall i | 0 <= i < CAPACITY ::
      if adr <= i < adr + k then after[i] == data[i - adr]
      else if adr + k <= i < adr + k + c then after[i] == before[i] || after[i] == data[i - adr]
      else after[i] == before[i]
  }

  ghost predicate Stopped(before: Memory, after: Memory, adr: nat, data: seq<byte>) {
    exists k, c :: StoppedAt(before, after, adr, data, k, c)
  }

  /** How a write of the driver can end. */
  ghost predicate WriteEnds(before: Memory, after: Memory, adr: nat, data: seq<byte>, ok: bool)
    requires adr + |data| <= CAPACITY
  {
    if ok then after == Splice(before, adr, data) else Stopped(before, after, adr, data)
  }

  ghost predicate SameOutside(before: Memory, after: Memory, lo: int, hi: int) {
    forall i | 0 <= i < CAPACITY && !(lo <= i < hi) :: after[i] == before[i]
  }

  lemma WriteStaysInRange(before: Memory, after: Memory, adr: nat, data: seq<byte>, ok: bool, lo: int, hi: int)
    requires adr + |data| <= CAPACITY && WriteEnds(before, after, adr, data, ok)
    requires lo <= adr && adr + |data| <= hi
    ensures SameOutside(before, after, lo, hi)
  {
    if !ok {
      var k, c :| StoppedAt(before, after, adr, data, k, c);
    }
  }

  /** Two writes one behind the other, however each ends, stay between `lo` and `hi`. */
  lemma TwoWritesStayInRange(before: Memory, mid: Memory, after: Memory, a: nat, d: seq<byte>, ok1: bool, e: seq<byte>, ok2: bool, hi: nat)
    requires a + |d| + |e| <= Min(hi, CAPACITY)
    requires WriteEnds(before, mid, a, d, ok1) && WriteEnds(mid, after, a + |d|, e, ok2)
    ensures SameOutside(before, after, a, hi)
  {
    WriteStaysInRange(before, mid, a, d, ok1, a, hi);
    WriteStaysInRange(mid, after, a + |d|, e, ok2, a, hi);
  }

  lemma RetryStaysMixed(before: Memory, mem: Memory, after: Memory, adr: nat, data: seq<byte>, k: nat, c: nat)
    requires StoppedAt(before, mem, adr, data, k, c) && 0 < c
    requires Mixed(mem, Burst(mem, adr + k, data[k..k + c]), after)
    ensures StoppedAt(before, after, adr, data, k, c)
  {
    BurstInsidePageIsFlat(mem, adr + k, data[k..k + c]);
  }

  lemma AcknowledgedAdvances(before: Memory, mem: Memory, adr: nat, data: seq<byte>, k: nat, c: nat)
    requires StoppedAt(before, mem, adr, data, k, c) && 0 < c
    ensures StoppedAt(before, Burst(mem, adr + k, data[k..k + c]), adr, data, k + c, 0)
  {
    BurstInsidePageIsFlat(mem, adr + k, data[k..k + c]);
    var next := Burst(mem, adr + k, data[k..k + c]);
    forall i | 0 <= i < CAPACITY
      ensures if adr <= i < adr + (k + c) then next[i] == data[i - adr] else next[i] == before[i]
    {
      if adr + k <= i < adr + k + c { assert data[k..k + c][i - (adr + k)] == data[i - adr]; }
    }
  }

  lemma BeginsChunk(before: Memory, mem: Memory, adr: nat, data: seq<byte>, k: nat, c: nat)
    requires StoppedAt(before, mem, adr, data, k, 0) && k + c <= |data| && InsidePage(adr + k, c)
    ensures StoppedAt(before, mem, adr, data, k, c)
  {
  }

  lemma NothingLeftIsFlat(before: Memory, after: Memory, adr: nat, data: seq<byte>)
    requires StoppedAt(before, after, adr, data, |data|, 0)
    ensures after == Splice(before, adr, data)
  {
  }

  lemma EmptyWriteIsAnywhere(before: Memory, after: Memory, a: nat, b: nat, ok: bool)
    requires a <= CAPACITY && b <= CAPACITY && WriteEnds(before, after, a, [], ok)
    ensures WriteEnds(before, after, b, [], ok)
  {
    WriteStaysInRange(before, after, a, [], ok, a, a);
    assert StoppedAt(before, after, b, [], 0, 0);
    NothingLeftIsFlat(before, after, b, []);
  }

  datatype Transfer = Transfer(adr: nat, data: seq<byte>)

  /** The transfers of a write that meets no fault: each goes up to the end of its page. */
  function Transfers(adr: nat, data: seq<byte>): seq<Transfer>
    decreases |data|
  {
    if data == [] then []
    else
      var c := Min(PAGE_SIZE - adr % PAGE_SIZE, |data|);
      [Transfer(adr, data[..c])] + Transfers(adr + c, data[c..])
  }

  /** With the transfers of what is left behind `k` bytes, `bursts` will be `total`. */
  ghost predicate WillBe(bursts: seq<Transfer>, adr: nat, data: seq<byte>, k: nat, total: seq<Transfer>) {
    k <= |data| && bursts + Transfers(adr + k, data[k..]) == total
  }

  lemma FillsExactly(a: nat, c: nat, size: nat)
    requires a % 32 + c <= 32 && c <= size && ((a + c) % 32 == 0 || c == size) && c > 0
    ensures c == if 32 - a % 32 < size then 32 - a % 32 else size
  {
  }

  lemma NextTransfer(bursts: seq<Transfer>, adr: nat, data: seq<byte>, k: nat, c: nat, total: seq<Transfer>)
    requires WillBe(bursts, adr, data, k, total) && c > 0 && FillsPage(adr + k, c, |data| - k)
    ensures WillBe(bursts + [Transfer(adr + k, data[k..k + c])], adr, data, k + c, total)
  {
    var rest := data[k..];
    FillsExactly(adr + k, c, |rest|);
    assert rest[..c] == data[k..k + c] && rest[c..] == data[k + c..];
    assert Transfers(adr + k, rest) == [Transfer(adr + k, rest[..c])] + Transfers(adr + k + c, rest[c..]);
    assert adr + k + c == adr + (k + c);
  }

  lemma NothingLeftToSend(bursts: seq<Transfer>, adr: nat, data: seq<byte>, total: seq<Transfer>)
    requires WillBe(bursts, adr, data, |data|, total)
    ensures bursts == total
  {
  }

  /** From number `n` on, no transfer crosses a page. */
  ghost predicate AllInsidePage(bursts: seq<Transfer>, n: nat) {
    n <= |bursts| && forall i | n <= i < |bursts| :: InsidePage(bursts[i].adr, |bursts[i].data|)
  }

  /** `c` bytes at `a` go up to the end of their page, or finish the `size` bytes left. */
  predicate FillsPage(a: nat, c: nat, size: nat) {
    c <= size && (c == 0 ==> size == 0) && InsidePage(a, c) && ((a + c) % PAGE_SIZE == 0 || c == size)
  }

  lemma NextChunk(a: nat, c: nat, size: nat)
    requires FillsPage(a, c, size)
    ensures FillsPage(a + c, if size - c > PAGE_SIZE then PAGE_SIZE else size - c, size - c)
  {
  }

  /** The first chunk fills up the page, computed as the driver does in 16 and 8 bits. */
  lemma FirstChunk(adr: nat)
    requires adr < CAPACITY
    ensures ((adr - adr % PAGE_SIZE + PAGE_SIZE) % U16 - adr) % 256 == PAGE_SIZE - adr % PAGE_SIZE
  {
  }

  class Chip {
    var mem: Memory
    /** Every transfer is acknowledged; without it any transfer may fail. */
    const healthy: bool
    ghost var bursts: seq<Transfer>

    constructor (mem: Memory, healthy: bool)
      ensures this.mem == mem && this.healthy == healthy && bursts == []
    {
      this.mem, this.healthy, bursts := mem, healthy, [];
    }

    /** One write transfer on the bus. */
    method Transmit(adr: nat, data: seq<byte>) returns (ok: bool)
      requires adr < CAPACITY
      modifies this
      ensures ok ==> mem == Burst(old(mem), adr, data)
      ensures Mixed(old(mem), Burst(old(mem), adr, data), mem)
      ensures healthy ==> ok
      ensures bursts == old(bursts) + [Transfer(adr, data)]
    {
      var before, full := mem, Burst(mem, adr, data);
      var fault: bool :| true;
      ok := healthy || !fault;
      if ok {
        mem := full;
      } else {
        var stored: seq<bool> := *;
        mem := seq(CAPACITY, i requires 0 <= i < CAPACITY => if i < |stored| && stored[i] then full[i] else before[i]);
      }
      bursts := bursts + [Transfer(adr, data)];
    }

    /** One read transfer on the bus; a failed one may leave anything in the caller's buffer. */
    method Receive(adr: nat, size: nat) returns (ok: bool, out: seq<byte>)
      requires adr + size <= CAPACITY
      ensures |out| == size && (ok ==> out == mem[adr..adr + size])
      ensures healthy ==> ok
    {
      var fault: bool :| true;
      ok := healthy || !fault;
      if ok {
        out := mem[adr..adr + size];
      } else {
        var garbage: seq<byte> := *;
        out := seq(size, i requires 0 <= i < size => if i < |garbage| then garbage[i] else 0);
      }
    }
  }

  class Driver {
    const chip: Chip

    constructor (chip: Chip)
      ensures this.chip == chip
    {
      this.chip := chip;
    }

    method Read(adr: nat, size: nat) returns (res: int, out: seq<byte>)
      requires adr < CAPACITY && size < U16
      ensures |out| == size && res in {0, -1}
      ensures res == 0 ==> adr + size <= CAPACITY && out == chip.mem[adr..adr + size]
      ensures chip.healthy && adr + size <= CAPACITY ==> res == 0
    {
      out := Zeros(size);
      if adr > CAPACITY || adr + size > CAPACITY {
        return -1, out;
      }
      for attempt := 0 to RETRY_COUNT
        invariant |out| == size
        invariant chip.healthy ==> attempt == 0
      {
        var ok;
        ok, out := chip.Receive(adr, size);
        if ok {
          return 0, out;
        }
      }
      return -1, out;
    }

    /** A busy device does not acknowledge: poll with reads. */
    method WriteAckPoll() returns (res: int)
      ensures chip.healthy ==> res == 0
    {
      var tries := 5;
      while tries > 0
        invariant chip.healthy ==> tries == 5
      {
        tries := tries - 1;
        var r, _ := Read(0, 1);
        if r == 0 {
          return 0;
        }
      }
      return 1;
    }

    /** Sends one chunk, up to RETRY_COUNT times. */
    method WriteChunk(adr: nat, ghost start: Memory, ghost adr0: nat, ghost data: seq<byte>, ghost k: nat, chunk: seq<byte>)
      returns (success: bool)
      requires k + |chunk| <= |data| && chunk == data[k..k + |chunk|] && 0 < |chunk| && adr == adr0 + k < CAPACITY
      requires StoppedAt(start, chip.mem, adr0, data, k, |chunk|)
      modifies chip
      ensures StoppedAt(start, chip.mem, adr0, data, if success then k + |chunk| else k, if success then 0 else |chunk|)
      ensures chip.healthy ==> success && chip.bursts == old(chip.bursts) + [Transfer(adr, chunk)]
      ensures old(chip.bursts) <= chip.bursts && AllInsidePage(chip.bursts, |old(chip.bursts)|)
    {
      success := false;
      for attempt := 0 to RETRY_COUNT
        invariant !success && StoppedAt(start, chip.mem, adr0, data, k, |chunk|)
        invariant chip.healthy ==> attempt == 0 && chip.bursts == old(chip.bursts)
        invariant old(chip.bursts) <= chip.bursts && AllInsidePage(chip.bursts, |old(chip.bursts)|)
      {
        ghost var before := chip.mem;
        var ok := chip.Transmit(adr, chunk);
        RetryStaysMixed(start, before, chip.mem, adr0, data, k, |chunk|);
        if ok {
          AcknowledgedAdvances(start, before, adr0, data, k, |chunk|);
          var poll := WriteAckPoll();
          if poll == 0 {
            return true;
          }
        }
      }
    }

    method Write(adr0: nat, data: seq<byte>) returns (res: int)
      requires adr0 < CAPACITY && |data| < U16
      modifies chip
      ensures res in {0, -1}
      ensures adr0 + |data| > CAPACITY ==> res == -1 && chip.mem == old(chip.mem)
      ensures adr0 + |data| <= CAPACITY ==> WriteEnds(old(chip.mem), chip.mem, adr0, data, res == 0)
      ensures chip.healthy && adr0 + |data| <= CAPACITY ==> res == 0 && chip.bursts == old(chip.bursts) + Transfers(adr0, data)
      ensures old(chip.bursts) <= chip.bursts && AllInsidePage(chip.bursts, |old(chip.bursts)|)
    {
      if adr0 > CAPACITY || adr0 + |data| > CAPACITY {
        return -1;
      }
      FirstChunk(adr0);
      var nextPage := (adr0 - adr0 % PAGE_SIZE + PAGE_SIZE) % U16;   // 0 behind the last page
      var pageSpace: nat := (nextPage - adr0) % 256;
      res := WriteChunks(adr0, data, if pageSpace < |data| then pageSpace else |data|);
    }

    /** Chunk after chunk, the first of them `first` bytes. */
    method WriteChunks(adr0: nat, data: seq<byte>, first: nat) returns (res: int)
      requires adr0 < CAPACITY && adr0 + |data| <= CAPACITY && FillsPage(adr0, first, |data|)
      modifies chip
      ensures res in {0, -1} && WriteEnds(old(chip.mem), chip.mem, adr0, data, res == 0)
      ensures chip.healthy ==> res == 0 && chip.bursts == old(chip.bursts) + Transfers(adr0, data)
      ensures old(chip.bursts) <= chip.bursts && AllInsidePage(chip.bursts, |old(chip.bursts)|)
    {
      var adr, size: nat := adr0, |data|;
      var writeSize: nat := first;
      var done: nat := 0;                                          // how far the source's `in` has moved
      ghost var start, total := chip.mem, chip.bursts + Transfers(adr0, data);
      assert data[0..] == data;
      while writeSize > 0
        invariant done + size == |data| && adr == if adr0 + done == CAPACITY then 0 else adr0 + done
        invariant FillsPage(adr0 + done, writeSize, size)
        invariant StoppedAt(start, chip.mem, adr0, data, done, 0)
        invariant old(chip.bursts) <= chip.bursts && AllInsidePage(chip.bursts, |old(chip.bursts)|)
        invariant chip.healthy ==> WillBe(chip.bursts, adr0, data, done, total)
        decreases size
      {
        ghost var before := chip.bursts;
        BeginsChunk(start, chip.mem, adr0, data, done, writeSize);
        var success := WriteChunk(adr, start, adr0, data, done, data[done..done + writeSize]);
        if !success {
          assert StoppedAt(start, chip.mem, adr0, data, done, writeSize);
          return -1;
        }
        if chip.healthy { NextTransfer(before, adr0, data, done, writeSize, total); }
        NextChunk(adr0 + done, writeSize, size);
        size := size - writeSize;
        adr := (adr + writeSize) % U16;
        done := done + writeSize;
        writeSize := if size > PAGE_SIZE then PAGE_SIZE else size;
      }
      NothingLeftIsFlat(start, chip.mem, adr0, data);
      if chip.healthy { NothingLeftToSend(chip.bursts, adr0, data, total); }
      return 0;
    }
  }
}
