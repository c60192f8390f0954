/**
 The on-chip flash of the node and its driver.

 Cells are bytes; the driver compares and programs 16-bit half-words, so a block
 of odd length takes one byte more than asked for.
 */
module FlashMemory {
  import opened Bytes

  const PAGE_SIZE := 2048
  const ERASED: byte := 0xFF

  /** The number of bytes the half-word loops of the driver touch for `len`. */
  function Rounded(len: nat): nat { 2 * ((len + 1) / 2) }

  function PageStart(adr: nat): nat { adr - adr % PAGE_SIZE }

  predicate InPage(i: nat, adr: nat) { PageStart(adr) <= i < PageStart(adr) + PAGE_SIZE }

  lemma SamePage(adr: nat, i: nat)
    requires adr % PAGE_SIZE + i < PAGE_SIZE
    ensures PageStart(adr + i) == PageStart(adr)
  {
  }

  function HalfWord(lo: int, hi: int): int { lo + 256 * hi }

  /** `len` bytes at `adr`, rounded to half-words, lie inside one page of the flash and inside the buffer. */
  ghost predicate BlockFits(flash: seq<byte>, adr: nat, data: seq<byte>, len: nat) {
    adr % 2 == 0 && adr % PAGE_SIZE + Rounded(len) <= PAGE_SIZE && adr + Rounded(len) <= |flash| && Rounded(len) <= |data|
  }

  ghost predicate Matches(flash: seq<byte>, adr: nat, data: seq<byte>, len: nat)
    requires BlockFits(flash, adr, data, len)
  {
    forall i | 0 <= i < Rounded(len) :: flash[adr + i] == data[i]
  }

  ghost predicate SameOutsidePage(f: seq<byte>, g: seq<byte>, adr: nat) {
    |f| == |g| && forall i | 0 <= i < |f| && !InPage(i, adr) :: f[i] == g[i]
  }

  ghost predicate PageErased(flash: seq<byte>, adr: nat) {
    forall i | 0 <= i < |flash| && InPage(i, adr) :: flash[i] == ERASED
  }

  /** Word `i` from `page` on, in the flash and erased. */
  predicate WordErased(flash: seq<byte>, page: nat, i: nat) {
    && page + 4 * i + 3 < |flash|
    && flash[page + 4 * i] == flash[page + 4 * i + 1] == flash[page + 4 * i + 2] == flash[page + 4 * i + 3] == ERASED
  }

  /** The erase scan gets as far as word `i`: it stops behind the first word that is not erased. */
  ghost predicate ScanReads(flash: seq<byte>, page: nat, i: nat) {
    i < PAGE_SIZE && forall k | 0 <= k < i :: WordErased(flash, page, k)
  }

  /** No word the scan reads lies behind the flash. */
  ghost predicate ScanInBounds(flash: seq<byte>, page: nat) {
    forall i: nat | ScanReads(flash, page, i) :: page + 4 * i + 3 < |flash|
  }

  /** The scan counts words where it means bytes; it is in bounds exactly if four pages fit or a word stops it. */
  lemma ScanInBoundsIff(flash: seq<byte>, page: nat)
    requires page % PAGE_SIZE == 0 && |flash| % PAGE_SIZE == 0 && page <= |flash|
    ensures ScanInBounds(flash, page) <==>
      page + 4 * PAGE_SIZE <= |flash| || exists k: nat :: page + 4 * k + 3 < |flash| && !WordErased(flash, page, k)
  {
    if ScanInBounds(flash, page) && page + 4 * PAGE_SIZE > |flash| {
      var last := (|flash| - page) / 4;
      assert !ScanReads(flash, page, last);
    }
    if k: nat :| page + 4 * k + 3 < |flash| && !WordErased(flash, page, k) {
      forall i: nat | ScanReads(flash, page, i) ensures page + 4 * i + 3 < |flash| {
        assert i <= k;
      }
    }
  }

  predicate HalfErased(flash: seq<byte>, adr: nat)
    requires adr + 1 < |flash|
  {
    flash[adr] == ERASED && flash[adr + 1] == ERASED
  }

  /** Half-word `h` of a programmed block: only an erased half-word takes the new value. */
  ghost predicate HalfProgrammed(before: seq<byte>, after: seq<byte>, adr: nat, data: seq<byte>, h: nat)
    requires adr + 2 * h + 1 < |before| == |after| && 2 * h + 1 < |data|
  {
    var a := adr + 2 * h;
    if HalfErased(before, a)
    then after[a] == data[2 * h] && after[a + 1] == data[2 * h + 1]
    else after[a] == before[a] && after[a + 1] == before[a + 1]
  }

  ghost predicate Programmed(before: seq<byte>, after: seq<byte>, adr: nat, data: seq<byte>, len: nat)
    requires BlockFits(before, adr, data, len)
  {
    |after| == |before| &&
    (forall i | 0 <= i < |before| && !(adr <= i < adr + Rounded(len)) :: after[i] == before[i]) &&
    forall h | 0 <= h < (len + 1) / 2 :: HalfProgrammed(before, after, adr, data, h)
  }

  /** Erasing and then programming leaves the block readable as written, odd lengths included. */
  lemma ErasedThenProgrammedMatches(before: seq<byte>, after: seq<byte>, adr: nat, data: seq<byte>, len: nat)
    requires |before| % PAGE_SIZE == 0 && BlockFits(before, adr, data, len)
    requires PageErased(before, adr) && Programmed(before, after, adr, data, len)
    ensures Matches(after, adr, data, len)
    ensures forall i | 0 <= i < |after| && InPage(i, adr) && !(adr <= i < adr + Rounded(len)) :: after[i] == ERASED
    ensures SameOutsidePage(before, after, adr)
  {
    forall i | 0 <= i < Rounded(len) ensures after[adr + i] == data[i] {
      var h := i / 2;
      assert HalfProgrammed(before, after, adr, data, h);
      assert HalfErased(before, adr + 2 * h);
    }
  }

  /** What a page update does on a flash that is not worn: nothing if the block is there, else erase and program. */
  ghost predicate Updated(before: seq<byte>, after: seq<byte>, adr: nat, data: seq<byte>, len: nat)
    requires BlockFits(before, adr, data, len)
  {
    if Matches(before, adr, data, len) then after == before
    else exists erased :: UpdatedVia(before, erased, after, adr, data, len)
  }

  ghost predicate UpdatedVia(before: seq<byte>, erased: seq<byte>, after: seq<byte>, adr: nat, data: seq<byte>, len: nat)
    requires BlockFits(before, adr, data, len)
  {
    SameOutsidePage(before, erased, adr) && PageErased(erased, adr) && Programmed(erased, after, adr, data, len)
  }

  lemma UpdatedMatches(before: seq<byte>, after: seq<byte>, adr: nat, data: seq<byte>, len: nat)
    requires |before| % PAGE_SIZE == 0 && BlockFits(before, adr, data, len) && Updated(before, after, adr, data, len)
    ensures |after| == |before| && Matches(after, adr, data, len)
  {
    if !Matches(before, adr, data, len) {
      var erased :| UpdatedVia(before, erased, after, adr, data, len);
      ErasedThenProgrammedMatches(erased, after, adr, data, len);
    }
  }

  /** Without an erase, programming succeeds exactly when every half-word was blank or already right. */
  lemma ProgrammedMatchesIff(before: seq<byte>, after: seq<byte>, adr: nat, data: seq<byte>, len: nat)
    requires BlockFits(before, adr, data, len) && Programmed(before, after, adr, data, len)
    ensures Matches(after, adr, data, len) <==>
      forall h | 0 <= h < (len + 1) / 2 ::
        HalfErased(before, adr + 2 * h) || (before[adr + 2 * h] == data[2 * h] && before[adr + 2 * h + 1] == data[2 * h + 1])
  {
    if Matches(after, adr, data, len) {
      forall h | 0 <= h < (len + 1) / 2
        ensures HalfErased(before, adr + 2 * h) || (before[adr + 2 * h] == data[2 * h] && before[adr + 2 * h + 1] == data[2 * h + 1])
      {
        assert HalfProgrammed(before, after, adr, data, h);
        assert after[adr + 2 * h] == data[2 * h] && after[adr + (2 * h + 1)] == data[2 * h + 1];
      }
    } else {
      var i :| 0 <= i < Rounded(len) && after[adr + i] != data[i];
      assert HalfProgrammed(before, after, adr, data, i / 2);
    }
  }

  lemma WordsErased(flash: seq<byte>, adr: nat)
    requires forall k | 0 <= k < PAGE_SIZE :: WordErased(flash, PageStart(adr), k)
    ensures PageErased(flash, adr)
  {
    forall i | 0 <= i < |flash| && InPage(i, adr) ensures flash[i] == ERASED {
      assert WordErased(flash, PageStart(adr), (i - PageStart(adr)) / 4);
    }
  }

  class Flash {
    const cells: array<byte>
    /** A worn device: an erase or program may leave anything in the page it works on. */
    const worn: bool

    ghost predicate Valid() reads this, cells { cells.Length % PAGE_SIZE == 0 }

    constructor (size: nat, worn: bool)
      requires size % PAGE_SIZE == 0
      ensures Valid() && fresh(cells) && cells.Length == size && this.worn == worn
    {
      cells := new byte[size](_ => ERASED);
      this.worn := worn;
    }

    /** Leaves anything in the page of `adr`. */
    method Disturb(adr: nat)
      requires Valid() && adr < cells.Length
      modifies cells
      ensures SameOutsidePage(old(cells[..]), cells[..], adr)
    {
      var page := PageStart(adr);
      for i := page to page + PAGE_SIZE
        invariant forall j | 0 <= j < cells.Length && !(page <= j < page + PAGE_SIZE) :: cells[j] == old(cells[j])
      {
        var left: byte :| true;
        cells[i] := left;
      }
    }

    /** The erase operation of the flash controller on the page of `adr`. */
    method StartErase(adr: nat)
      requires Valid() && adr < cells.Length
      modifies cells
      ensures SameOutsidePage(old(cells[..]), cells[..], adr)
      ensures !worn ==> PageErased(cells[..], adr)
    {
      if worn {
        Disturb(adr);
        return;
      }
      var page := PageStart(adr);
      for i := page to page + PAGE_SIZE
        invariant forall j | 0 <= j < cells.Length && !(page <= j < i) :: cells[j] == old(cells[j])
        invariant forall j | page <= j < i :: cells[j] == ERASED
      {
        cells[i] := ERASED;
      }
    }

    /** One half-word write while PG is set. */
    method StartProgram(adr: nat, lo: byte, hi: byte)
      requires Valid() && adr % 2 == 0 && adr + 1 < cells.Length
      modifies cells
      ensures SameOutsidePage(old(cells[..]), cells[..], adr)
      ensures !worn ==> cells[..] == if HalfErased(old(cells[..]), adr) then old(cells[..])[adr := lo][adr + 1 := hi] else old(cells[..])
    {
      if worn {
        Disturb(adr);
      } else if cells[adr] == ERASED && cells[adr + 1] == ERASED {
        assert InPage(adr, adr) && InPage(adr + 1, adr);
        cells[adr], cells[adr + 1] := lo, hi;
      }
    }

    method ErasePage(adr: nat)
      requires Valid() && adr < cells.Length && ScanInBounds(cells[..], PageStart(adr))
      modifies cells
      ensures SameOutsidePage(old(cells[..]), cells[..], adr)
      ensures !worn ==> PageErased(cells[..], adr)
    {
      var p := PageStart(adr);
      var i := 0;
      while i < PAGE_SIZE
        invariant 0 <= i <= PAGE_SIZE
        invariant forall k | 0 <= k < i :: WordErased(cells[..], p, k)
      {
        assert ScanReads(cells[..], p, i);
        if !(cells[p + 4 * i] == ERASED && cells[p + 4 * i + 1] == ERASED && cells[p + 4 * i + 2] == ERASED && cells[p + 4 * i + 3] == ERASED) {
          break;
        }
        i := i + 1;
      }
      if i == PAGE_SIZE {
        WordsErased(cells[..], adr);
        return;
      }
      StartErase(adr);
    }

    method VerifyBlock(adr: nat, data: array<byte>, len: nat) returns (same: bool)
      requires Valid() && BlockFits(cells[..], adr, data[..], len)
      ensures same <==> Matches(cells[..], adr, data[..], len)
    {
      var halves := (len + 1) / 2;
      for i := 0 to halves
        invariant forall j | 0 <= j < 2 * i :: cells[adr + j] == data[j]
      {
        if HalfWord(cells[adr + 2 * i], cells[adr + 2 * i + 1]) != HalfWord(data[2 * i], data[2 * i + 1]) {
          assert cells[adr + 2 * i] != data[2 * i] || cells[adr + (2 * i + 1)] != data[2 * i + 1];
          return false;
        }
      }
      return true;
    }

    method WriteBlock(adr: nat, data: array<byte>, len: nat)
      requires Valid() && data != cells && BlockFits(cells[..], adr, data[..], len)
      modifies cells
      ensures SameOutsidePage(old(cells[..]), cells[..], adr)
      ensures !worn ==> Programmed(old(cells[..]), cells[..], adr, data[..], len)
    {
      var halves := (len + 1) / 2;
      ghost var start := cells[..];
      for i := 0 to halves
        invariant SameOutsidePage(start, cells[..], adr)
        invariant !worn ==> forall j | 0 <= j < cells.Length && !(adr <= j < adr + 2 * i) :: cells[j] == start[j]
        invariant !worn ==> forall h | 0 <= h < i :: HalfProgrammed(start, cells[..], adr, data[..], h)
      {
        SamePage(adr, 2 * i);
        ghost var before := cells[..];
        if HalfWord(cells[adr + 2 * i], cells[adr + 2 * i + 1]) != HalfWord(data[2 * i], data[2 * i + 1]) {
          StartProgram(adr + 2 * i, data[2 * i], data[2 * i + 1]);
        }
        if !worn {
          assert HalfProgrammed(start, cells[..], adr, data[..], i);
          forall h | 0 <= h < i ensures HalfProgrammed(start, cells[..], adr, data[..], h) {
            assert HalfProgrammed(start, before, adr, data[..], h);
          }
        }
      }
    }
  }
}
