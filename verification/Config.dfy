/**
 The parameter store: every parameter has a slot in the EEPROM, a length byte
 followed by the reserved bytes; the slots lie one behind the other.
 */
module Config {
  import opened Bytes
  import opened Eeprom

  const OK := 0
  const NO_SUCH_PARAMETER := -1
  const MEMORY_ERROR := -2

  /** Reserved sizes of the parameters, in order. */
  type Sizes = seq<byte>

  function Offset(sizes: Sizes, p: nat): nat
    requires p <= |sizes|
  {
    if p == 0 then 0 else Offset(sizes, p - 1) + sizes[p - 1] + 1
  }

  /** Every slot length fits a byte and the slots fit the device. */
  predicate SlotsFit(sizes: Sizes) {
    (forall p | 0 <= p < |sizes| :: sizes[p] < 255) && Offset(sizes, |sizes|) <= CAPACITY
  }

  lemma {:induction false} OffsetGrows(sizes: Sizes, p: nat, q: nat)
    requires p <= q <= |sizes|
    ensures Offset(sizes, p) <= Offset(sizes, q)
    ensures p < q ==> Offset(sizes, p) + sizes[p] + 1 <= Offset(sizes, q)
  {
    if p < q { OffsetGrows(sizes, p, q - 1); }
  }

  /** The value a reader sees: as much as the length byte says and the slot holds. */
  function Value(sizes: Sizes, mem: Memory, p: nat): (v: seq<byte>)
    requires SlotsFit(sizes) && p < |sizes|
    ensures |v| <= sizes[p]
  {
    OffsetGrows(sizes, p, |sizes|);
    var o := Offset(sizes, p);
    mem[o + 1..o + 1 + Min(mem[o], sizes[p])]
  }

  /** A length byte beyond the slot, as an unwritten device has it, means the whole slot. */
  lemma ValueOfBytes(sizes: Sizes, mem: Memory, p: nat)
    requires SlotsFit(sizes) && p < |sizes|
    ensures var o, v := Offset(sizes, p), Value(sizes, mem, p);
      && o + 1 + |v| <= CAPACITY && |v| == (if mem[o] <= sizes[p] then mem[o] else sizes[p])
      && forall i | 0 <= i < |v| :: v[i] == mem[o + 1 + i]
  {
    OffsetGrows(sizes, p, |sizes|);
  }

  lemma ValueOfLength(sizes: Sizes, mem: Memory, p: nat, valid: nat)
    requires SlotsFit(sizes) && p < |sizes| && Offset(sizes, p) < CAPACITY && valid == Min(mem[Offset(sizes, p)], sizes[p])
    ensures Offset(sizes, p) + 1 + valid <= CAPACITY && Value(sizes, mem, p) == mem[Offset(sizes, p) + 1..Offset(sizes, p) + 1 + valid]
  {
    OffsetGrows(sizes, p, |sizes|);
  }

  function Values(sizes: Sizes, mem: Memory): (m: map<nat, seq<byte>>)
    requires SlotsFit(sizes)
  {
    map p: nat | p < |sizes| :: Value(sizes, mem, p)
  }

  function Truncated(src: seq<byte>, size: nat): seq<byte> { src[..Min(|src|, size)] }

  /** What writing `data` to parameter `p` makes of the device. */
  function Stored(sizes: Sizes, mem: Memory, p: nat, data: seq<byte>): Memory
    requires SlotsFit(sizes) && p < |sizes| && |data| <= sizes[p]
  {
    OffsetGrows(sizes, p, |sizes|);
    Splice(Splice(mem, Offset(sizes, p), [|data|]), Offset(sizes, p) + 1, data)
  }

  /** The transfers that store `data`: the length byte's, then the data's. */
  function SlotTransfers(offset: nat, data: seq<byte>): seq<Transfer>
    requires |data| < 256
  {
    Transfers(offset, [|data|]) + Transfers(offset + 1, data)
  }

  ghost predicate SameOutsideSlot(sizes: Sizes, before: Memory, after: Memory, p: nat)
    requires p < |sizes|
  {
    SameOutside(before, after, Offset(sizes, p), Offset(sizes, p) + 1 + sizes[p])
  }

  lemma OtherParametersKeepTheirValue(sizes: Sizes, before: Memory, after: Memory, p: nat, q: nat)
    requires SlotsFit(sizes) && p < |sizes| && q < |sizes| && p != q && SameOutsideSlot(sizes, before, after, p)
    ensures Value(sizes, after, q) == Value(sizes, before, q)
  {
    OffsetGrows(sizes, q, |sizes|);
    if p < q { OffsetGrows(sizes, p, q); } else { OffsetGrows(sizes, q, p); }
    var o := Offset(sizes, q);
    assert forall i | o <= i < o + 1 + sizes[q] :: after[i] == before[i];
  }

  lemma StoredReadsBack(mem: Memory, o: nat, data: seq<byte>)
    requires o + 1 + |data| <= CAPACITY && |data| < 256
    ensures var after := Splice(Splice(mem, o, [|data|]), o + 1, data);
      && after[o] == |data| && after[o + 1..o + 1 + |data|] == data
      && SameOutside(mem, after, o, o + 1 + |data|)
  {
  }

  /** On the device, a successful set is an update of the map from parameters to values. */
  lemma StoredRefinesMapUpdate(sizes: Sizes, mem: Memory, p: nat, data: seq<byte>)
    requires SlotsFit(sizes) && p < |sizes| && |data| <= sizes[p]
    ensures Values(sizes, Stored(sizes, mem, p, data)) == Values(sizes, mem)[p := data]
    ensures SameOutsideSlot(sizes, mem, Stored(sizes, mem, p, data), p)
  {
    OffsetGrows(sizes, p, |sizes|);
    var after := Stored(sizes, mem, p, data);
    StoredReadsBack(mem, Offset(sizes, p), data);
    assert Value(sizes, after, p) == data;
    forall q | 0 <= q < |sizes| && q != p ensures Value(sizes, after, q) == Value(sizes, mem, q) {
      OtherParametersKeepTheirValue(sizes, mem, after, p, q);
    }
  }

  // --------------------------------------------------------------- whole runs

  /** A set operation and whether it reported success. */
  datatype Operation = Set(p: nat, src: seq<byte>, ok: bool)

  ghost predicate Performed(sizes: Sizes, before: Memory, op: Operation, after: Memory)
    requires SlotsFit(sizes)
  {
    if op.p >= |sizes| then !op.ok && after == before
    else if op.ok then after == Stored(sizes, before, op.p, Truncated(op.src, sizes[op.p]))
    else SameOutsideSlot(sizes, before, after, op.p)
  }

  ghost predicate History(sizes: Sizes, mems: seq<Memory>, ops: seq<Operation>)
    requires SlotsFit(sizes)
  {
    |mems| == |ops| + 1 && forall i {:trigger ops[i]} | 0 <= i < |ops| :: Performed(sizes, mems[i], ops[i], mems[i + 1])
  }

  /** The operations on `p` among the first `n`: none, or the last one. */
  function LastSet(ops: seq<Operation>, n: nat, p: nat): Option<Operation>
    requires n <= |ops|
  {
    if n == 0 then None else if ops[n - 1].p == p then Some(ops[n - 1]) else LastSet(ops, n - 1, p)
  }

  /** Whatever fails in between, a parameter reads as its own last set left it. */
  lemma {:induction false} LastSetWins(sizes: Sizes, mems: seq<Memory>, ops: seq<Operation>, n: nat, p: nat)
    requires SlotsFit(sizes) && History(sizes, mems, ops) && n <= |ops| && p < |sizes|
    ensures LastSet(ops, n, p).None? ==> Value(sizes, mems[n], p) == Value(sizes, mems[0], p)
    ensures LastSet(ops, n, p).Some? && LastSet(ops, n, p).value.ok ==>
      Value(sizes, mems[n], p) == Truncated(LastSet(ops, n, p).value.src, sizes[p])
  {
    if n > 0 {
      var op := ops[n - 1];
      LastSetWins(sizes, mems, ops, n - 1, p);
      assert Performed(sizes, mems[n - 1], op, mems[n]);
      if op.p < |sizes| {
        if op.ok {
          StoredRefinesMapUpdate(sizes, mems[n - 1], op.p, Truncated(op.src, sizes[op.p]));
          assert Values(sizes, mems[n])[p] == Value(sizes, mems[n], p);
        }
        if op.p != p {
          OtherParametersKeepTheirValue(sizes, mems[n - 1], mems[n], op.p, p);
        }
      }
    }
  }

  // -------------------------------------------------------------------- store

  class Store {
    const sizes: Sizes
    const names: seq<seq<byte>>
    const driver: Driver

    ghost predicate Valid() { SlotsFit(sizes) && |names| == |sizes| }

    ghost function Mem(): Memory reads driver.chip { driver.chip.mem }

    ghost function Healthy(): bool { driver.chip.healthy }

    constructor (sizes: Sizes, names: seq<seq<byte>>, driver: Driver)
      requires SlotsFit(sizes) && |names| == |sizes|
      ensures Valid() && this.sizes == sizes && this.names == names && this.driver == driver
    {
      this.sizes, this.names, this.driver := sizes, names, driver;
    }

    function ParamSize(p: nat): byte { if p >= |sizes| then 0 else sizes[p] }

    method GetParamOffset(param: nat) returns (offset: nat)
      requires Valid() && param < |sizes|
      ensures offset == Offset(sizes, param) < CAPACITY
    {
      offset := 0;
      var p: nat := param;
      while p > 0
        invariant p <= param && offset + Offset(sizes, p) == Offset(sizes, param)
      {
        p := p - 1;
        offset := offset + (ParamSize(p) + 1) % 256;
      }
      OffsetGrows(sizes, param, |sizes|);
    }

    /** The first parameter of that name. */
    method GetIdByName(name: seq<byte>) returns (id: int)
      requires Valid()
      ensures id == NO_SUCH_PARAMETER ==> name !in names
      ensures id != NO_SUCH_PARAMETER ==> 0 <= id < |names| && names[id] == name && forall q | 0 <= q < id :: names[q] != name
    {
      id := 0;
      while id < |names|
        invariant 0 <= id <= |names| && forall q | 0 <= q < id :: names[q] != name
      {
        if |names[id]| == |name| && name == names[id] {
          return;
        }
        id := id + 1;
      }
      id := NO_SUCH_PARAMETER;
    }

    /** `dst` after a failed read is whatever the bus left in the caller's memory. */
    method Get(p: nat) returns (res: int, dst: seq<byte>, valid: byte)
      requires Valid()
      ensures p >= |sizes| ==> res == NO_SUCH_PARAMETER && dst == [] && valid == 0
      ensures p < |sizes| ==> res in {OK, MEMORY_ERROR} && |dst| <= sizes[p]
      ensures res == OK ==> p < |sizes| && dst == Value(sizes, Mem(), p) && valid == |dst|
      ensures Healthy() && p < |sizes| ==> res == OK
    {
      if p >= |sizes| {
        return NO_SUCH_PARAMETER, [], 0;
      }
      var offset := GetParamOffset(p);
      OffsetGrows(sizes, p, |sizes|);
      var r, length := driver.Read(offset, 1);
      if r < 0 {
        return MEMORY_ERROR, [], 0;
      }
      valid := length[0];
      if valid > ParamSize(p) {
        valid := ParamSize(p);
      }
      ValueOfLength(sizes, Mem(), p, valid);
      r, dst := driver.Read((offset + 1) % U16, valid);
      if r < 0 {
        return MEMORY_ERROR, dst, valid;
      }
      return OK, dst, valid;
    }

    method GetUint(p: nat) returns (v: nat)
      requires Valid()
      ensures Healthy() && p < |sizes| && sizes[p] <= 4 ==> v == LittleEndian(Value(sizes, Mem(), p))
      ensures p >= |sizes| || sizes[p] > 4 ==> v == 0
      ensures v < U32
    {
      v := 0;
      if ParamSize(p) <= 4 {
        var _, dst, _ := Get(p);
        LittleEndianBound(dst, 4);
        Powers();
        v := LittleEndian(dst);
      }
    }

    method GetInt(p: nat) returns (v: int)
      requires Valid()
      ensures Healthy() && p < |sizes| && sizes[p] <= 4 ==> v == ToInt32(LittleEndian(Value(sizes, Mem(), p)))
      ensures p >= |sizes| || sizes[p] > 4 ==> v == 0
    {
      v := 0;
      if ParamSize(p) <= 4 {
        var _, dst, _ := Get(p);
        v := ToInt32(LittleEndian(dst));
      }
    }

    /** Writes the data of a slot; behind a last slot without data the 16-bit address is 0. */
    method WriteBehind(offset: nat, data: seq<byte>) returns (res: int)
      requires offset < offset + 1 + |data| <= CAPACITY && |data| < 256
      modifies driver.chip
      ensures WriteEnds(old(Mem()), Mem(), offset + 1, data, res == 0)
      ensures Healthy() ==> res == 0 && driver.chip.bursts == old(driver.chip.bursts) + Transfers(offset + 1, data)
    {
      res := driver.Write((offset + 1) % U16, data);
      if offset + 1 == CAPACITY {
        EmptyWriteIsAnywhere(old(Mem()), Mem(), 0, offset + 1, res == 0);
      }
    }

    /** Length byte, then data; a length byte that could not be written does not stop the data. */
    method WriteSlot(offset: nat, data: seq<byte>) returns (ok: bool)
      requires offset < offset + 1 + |data| <= CAPACITY && |data| < 256
      modifies driver.chip
      ensures ok ==> Mem() == Splice(Splice(old(Mem()), offset, [|data|]), offset + 1, data)
      ensures SameOutside(old(Mem()), Mem(), offset, offset + 1 + |data|)
      ensures Healthy() ==> ok && driver.chip.bursts == old(driver.chip.bursts) + SlotTransfers(offset, data)
    {
      var length: byte := |data|;
      var r1 := driver.Write(offset, [length]);
      ghost var mid := Mem();
      var r2 := WriteBehind(offset, data);
      TwoWritesStayInRange(old(Mem()), mid, Mem(), offset, [|data|], r1 == 0, data, r2 == 0, offset + 1 + |data|);
      ok := r1 == 0 && r2 == 0;
    }

    /** Excess data is ignored. */
    method Set(p: nat, src: seq<byte>) returns (res: int)
      requires Valid() && |src| < 256
      modifies driver.chip
      ensures p >= |sizes| ==> res == NO_SUCH_PARAMETER
      ensures p < |sizes| ==> res in {OK, MEMORY_ERROR}
      ensures Performed(sizes, old(Mem()), Operation.Set(p, src, res == OK), Mem())
      ensures p < |sizes| ==> SameOutsideSlot(sizes, old(Mem()), Mem(), p)
      ensures Healthy() && p < |sizes| ==>
        res == OK && driver.chip.bursts == old(driver.chip.bursts) + SlotTransfers(Offset(sizes, p), Truncated(src, sizes[p]))
    {
      if p >= |sizes| {
        return NO_SUCH_PARAMETER;
      }
      var offset := GetParamOffset(p);
      OffsetGrows(sizes, p, |sizes|);
      var size: byte := |src|;
      if size > ParamSize(p) {
        size := ParamSize(p);
      }
      var ok := WriteSlot(offset, src[..size]);
      res := if ok then OK else MEMORY_ERROR;
    }
  }
}
