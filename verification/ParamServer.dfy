/**
 The parameter service of the application: UAVCAN v0 `param.GetSet`. A request
 names a parameter by index or by name, may carry a new value, and is answered
 with the value the store then holds.
 */
module ParamServer {
  import opened Bytes
  import opened Eeprom
  import opened Config

  const EMPTY := 0
  const INT64 := 1
  const FLOAT32 := 2
  const BOOLEAN := 3
  const STRING := 4

  const NO_PARAMETER := 65535

  datatype ParamType = Void | Int | String | Float

  const NAME_CAPACITY := 92
  const STRING_CAPACITY := 128

  /**
   A request after its 13-bit index and 3-bit union tag were decoded; `body` starts
   behind them, and `third` is the payload's third byte, whatever it is if there is none.
   */
  datatype Request = TooShort | Request(index: nat, tag: nat, body: seq<byte>, third: byte)

  predicate ThirdIsFirstOfBody(r: Request) { r.Request? && r.body != [] ==> r.third == r.body[0] }

  /** The bytes the value takes in the body, computed in 8 bits. */
  function ValueLength(r: Request): Option<nat>
    requires r.Request?
  {
    if r.tag == EMPTY then Some(0) else if r.tag == INT64 then Some(8) else if r.tag == FLOAT32 then Some(4)
    else if r.tag == BOOLEAN then Some(1) else if r.tag == STRING then Some((r.third as int + 1) % 256)
    else None
  }

  predicate Answerable(r: Request) { r.Request? && ValueLength(r).Some? && ValueLength(r).value <= |r.body| }

  predicate HasName(r: Request)
    requires Answerable(r)
  {
    ValueLength(r).value < |r.body|
  }

  /** As long as eight bits say. */
  function Name(r: Request): seq<byte>
    requires Answerable(r)
  {
    var v := ValueLength(r).value;
    r.body[v..v + (|r.body| - v) % 256]
  }

  /** The bytes handed to the store, if the request sets something. */
  function NewValue(r: Request): Option<seq<byte>>
    requires Answerable(r)
  {
    if r.tag == INT64 then Some(r.body[..8]) else if r.tag == FLOAT32 then Some(r.body[..4])
    else if r.tag == STRING && r.third < |r.body| then Some(r.body[1..1 + r.third as int]) else None
  }

  /** Without a name the index counts; a name that nobody has leads to no parameter. */
  ghost predicate Resolves(names: seq<seq<byte>>, r: Request, id: nat)
    requires Answerable(r)
  {
    var name := Name(r);
    if !HasName(r) then id == r.index
    else if name in names then id < |names| && names[id] == name && forall q | 0 <= q < id :: names[q] != name
    else id == NO_PARAMETER
  }

  /** The copy of the name, or of a string for a parameter that exists, leaves its array. */
  predicate Overruns(sizes: Sizes, r: Request, id: nat)
    requires Answerable(r)
  {
    || |Name(r)| > NAME_CAPACITY
    || (Exists(sizes, id) && r.tag == STRING && r.third > STRING_CAPACITY)
  }

  /** What the data type definition allows is copied within bounds. */
  lemma WellTypedStaysInside(sizes: Sizes, r: Request, id: nat)
    requires Answerable(r) && |r.body| - ValueLength(r).value <= 92 && (r.tag == STRING ==> r.third <= 128)
    ensures !Overruns(sizes, r, id) && Name(r) == r.body[ValueLength(r).value..]
    ensures r.tag == STRING ==> r.third < |r.body|
  {
  }

  function Exists(sizes: Sizes, id: nat): bool { id < |sizes| && sizes[id] != 0 }

  function Padded(value: seq<byte>, n: nat): (r: seq<byte>)
    ensures |r| == n
  {
    (value + Zeros(n))[..n]
  }

  /** Value, three empty values (default, maximum, minimum), name. */
  function Answer(t: ParamType, value: seq<byte>, name: seq<byte>): seq<byte>
    requires |value| < 256
  {
    match t
    case String => [4, |value|] + value + Zeros(3) + name
    case Int => [1] + Padded(value, 11) + name
    case Float => [2] + Padded(value, 7) + name
    case Void => []
  }

  function After(sizes: Sizes, mem: Memory, r: Request, id: nat): Memory
    requires SlotsFit(sizes) && Answerable(r)
  {
    if Exists(sizes, id) && NewValue(r).Some? then Stored(sizes, mem, id, Truncated(NewValue(r).value, sizes[id])) else mem
  }

  class Server {
    const store: Store
    const types: seq<ParamType>

    ghost predicate Valid() {
      store.Valid() && |types| == |store.sizes| && |types| < NO_PARAMETER &&
      forall p | 0 <= p < |types| && store.sizes[p] != 0 :: types[p] != Void
    }

    constructor (store: Store, types: seq<ParamType>)
      requires store.Valid() && |types| == |store.sizes| && |types| < NO_PARAMETER
      requires forall p | 0 <= p < |types| && store.sizes[p] != 0 :: types[p] != Void
      ensures Valid() && this.store == store && this.types == types
    {
      this.store, this.types := store, types;
    }

    /** Byte by byte, as the decoder hands them out. */
    method PayloadExtractArray(body: seq<byte>, offset0: nat, len0: nat) returns (dst: seq<byte>)
      requires offset0 + len0 <= |body|
      ensures dst == body[offset0..offset0 + len0]
    {
      dst := [];
      var offset, len: nat := offset0, len0;
      while len > 0
        invariant offset + len == offset0 + len0 && offset0 <= offset && dst == body[offset0..offset]
      {
        dst := dst + [body[offset]];
        len := len - 1;
        offset := offset + 1;
      }
    }

    /** Where a copy would leave its array the model stops: `overrun`. */
    method OnParamGetSet(r: Request) returns (answer: Option<seq<byte>>, overrun: bool, ghost id: nat)
      requires Valid() && ThirdIsFirstOfBody(r)
      modifies store.driver.chip
      ensures overrun <==> Answerable(r) && Overruns(store.sizes, r, id)
      ensures answer.Some? <==> Answerable(r) && !overrun
      ensures answer.None? ==> store.Mem() == old(store.Mem())
      ensures Answerable(r) && |Name(r)| <= NAME_CAPACITY ==> Resolves(store.names, r, id)
      ensures answer.Some? && store.Healthy() ==> store.Mem() == After(store.sizes, old(store.Mem()), r, id)
      ensures answer.Some? && id < |store.sizes| ==> SameOutsideSlot(store.sizes, old(store.Mem()), store.Mem(), id)
      ensures answer.Some? && !Exists(store.sizes, id) ==> answer == Some(Zeros(4)) && store.Mem() == old(store.Mem())
      ensures answer.Some? && Exists(store.sizes, id) && store.Healthy() ==>
        answer == Some(Answer(types[id], Value(store.sizes, store.Mem(), id), store.names[id]))
    {
      overrun, id := false, 0;
      if r.TooShort? {
        return None, overrun, id;
      }
      var valueLen: nat;
      match r.tag {
        case 0 => valueLen := 0;
        case 1 => valueLen := 8;
        case 2 => valueLen := 4;
        case 3 => valueLen := 1;
        case 4 => valueLen := (r.third as int + 1) % 256;
        case _ => return None, overrun, id;
      }
      var configId := r.index;
      var nameLen := |r.body| - valueLen;
      if nameLen < 0 {
        return None, overrun, id;
      } else if nameLen > 0 {
        if nameLen % 256 > NAME_CAPACITY {
          return None, true, id;
        }
        configId := FindByName(r, valueLen, nameLen % 256);
      }
      id := configId;
      if store.ParamSize(configId) == 0 {
        return Some(Zeros(4)), overrun, id;
      }
      if r.tag == STRING && r.third > STRING_CAPACITY {
        return None, true, id;
      }
      if r.tag != EMPTY {
        SetValue(r, configId);
      }
      answer := ReadBack(configId);
    }

    method FindByName(r: Request, valueLen: nat, nameLen: nat) returns (configId: nat)
      requires Valid() && Answerable(r) && HasName(r) && valueLen == ValueLength(r).value && nameLen == (|r.body| - valueLen) % 256
      ensures Resolves(store.names, r, configId)
    {
      var name := PayloadExtractArray(r.body, valueLen, nameLen);
      var found := store.GetIdByName(name);
      configId := if found < 0 then NO_PARAMETER else found;
    }

    method SetValue(r: Request, id: nat)
      requires Valid() && Answerable(r) && Exists(store.sizes, id)
      requires r.tag == STRING ==> r.third <= STRING_CAPACITY
      modifies store.driver.chip
      ensures SameOutsideSlot(store.sizes, old(store.Mem()), store.Mem(), id)
      ensures store.Healthy() ==> store.Mem() == After(store.sizes, old(store.Mem()), r, id)
      ensures NewValue(r).None? ==> store.Mem() == old(store.Mem())
    {
      var value: seq<byte>;
      if r.tag == INT64 {
        value := PayloadExtractArray(r.body, 0, 8);
      } else if r.tag == STRING {
        value := PayloadExtractArray(r.body, 1, r.third);
      } else if r.tag == FLOAT32 {
        value := PayloadExtractArray(r.body, 0, 4);
      } else {
        return;
      }
      assert value == NewValue(r).value;
      StoredRefinesMapUpdate(store.sizes, store.Mem(), id, Truncated(value, store.sizes[id]));
      var _ := store.Set(id, value);
    }

    method ReadBack(id: nat) returns (answer: Option<seq<byte>>)
      requires Valid() && Exists(store.sizes, id)
      ensures answer.Some?
      ensures store.Healthy() ==> answer == Some(Answer(types[id], Value(store.sizes, store.Mem(), id), store.names[id]))
    {
      var _, value, valid := store.Get(id);
      match types[id] {
        case String =>
          if |value| != valid { value := Padded(value, valid); }
          answer := Some([4, valid] + value + Zeros(3) + store.names[id]);
        case Int => answer := Some([1] + Padded(value, 11) + store.names[id]);
        case Float => answer := Some([2] + Padded(value, 7) + store.names[id]);
      }
    }
  }

  /** The request means parameter `p`, by its index or by its name. */
  ghost predicate Addresses(names: seq<seq<byte>>, r: Request, p: nat)
    requires Answerable(r) && p < |names|
  {
    (!HasName(r) && r.index == p) || (HasName(r) && Name(r) == names[p] && forall q | 0 <= q < p :: names[q] != names[p])
  }

  lemma LowWordOfInt64(body: seq<byte>, v: int)
    requires |body| == 8 && LittleEndian(body) == v % U64
    ensures LittleEndian(body[..4]) == v % U32
  {
    LowAndHighBytes(body, 4);
    LittleEndianBound(body[..4], 4);
    Powers();
    LowWord(v, LittleEndian(body[..4]), LittleEndian(body[4..]));
  }

  lemma IntAnswer(low: seq<byte>, name: seq<byte>)
    requires |low| == 4
    ensures LittleEndian(Answer(Int, low, name)[1..9]) == LittleEndian(low)
  {
    assert Padded(low, 11)[..8] == low + Zeros(4);
    assert Answer(Int, low, name)[1..9] == Padded(low, 11)[..8];
    TrailingZeros(low, 4);
  }

  lemma Int64IsStored(sizes: Sizes, mem: Memory, r: Request, p: nat)
    requires SlotsFit(sizes) && p < |sizes| && sizes[p] == 4
    requires Answerable(r) && r.tag == INT64
    ensures Values(sizes, After(sizes, mem, r, p)) == Values(sizes, mem)[p := r.body[..4]]
    ensures Value(sizes, After(sizes, mem, r, p), p) == r.body[..4]
  {
    var low := r.body[..4];
    var after := Stored(sizes, mem, p, low);
    assert Truncated(r.body[..8], 4) == low;
    StoredRefinesMapUpdate(sizes, mem, p, low);
    assert Value(sizes, after, p) == Values(sizes, after)[p];
  }

  /**
   Setting a four-byte integer parameter to the int64 `v`: the answer carries v
   modulo 2^32, readers get `v` if it fits an int32, and nothing else changes.
   */
  lemma SetIntRoundTrip(sizes: Sizes, names: seq<seq<byte>>, mem: Memory, r: Request, p: nat, id: nat, v: int)
    requires SlotsFit(sizes) && |names| == |sizes| && p < |sizes| && sizes[p] == 4
    requires Answerable(r) && r.tag == INT64 && LittleEndian(r.body[..8]) == v % U64
    requires Addresses(names, r, p) && Resolves(names, r, id)
    ensures id == p
    ensures var after := After(sizes, mem, r, id);
      var value := Value(sizes, after, p);
      && Values(sizes, after) == Values(sizes, mem)[p := value]
      && LittleEndian(value) == v % U32
      && (-0x8000_0000 <= v < 0x8000_0000 ==> ToInt32(LittleEndian(value)) == v)
      && LittleEndian(Answer(Int, value, names[p])[1..9]) == v % U32
  {
    Int64IsStored(sizes, mem, r, p);
    assert r.body[..8][..4] == r.body[..4];
    LowWordOfInt64(r.body[..8], v);
    IntAnswer(r.body[..4], names[p]);
    if -0x8000_0000 <= v < 0x8000_0000 { ToInt32OfWord(v); }
  }

  lemma {:induction false} TrailingZeros(s: seq<byte>, n: nat)
    ensures LittleEndian(s + Zeros(n)) == LittleEndian(s)
    decreases |s| + n
  {
    if s == [] {
      if n > 0 {
        assert (s + Zeros(n))[1..] == [] + Zeros(n - 1);
        TrailingZeros([], n - 1);
      }
    } else {
      assert (s + Zeros(n))[1..] == s[1..] + Zeros(n);
      TrailingZeros(s[1..], n);
    }
  }

  // ------------------------------------------------------------ what a peer sees

  /** Index and name of a request mean parameter `p`: the name if there is one, else the index. */
  ghost predicate Means(names: seq<seq<byte>>, index: nat, name: seq<byte>, p: nat) {
    p < |names| && |name| <= 92 &&
    if name == [] then index == p else names[p] == name && forall q | 0 <= q < p :: names[q] != name
  }

  lemma MeaningResolves(names: seq<seq<byte>>, r: Request, name: seq<byte>, p: nat, id: nat)
    requires Answerable(r) && Name(r) == name && (HasName(r) <==> name != []) && Means(names, r.index, name, p) && Resolves(names, r, id)
    ensures id == p
  {
  }

  lemma StringAnswer(value: seq<byte>, name: seq<byte>)
    requires |value| < 256
    ensures Answer(String, value, name) == [4, |value|] + value + [0, 0, 0] + name
  {
    assert Zeros(3) == [0, 0, 0];
  }

  lemma IntAnswerBytes(value: seq<byte>, name: seq<byte>)
    requires |value| <= 8
    ensures Answer(Int, value, name) == [1] + (value + Zeros(8 - |value|)) + [0, 0, 0] + name
  {
    assert Padded(value, 11) == (value + Zeros(8 - |value|)) + [0, 0, 0];
  }

  lemma FloatAnswer(value: seq<byte>, name: seq<byte>)
    requires |value| <= 4
    ensures Answer(Float, value, name) == [2] + (value + Zeros(4 - |value|)) + [0, 0, 0] + name
  {
    assert Padded(value, 7) == (value + Zeros(4 - |value|)) + [0, 0, 0];
  }

  /** After a set that succeeded, the map of values has `data`, cut to the parameter's size. */
  lemma ValueIsSet(sizes: Sizes, mem: Memory, p: nat, data: seq<byte>)
    requires SlotsFit(sizes) && p < |sizes|
    ensures var v := data[..Min(|data|, sizes[p])];
      Values(sizes, Stored(sizes, mem, p, v)) == Values(sizes, mem)[p := v] && Value(sizes, Stored(sizes, mem, p, v), p) == v
  {
    var v := data[..Min(|data|, sizes[p])];
    StoredRefinesMapUpdate(sizes, mem, p, v);
    var after := Stored(sizes, mem, p, v);
    assert Values(sizes, after)[p] == Value(sizes, after, p);
  }

  /** One exchange over a working bus that means parameter `p` and overruns nothing. */
  method Exchange(server: Server, r: Request, ghost name: seq<byte>, ghost p: nat) returns (answer: Option<seq<byte>>)
    requires server.Valid() && server.store.Healthy() && ThirdIsFirstOfBody(r)
    requires Answerable(r) && Name(r) == name && (HasName(r) <==> name != []) && (r.tag == STRING ==> r.third <= 128)
    requires Means(server.store.names, r.index, name, p) && server.store.sizes[p] != 0
    modifies server.store.driver.chip
    ensures server.store.Mem() == After(server.store.sizes, old(server.store.Mem()), r, p)
    ensures answer == Some(Answer(server.types[p], Value(server.store.sizes, server.store.Mem(), p), server.store.names[p]))
  {
    var reply, _, id := server.OnParamGetSet(r);
    MeaningResolves(server.store.names, r, name, p, id);
    answer := reply;
  }

  /** The exchange of a request that sets `data`. */
  lemma DataIsSet(sizes: Sizes, mem: Memory, r: Request, p: nat, data: seq<byte>)
    requires SlotsFit(sizes) && Exists(sizes, p) && Answerable(r) && NewValue(r) == Some(data)
    ensures var v := data[..Min(|data|, sizes[p])];
      Values(sizes, After(sizes, mem, r, p)) == Values(sizes, mem)[p := v] && Value(sizes, After(sizes, mem, r, p), p) == v
  {
    ValueIsSet(sizes, mem, p, data);
  }

  /** Setting a string parameter, over a working bus: length byte, string, name. */
  method SetString(server: Server, index: nat, s: seq<byte>, name: seq<byte>, ghost p: nat) returns (answer: Option<seq<byte>>)
    requires server.Valid() && server.store.Healthy() && |s| <= 128
    requires Means(server.store.names, index, name, p) && server.store.sizes[p] != 0 && server.types[p] == String
    modifies server.store.driver.chip
    ensures var v := s[..Min(|s|, server.store.sizes[p])];
      && Values(server.store.sizes, server.store.Mem()) == Values(server.store.sizes, old(server.store.Mem()))[p := v]
      && answer == Some([4, |v|] + v + [0, 0, 0] + server.store.names[p])
  {
    var r := Request(index, STRING, [|s|] + s + name, |s|);
    StringRequest(r, s, name);
    DataIsSet(server.store.sizes, server.store.Mem(), r, p, s);
    StringAnswer(s[..Min(|s|, server.store.sizes[p])], server.store.names[p]);
    answer := Exchange(server, r, name, p);
  }

  lemma StringRequest(r: Request, s: seq<byte>, name: seq<byte>)
    requires |s| <= 128 && |name| <= 92 && r.Request? && r == Request(r.index, STRING, [|s|] + s + name, |s|)
    ensures Answerable(r) && Name(r) == name && (HasName(r) <==> name != []) && NewValue(r) == Some(s)
  {
    assert r.body[1..1 + |s|] == s && r.body[1 + |s|..] == name;
  }

  /** Setting an integer parameter of up to eight bytes to the 64-bit number with bytes `v`. */
  method SetInteger(server: Server, index: nat, v: seq<byte>, name: seq<byte>, ghost p: nat) returns (answer: Option<seq<byte>>)
    requires server.Valid() && server.store.Healthy() && |v| == 8
    requires Means(server.store.names, index, name, p) && 0 < server.store.sizes[p] <= 8 && server.types[p] == Int
    modifies server.store.driver.chip
    ensures var size := server.store.sizes[p];
      && Values(server.store.sizes, server.store.Mem()) == Values(server.store.sizes, old(server.store.Mem()))[p := v[..size]]
      && answer == Some([1] + (v[..size] + Zeros(8 - size)) + [0, 0, 0] + server.store.names[p])
  {
    var r := Request(index, INT64, v + name, v[0]);
    NumberRequest(r, v, name);
    DataIsSet(server.store.sizes, server.store.Mem(), r, p, v);
    IntAnswerBytes(v[..server.store.sizes[p]], server.store.names[p]);
    answer := Exchange(server, r, name, p);
  }

  /** Setting a float parameter to the four bytes `v`. */
  method SetFloat(server: Server, index: nat, v: seq<byte>, name: seq<byte>, ghost p: nat) returns (answer: Option<seq<byte>>)
    requires server.Valid() && server.store.Healthy() && |v| == 4
    requires Means(server.store.names, index, name, p) && server.store.sizes[p] == 4 && server.types[p] == Float
    modifies server.store.driver.chip
    ensures Values(server.store.sizes, server.store.Mem()) == Values(server.store.sizes, old(server.store.Mem()))[p := v]
    ensures answer == Some([2] + v + [0, 0, 0] + server.store.names[p])
  {
    var r := Request(index, FLOAT32, v + name, v[0]);
    NumberRequest(r, v, name);
    DataIsSet(server.store.sizes, server.store.Mem(), r, p, v);
    assert v[..4] == v && v + Zeros(0) == v;
    FloatAnswer(v, server.store.names[p]);
    answer := Exchange(server, r, name, p);
  }

  lemma NumberRequest(r: Request, v: seq<byte>, name: seq<byte>)
    requires |name| <= 92 && r.Request? && r == Request(r.index, r.tag, v + name, r.third)
    requires (r.tag == INT64 && |v| == 8) || (r.tag == FLOAT32 && |v| == 4)
    ensures Answerable(r) && Name(r) == name && (HasName(r) <==> name != []) && NewValue(r) == Some(v)
  {
    assert r.body[..|v|] == v && r.body[|v|..] == name;
  }

  /** The answer's bytes for each type, of values that fit it. */
  ghost predicate AnswersWith(t: ParamType, v: seq<byte>, name: seq<byte>, answer: seq<byte>) {
    && (t == String && |v| < 256 ==> answer == [4, |v|] + v + [0, 0, 0] + name)
    && (t == Int && |v| <= 8 ==> answer == [1] + (v + Zeros(8 - |v|)) + [0, 0, 0] + name)
    && (t == Float && |v| <= 4 ==> answer == [2] + (v + Zeros(4 - |v|)) + [0, 0, 0] + name)
  }

  lemma AnswerIsAsTyped(t: ParamType, v: seq<byte>, name: seq<byte>)
    requires |v| < 256
    ensures AnswersWith(t, v, name, Answer(t, v, name))
  {
    StringAnswer(v, name);
    if |v| <= 8 { IntAnswerBytes(v, name); }
    if |v| <= 4 { FloatAnswer(v, name); }
  }

  /** Asking, with the empty value or with a boolean, which no parameter takes: nothing changes, and the value comes back. */
  method Ask(server: Server, index: nat, boolean: Option<byte>, name: seq<byte>, ghost p: nat) returns (answer: Option<seq<byte>>)
    requires server.Valid() && server.store.Healthy()
    requires Means(server.store.names, index, name, p) && server.store.sizes[p] != 0
    modifies server.store.driver.chip
    ensures server.store.Mem() == old(server.store.Mem())
    ensures answer.Some? && AnswersWith(server.types[p], Value(server.store.sizes, old(server.store.Mem()), p), server.store.names[p], answer.value)
  {
    var r := Question(index, boolean, name);
    AnswerIsAsTyped(server.types[p], Value(server.store.sizes, server.store.Mem(), p), server.store.names[p]);
    answer := Exchange(server, r, name, p);
  }

  function Question(index: nat, boolean: Option<byte>, name: seq<byte>): (r: Request)
    requires |name| <= 92
    ensures r.Request? && r.index == index && r.tag != STRING && ThirdIsFirstOfBody(r)
    ensures Answerable(r) && Name(r) == name && (HasName(r) <==> name != []) && NewValue(r) == None
  {
    match boolean
    case Some(b) =>
      assert ([b] + name)[1..] == name;
      Request(index, BOOLEAN, [b] + name, b)
    case None =>
      assert name[0..] == name;
      Request(index, EMPTY, name, if name == [] then 0 else name[0])
  }
}
