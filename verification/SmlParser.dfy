/**
 The meter reader of the SML node. A state machine takes one byte of the serial
 stream at a time, finds list entries by their first four bytes, skips over the
 elements it does not need and broadcasts the value as a 64-bit number.
 */
module SmlParser {
  import opened Bytes

  const PREFIX: seq<byte> := [0x77, 0x07, 0x01, 0x00]

  datatype Phase = Search | Obis | Status | ValTime | Unit | Scaler | Value

  /** The element after the one a phase reads; the value's successor is not used. */
  function Next(p: Phase): Phase {
    match p
    case Search => Obis
    case Obis => Status
    case Status => ValTime
    case ValTime => Unit
    case Unit => Scaler
    case Scaler => Value
    case Value => Value
  }

  /** `length` is the low nibble of the element's first byte, which counts that byte. */
  datatype Parser = Parser(phase: Phase, substate: nat, length: nat, signed: bool, unit: byte,
                           obis: seq<byte>, value: seq<byte>, sent: seq<seq<byte>>, faulted: bool)

  /** Every index into the two buffers and the prefix is in bounds. */
  predicate WellFormed(p: Parser) {
    && |p.obis| == 4 && |p.value| == 8 && p.length < 16
    && match p.phase
       case Search => p.substate < 4
       case Obis => p.substate < 4
       case Value => p.substate == 0 || (p.substate < p.length && 2 <= p.length <= 9)
       case _ => p.substate == 0 || p.substate < p.length
  }

  const INITIAL := Parser(Search, 0, 0, false, 0, Zeros(4), Zeros(8), [], false)

  predicate BadValue(b: byte) { (b / 16 != 5 && b / 16 != 6) || b % 16 > 9 }

  function Fill(value: seq<byte>, from: nat, ext: byte): (r: seq<byte>)
    requires from <= |value|
    ensures |r| == |value|
    ensures forall i | 0 <= i < |r| :: r[i] == if i < from then value[i] else ext
  {
    value[..from] + seq(|value| - from, _ => ext)
  }

  function Message(obis: seq<byte>, unit: byte, value: seq<byte>): seq<byte>
    requires |obis| >= 3
  {
    [obis[0], obis[1], obis[2], unit] + value
  }

  function SearchStep(p: Parser, b: byte): (r: Parser)
    requires WellFormed(p) && p.phase == Search
    ensures WellFormed(r)
  {
    if b != PREFIX[p.substate] then p.(substate := 0)
    else if p.substate == 3 then p.(phase := Obis, substate := 0)
    else p.(substate := p.substate + 1)
  }

  function ObisStep(p: Parser, b: byte): (r: Parser)
    requires WellFormed(p) && p.phase == Obis
    ensures WellFormed(r)
  {
    var q := p.(obis := p.obis[p.substate := b]);
    if p.substate == 3 then q.(phase := Status, substate := 0) else q.(substate := p.substate + 1)
  }

  function SkipStep(p: Parser, b: byte): (r: Parser)
    requires WellFormed(p) && p.phase != Search && p.phase != Obis && p.phase != Value
    ensures WellFormed(r)
  {
    var length := if p.substate == 0 then b % 16 else p.length;
    if p.substate + 1 < length then p.(length := length, substate := p.substate + 1)
    else p.(length := length, phase := Next(p.phase), substate := 0, unit := if p.phase == Unit then b else p.unit)
  }

  /** The first byte of the value: a length below two makes the code index outside the buffer. */
  function ValueStartStep(p: Parser, b: byte): (r: Parser)
    requires WellFormed(p) && p.phase == Value
    ensures WellFormed(r)
  {
    var q := p.(length := b % 16, signed := b / 16 == 5);
    if b % 16 < 2 then q.(phase := Search, substate := 0, faulted := true)
    else q.(phase := if BadValue(b) then Search else Value, substate := 1)
  }

  /** A later byte of the value; the last one completes and sends the message. */
  function ValueByteStep(p: Parser, b: byte): (r: Parser)
    requires WellFormed(p) && p.phase == Value && p.substate > 0
    ensures WellFormed(r)
  {
    var v := p.value[p.length - 1 - p.substate := b];
    if p.substate + 1 < p.length then p.(value := v, substate := p.substate + 1)
    else
      var w := Fill(v, p.length - 1, if v[p.length - 2] >= 0x80 && p.signed then 0xFF else 0);
      p.(value := w, length := 9, phase := Search, substate := 0, sent := p.sent + [Message(p.obis, p.unit, w)])
  }

  function Step(p: Parser, b: byte): (r: Parser)
    requires WellFormed(p)
    ensures WellFormed(r)
  {
    if p.faulted then p
    else match p.phase
      case Search => SearchStep(p, b)
      case Obis => ObisStep(p, b)
      case Value => if p.substate == 0 then ValueStartStep(p, b) else ValueByteStep(p, b)
      case _ => SkipStep(p, b)
  }

  // ------------------------------------------------------------------- reader

  class Reader {
    var state: Phase
    var substate: nat
    const value: array<byte>
    const obis: array<byte>
    var stateBuf: nat
    var sign: bool
    var unit: byte
    /** Messages broadcast so far. */
    var sent: seq<seq<byte>>
    /** Set where the code would index outside `value`. */
    var faulted: bool

    ghost predicate Valid() reads this, value, obis {
      value.Length == 8 && obis.Length == 4 && value != obis && WellFormed(State())
    }

    ghost function State(): Parser reads this, value, obis {
      Parser(state, substate, stateBuf, sign, unit, obis[..], value[..], sent, faulted)
    }

    constructor ()
      ensures Valid() && State() == INITIAL
    {
      state, substate, stateBuf, sign, unit, sent, faulted := Search, 0, 0, false, 0, [], false;
      value, obis := new byte[8](_ => 0), new byte[4](_ => 0);
      new;
      assert value[..] == Zeros(8) && obis[..] == Zeros(4);
    }

    method BroadcastMeter()
      requires Valid()
      modifies this`sent
      ensures sent == old(sent) + [Message(obis[..], unit, value[..])]
      ensures var m := sent[|sent| - 1];
        |m| == 12 && m[0] == obis[0] && m[1] == obis[1] && m[2] == obis[2] && m[3] == unit && m[4..] == value[..]
    {
      sent := sent + [[obis[0], obis[1], obis[2], unit] + value[..]];
    }

    /** The TL byte of the value. */
    method StartValue(msg: byte)
      requires Valid() && state == Value && substate == 0
      modifies this`state, this`substate, this`stateBuf, this`sign, this`faulted
      ensures Valid() && State() == ValueStartStep(old(State()), msg)
    {
      stateBuf := msg % 16;
      sign := msg / 16 == 5;
      if (msg / 16 != 6 && msg / 16 != 5) || stateBuf > 9 {
        state := Search;
        substate := 0;
      }
      substate := substate + 1;
      if substate >= stateBuf {
        faulted := true;
        state, substate := Search, 0;
      }
    }

    /** The sign or zero extension behind the bytes received. */
    method Extend()
      requires Valid() && 2 <= stateBuf <= 9 && substate == 0 && state == Search
      modifies this`stateBuf, value
      ensures value[..] == old(Fill(value[..], stateBuf - 1, if value[stateBuf - 2] >= 0x80 && sign then 0xFF else 0))
      ensures stateBuf == 9
    {
      var ext: byte := if value[stateBuf - 2] >= 0x80 && sign then 0xFF else 0;
      while stateBuf < 9
        invariant old(stateBuf) <= stateBuf <= 9
        invariant forall i | 0 <= i < 8 :: value[i] == if old(stateBuf) - 1 <= i < stateBuf - 1 then ext else old(value[i])
      {
        value[stateBuf - 1] := ext;
        stateBuf := stateBuf + 1;
      }
    }

    method TakeValueByte(msg: byte)
      requires Valid() && state == Value && substate > 0
      modifies this`state, this`substate, this`stateBuf, this`sent, value
      ensures Valid() && State() == ValueByteStep(old(State()), msg)
    {
      value[stateBuf - 1 - substate] := msg;
      substate := substate + 1;
      if substate >= stateBuf {
        state := Search;
        substate := 0;
        Extend();
        BroadcastMeter();
      }
    }

    method Skip(msg: byte)
      requires Valid() && state != Search && state != Obis && state != Value
      modifies this`state, this`substate, this`stateBuf, this`unit
      ensures Valid() && State() == SkipStep(old(State()), msg)
    {
      if substate == 0 {
        stateBuf := msg % 16;
      }
      substate := substate + 1;
      if substate >= stateBuf {
        if state == Unit {
          unit := msg;
        }
        state := Next(state);
        substate := 0;
      }
    }

    /** One turn of the receive loop. */
    method Take(msg: byte)
      requires Valid()
      modifies this, value, obis
      ensures Valid() && State() == Step(old(State()), msg)
    {
      if faulted {
        return;
      }
      match state {
        case Search =>
          if msg == PREFIX[substate] {
            substate := substate + 1;
          } else {
            substate := 0;
          }
          if substate == 4 {
            state := Obis;
            substate := 0;
          }
        case Obis =>
          obis[substate] := msg;
          substate := substate + 1;
          if substate == 4 {
            state := Status;
            substate := 0;
          }
        case Value =>
          if substate == 0 {
            StartValue(msg);
          } else {
            TakeValueByte(msg);
          }
        case _ =>
          Skip(msg);
      }
    }

    /** The tick: everything the port has received. */
    method FastTick(port: seq<byte>)
      requires Valid()
      modifies this, value, obis
      ensures Valid() && State() == Feed(old(State()), port)
    {
      var i := 0;
      FeedConcat(State(), [], port);
      while i < |port|
        invariant 0 <= i <= |port| && Valid()
        invariant State() == Feed(old(State()), port[..i])
      {
        Take(port[i]);
        FeedOneMore(old(State()), port, i);
        i := i + 1;
      }
      assert port[..i] == port;
    }
  }

  // ------------------------------------------------------------------ streams

  function Feed(p: Parser, stream: seq<byte>): (r: Parser)
    requires WellFormed(p)
    ensures WellFormed(r)
    decreases |stream|
  {
    if stream == [] then p else Feed(Step(p, stream[0]), stream[1..])
  }

  /** However the stream is split over the ticks, the outcome is the same. */
  lemma {:induction false} FeedConcat(p: Parser, a: seq<byte>, b: seq<byte>)
    requires WellFormed(p)
    ensures Feed(p, a + b) == Feed(Feed(p, a), b)
    decreases |a|
  {
    if a == [] {
      assert a + b == b;
    } else {
      assert (a + b)[1..] == a[1..] + b;
      FeedConcat(Step(p, a[0]), a[1..], b);
    }
  }

  lemma FeedOneMore(p: Parser, stream: seq<byte>, i: nat)
    requires WellFormed(p) && i < |stream|
    ensures Feed(p, stream[..i + 1]) == Step(Feed(p, stream[..i]), stream[i])
  {
    assert stream[..i + 1] == stream[..i] + [stream[i]];
    FeedConcat(p, stream[..i], [stream[i]]);
    var q := Feed(p, stream[..i]);
    assert Feed(q, [stream[i]]) == Feed(Step(q, stream[i]), []);
  }

  function FeedAll(p: Parser, ticks: seq<seq<byte>>): (r: Parser)
    requires WellFormed(p)
    ensures WellFormed(r)
    decreases |ticks|
  {
    if ticks == [] then p else FeedAll(Feed(p, ticks[0]), ticks[1..])
  }

  function Joined(ticks: seq<seq<byte>>): seq<byte> {
    if ticks == [] then [] else ticks[0] + Joined(ticks[1..])
  }

  lemma {:induction false} TicksDoNotMatter(p: Parser, ticks: seq<seq<byte>>)
    requires WellFormed(p)
    ensures FeedAll(p, ticks) == Feed(p, Joined(ticks))
    decreases |ticks|
  {
    if ticks != [] {
      TicksDoNotMatter(Feed(p, ticks[0]), ticks[1..]);
      FeedConcat(p, ticks[0], Joined(ticks[1..]));
    }
  }

  /** The code leaves its buffer exactly when a value's first byte has a length below two. */
  predicate FaultAt(p: Parser, stream: seq<byte>, i: nat)
    requires WellFormed(p) && i < |stream|
  {
    var q := Feed(p, stream[..i]);
    !q.faulted && q.phase == Value && q.substate == 0 && stream[i] % 16 < 2
  }

  lemma {:induction false} FaultsOnlyAtShortValue(p: Parser, stream: seq<byte>, n: nat)
    requires WellFormed(p) && !p.faulted && n <= |stream|
    ensures Feed(p, stream[..n]).faulted <==> exists i | 0 <= i < n :: FaultAt(p, stream, i)
  {
    if n == 0 {
      assert stream[..0] == [];
    } else {
      FaultsOnlyAtShortValue(p, stream, n - 1);
      FaultsNext(p, stream, n - 1);
    }
  }

  lemma FaultsNext(p: Parser, stream: seq<byte>, i: nat)
    requires WellFormed(p) && i < |stream|
    ensures Feed(p, stream[..i + 1]).faulted <==> Feed(p, stream[..i]).faulted || FaultAt(p, stream, i)
  {
    FeedOneMore(p, stream, i);
    StepFaults(Feed(p, stream[..i]), stream[i]);
  }

  lemma StepFaults(p: Parser, b: byte)
    requires WellFormed(p)
    ensures Step(p, b).faulted <==> p.faulted || (p.phase == Value && p.substate == 0 && b % 16 < 2)
  {
  }

  // ---------------------------------------------------------------- the grammar

  /** An element the reader skips: as long as its first byte says, but one byte at least. */
  predicate Element(e: seq<byte>) { |e| > 0 && (|e| == e[0] % 16 || (|e| == 1 && e[0] % 16 == 0)) }

  /** Bytes in which every beginning of an entry breaks off before its fourth byte. */
  ghost predicate Quiet(s: seq<byte>) {
    || s == []
    || (s[0] != 0x77 && Quiet(s[1..]))
    || (|s| >= 2 && s[0] == 0x77 && s[1] != 0x07 && Quiet(s[2..]))
    || (|s| >= 3 && s[0] == 0x77 && s[1] == 0x07 && s[2] != 0x01 && Quiet(s[3..]))
    || (|s| >= 4 && s[..3] == PREFIX[..3] && s[3] != 0x00 && Quiet(s[4..]))
  }

  lemma {:induction false} NoStartByteIsQuiet(s: seq<byte>)
    requires 0x77 !in s
    ensures Quiet(s)
  {
    if s != [] {
      assert s[0] in s;
      NoStartByteIsQuiet(s[1..]);
    }
  }

  /** What precedes the value of a list entry. */
  datatype Head = Head(obis: seq<byte>, status: seq<byte>, valTime: seq<byte>, unit: seq<byte>, scaler: seq<byte>)

  predicate HeadFits(h: Head) {
    |h.obis| == 4 && Element(h.status) && Element(h.valTime) && Element(h.unit) && Element(h.scaler)
  }

  function HeadBytes(h: Head): seq<byte> { PREFIX + (h.obis + (h.status + (h.valTime + (h.unit + h.scaler)))) }

  datatype Item =
    /** Bytes between entries. */
    | Noise(bytes: seq<byte>)
    /** An entry with an integer value, most significant byte first. */
    | Record(head: Head, signed: bool, raw: seq<byte>)
    /** An entry whose value is no integer of up to eight bytes; `gap` is what follows its first byte. */
    | Other(head: Head, tl: byte, gap: seq<byte>)

  ghost predicate Fits(x: Item) {
    match x
    case Noise(bytes) => Quiet(bytes)
    case Record(head, _, raw) => HeadFits(head) && 1 <= |raw| <= 8
    case Other(head, tl, gap) =>
      // the discard leaves the search as if it had just seen a 0x77
      HeadFits(head) && BadValue(tl) && tl % 16 >= 2 && Quiet([0x77] + gap)
  }

  function ValueStart(signed: bool, n: nat): byte
    requires n <= 8
  {
    (if signed then 0x50 else 0x60) + n + 1
  }

  ghost function ItemBytes(x: Item): seq<byte>
    requires Fits(x)
  {
    match x
    case Noise(bytes) => bytes
    case Record(head, signed, raw) => HeadBytes(head) + ([ValueStart(signed, |raw|)] + raw)
    case Other(head, tl, gap) => HeadBytes(head) + ([tl] + gap)
  }

  function BigEndian(raw: seq<byte>): nat {
    if raw == [] then 0 else 256 * BigEndian(raw[..|raw| - 1]) + raw[|raw| - 1]
  }

  /** The integer an entry carries. */
  function Number(raw: seq<byte>, signed: bool): int
    requires |raw| > 0
  {
    Extended(raw, signed && raw[0] >= 0x80)
  }

  /** The low `n` bytes of the two's complement form, least significant first. */
  function TwosComplement(v: int, n: nat): (r: seq<byte>)
    ensures |r| == n
    decreases n
  {
    if n == 0 then [] else [v % 256] + TwosComplement(v / 256, n - 1)
  }

  /** What an item makes the node broadcast. */
  ghost function Messages(x: Item): seq<seq<byte>>
    requires Fits(x)
  {
    match x
    case Noise(_) => []
    case Record(head, signed, raw) =>
      [Message(head.obis, head.unit[|head.unit| - 1], TwosComplement(Number(raw, signed), 8))]
    case Other(_, _, _) => []
  }

  // -------------------------------------------------------------------- numbers

  lemma {:induction false} TwosComplementDenotes(v: int, n: nat)
    requires -(Pow256(n) as int) <= v < Pow256(n)
    ensures LittleEndian(TwosComplement(v, n)) == if v >= 0 then v else v + Pow256(n)
    decreases n
  {
    if n > 0 {
      assert TwosComplement(v, n)[1..] == TwosComplement(v / 256, n - 1);
      TwosComplementDenotes(v / 256, n - 1);
    }
  }

  /** Most significant byte first, turned around. */
  function Reversed(raw: seq<byte>): (r: seq<byte>)
    ensures |r| == |raw| && forall i | 0 <= i < |raw| :: r[i] == raw[|raw| - 1 - i]
  {
    seq(|raw|, i requires 0 <= i < |raw| => raw[|raw| - 1 - i])
  }

  /** The number `raw` denotes when a negative one has ones in all places above. */
  function Extended(raw: seq<byte>, negative: bool): int {
    BigEndian(raw) - if negative then Pow256(|raw|) else 0
  }

  lemma ExtendedByLowByte(raw: seq<byte>, negative: bool)
    requires raw != []
    ensures Extended(raw, negative) == 256 * Extended(raw[..|raw| - 1], negative) + raw[|raw| - 1]
  {
  }

  function Ones(n: nat, negative: bool): seq<byte> { seq(n, _ => if negative then 0xFF else 0) }

  lemma {:induction false} ExtensionIsTwosComplement(raw: seq<byte>, negative: bool, n: nat)
    requires |raw| <= n
    ensures TwosComplement(Extended(raw, negative), n) == Reversed(raw) + Ones(n - |raw|, negative)
    decreases n
  {
    if raw != [] {
      ExtensionIsTwosComplement(raw[..|raw| - 1], negative, n - 1);
      ExtendedByLowByte(raw, negative);
      LowByteFirst(Extended(raw[..|raw| - 1], negative), raw[|raw| - 1], n);
      ReversedFromLast(raw, Ones(n - |raw|, negative));
    } else {
      NothingIsOnlyOnes(negative, n);
    }
  }

  lemma ReversedFromLast(raw: seq<byte>, rest: seq<byte>)
    requires raw != []
    ensures Reversed(raw) + rest == [raw[|raw| - 1]] + (Reversed(raw[..|raw| - 1]) + rest)
  {
  }

  lemma NothingIsOnlyOnes(negative: bool, n: nat)
    ensures TwosComplement(Extended([], negative), n) == Reversed([]) + Ones(n, negative)
  {
    OnlyOnes(negative, n);
    assert Extended([], negative) == if negative then -1 else 0;
  }

  lemma {:induction false} OnlyOnes(negative: bool, n: nat)
    ensures TwosComplement(if negative then -1 else 0, n) == Ones(n, negative)
    decreases n
  {
    if n > 0 {
      OnlyOnes(negative, n - 1);
      LowByteFirst(if negative then -1 else 0, if negative then 0xFF else 0, n);
      assert Ones(n, negative) == [if negative then 0xFF else 0] + Ones(n - 1, negative);
    }
  }

  lemma LowByteFirst(v: int, low: byte, n: nat)
    requires n > 0
    ensures TwosComplement(256 * v + low, n) == [low] + TwosComplement(v, n - 1)
  {
    LowByte(256 * v + low, v, low as int);
  }

  lemma LowByte(w: int, v: int, low: int)
    requires w == 256 * v + low && 0 <= low < 256
    ensures w % 256 == low && w / 256 == v
  {
  }

  // ---------------------------------------------------------------- one element

  predicate Idle(p: Parser) { WellFormed(p) && p.phase == Search && p.substate == 0 && !p.faulted }

  /** The parser waits for the first byte of phase `x`, having sent nothing new since `p`. */
  predicate AtStart(p: Parser, x: Phase, q: Parser) {
    WellFormed(q) && q.phase == x && q.substate == 0 && !q.faulted && q.sent == p.sent
  }

  lemma FeedFirst(p: Parser, b: byte, rest: seq<byte>)
    requires WellFormed(p)
    ensures Feed(p, [b] + rest) == Feed(Step(p, b), rest)
  {
    assert ([b] + rest)[1..] == rest;
  }

  lemma Feed4(p: Parser, s: seq<byte>)
    requires WellFormed(p) && |s| == 4
    ensures Feed(p, s) == Step(Step(Step(Step(p, s[0]), s[1]), s[2]), s[3])
  {
    assert s[..0] == [] && s[..4] == s;
    FeedOneMore(p, s, 0);
    FeedOneMore(p, s, 1);
    FeedOneMore(p, s, 2);
    FeedOneMore(p, s, 3);
  }

  /** The four bytes are found exactly by a search that has nothing half matched. */
  lemma PrefixFoundIffFresh(p: Parser)
    requires WellFormed(p) && p.phase == Search && !p.faulted
    ensures Feed(p, PREFIX).phase == Obis <==> p.substate == 0
    ensures p.substate == 0 ==> Feed(p, PREFIX) == p.(phase := Obis)
    ensures p.substate != 0 ==> Feed(p, PREFIX) == p.(substate := 0)
  {
    Feed4(p, PREFIX);
  }

  lemma FeedObis(p: Parser, obis: seq<byte>)
    requires AtStart(p, Obis, p) && |obis| == 4
    ensures Feed(p, obis) == p.(phase := Status, obis := obis)
  {
    Feed4(p, obis);
  }

  lemma {:induction false} FeedWithinElement(p: Parser, e: seq<byte>, k: nat)
    requires WellFormed(p) && p.substate == 0 && !p.faulted
    requires p.phase in {Status, ValTime, Unit, Scaler}
    requires Element(e) && 0 < k < |e|
    ensures Feed(p, e[..k]) == p.(substate := k, length := |e|)
  {
    FeedOneMore(p, e, k - 1);
    if k > 1 { FeedWithinElement(p, e, k - 1); }
  }

  lemma FeedElement(p: Parser, e: seq<byte>)
    requires WellFormed(p) && p.substate == 0 && !p.faulted
    requires p.phase in {Status, ValTime, Unit, Scaler} && Element(e)
    ensures Feed(p, e) == p.(phase := Next(p.phase), length := e[0] % 16, unit := if p.phase == Unit then e[|e| - 1] else p.unit)
  {
    assert e[..|e|] == e;
    FeedOneMore(p, e, |e| - 1);
    if |e| > 1 { FeedWithinElement(p, e, |e| - 1); }
  }

  lemma FeedHead(p: Parser, h: Head)
    requires Idle(p) && HeadFits(h)
    ensures var q := Feed(p, HeadBytes(h));
      AtStart(p, Value, q) && q.obis == h.obis && q.unit == h.unit[|h.unit| - 1]
  {
    PrefixFoundIffFresh(p);
    FeedConcat(p, PREFIX, h.obis + (h.status + (h.valTime + (h.unit + h.scaler))));
    var p1 := Feed(p, PREFIX);
    FeedConcat(p1, h.obis, h.status + (h.valTime + (h.unit + h.scaler)));
    FeedObis(p1, h.obis);
    var p2 := Feed(p1, h.obis);
    FeedConcat(p2, h.status, h.valTime + (h.unit + h.scaler));
    FeedElement(p2, h.status);
    var p3 := Feed(p2, h.status);
    FeedConcat(p3, h.valTime, h.unit + h.scaler);
    FeedElement(p3, h.valTime);
    var p4 := Feed(p3, h.valTime);
    FeedConcat(p4, h.unit, h.scaler);
    FeedElement(p4, h.unit);
    FeedElement(Feed(p4, h.unit), h.scaler);
  }

  /** `raw[..k]` lies at the high end of the value's bytes, turned around. */
  predicate Placed(raw: seq<byte>, k: nat, value: seq<byte>)
    requires k <= |raw| <= |value|
  {
    forall j | 0 <= j < k :: value[|raw| - 1 - j] == raw[j]
  }

  lemma {:induction false} FeedWithinValue(p: Parser, raw: seq<byte>, k: nat)
    requires WellFormed(p) && p.phase == Value && p.substate == 1 && !p.faulted
    requires p.length == |raw| + 1 && k < |raw|
    ensures var q := Feed(p, raw[..k]);
      q == p.(substate := k + 1, value := q.value) && |q.value| == 8 && Placed(raw, k, q.value)
  {
    if k > 0 {
      FeedWithinValue(p, raw, k - 1);
      FeedOneMore(p, raw, k - 1);
    }
  }

  lemma FeedValue(p: Parser, signed: bool, raw: seq<byte>)
    requires AtStart(p, Value, p) && 1 <= |raw| <= 8
    ensures var q := Feed(p, [ValueStart(signed, |raw|)] + raw);
      Idle(q) && q.sent == p.sent + [Message(p.obis, p.unit, TwosComplement(Number(raw, signed), 8))]
  {
    FeedFirst(p, ValueStart(signed, |raw|), raw);
    StartOfValue(p, signed, |raw|);
    FeedRaw(Step(p, ValueStart(signed, |raw|)), raw);
  }

  lemma StartOfValue(p: Parser, signed: bool, n: nat)
    requires AtStart(p, Value, p) && 1 <= n <= 8
    ensures Step(p, ValueStart(signed, n)) == p.(substate := 1, length := n + 1, signed := signed)
  {
  }

  lemma FeedRaw(p: Parser, raw: seq<byte>)
    requires WellFormed(p) && p.phase == Value && p.substate == 1 && !p.faulted
    requires 1 <= |raw| <= 8 && p.length == |raw| + 1
    ensures var q := Feed(p, raw);
      Idle(q) && q.sent == p.sent + [Message(p.obis, p.unit, TwosComplement(Number(raw, p.signed), 8))]
  {
    FeedWithinValue(p, raw, |raw| - 1);
    FeedOneMore(p, raw, |raw| - 1);
    assert raw[..|raw|] == raw;
    LastByteSends(Feed(p, raw[..|raw| - 1]), raw);
  }

  lemma LastByteSends(p: Parser, raw: seq<byte>)
    requires WellFormed(p) && p.phase == Value && !p.faulted && 1 <= |raw| <= 8
    requires p.substate == |raw| && p.length == |raw| + 1 && Placed(raw, |raw| - 1, p.value)
    ensures var q := Step(p, raw[|raw| - 1]);
      Idle(q) && q.sent == p.sent + [Message(p.obis, p.unit, TwosComplement(Number(raw, p.signed), 8))]
  {
    var v := p.value[0 := raw[|raw| - 1]];
    assert v[|raw| - 1] == raw[0];
    FilledIsTwosComplement(raw, v, p.signed && raw[0] >= 0x80);
  }

  lemma FilledIsTwosComplement(raw: seq<byte>, v: seq<byte>, negative: bool)
    requires |raw| <= |v| == 8 && Placed(raw, |raw|, v)
    ensures Fill(v, |raw|, if negative then 0xFF else 0) == TwosComplement(Extended(raw, negative), 8)
  {
    ExtensionIsTwosComplement(raw, negative, 8);
    var w := Fill(v, |raw|, if negative then 0xFF else 0);
    assert forall i | 0 <= i < |raw| :: w[i] == v[|raw| - 1 - (|raw| - 1 - i)] == raw[|raw| - 1 - i];
    assert w == Reversed(raw) + Ones(8 - |raw|, negative);
  }

  // ---------------------------------------------------------------- the stream

  lemma {:induction false} FeedQuiet(p: Parser, s: seq<byte>)
    requires Idle(p) && Quiet(s)
    ensures Feed(p, s) == p
    decreases |s|
  {
    if s == [] {
    } else if s[0] != 0x77 {
      FeedQuiet(p, s[1..]);
    } else {
      var k := if s[1] != 0x07 then 2 else if s[2] != 0x01 then 3 else 4;
      assert s == s[..k] + s[k..];
      FeedConcat(p, s[..k], s[k..]);
      BrokenOffPrefix(p, s[..k]);
      FeedQuiet(p, s[k..]);
    }
  }

  /** Reading `s` the parser never completes the start bytes. */
  predicate KeepsSearching(p: Parser, s: seq<byte>)
    requires WellFormed(p)
    decreases |s|
  {
    p.phase == Search && (s == [] || KeepsSearching(Step(p, s[0]), s[1..]))
  }

  lemma {:induction false} KeepsSearchingConcat(p: Parser, a: seq<byte>, b: seq<byte>)
    requires WellFormed(p)
    ensures KeepsSearching(p, a + b) <==> KeepsSearching(p, a) && KeepsSearching(Feed(p, a), b)
    decreases |a|
  {
    if a == [] {
      assert a + b == b;
    } else {
      assert (a + b)[1..] == a[1..] + b;
      KeepsSearchingConcat(Step(p, a[0]), a[1..], b);
    }
  }

  /** The first bytes of `s` begin an entry and break off with byte `k`. */
  predicate BreaksOff(s: seq<byte>, k: nat) { 2 <= k <= 4 && k <= |s| && s[..k - 1] == PREFIX[..k - 1] && s[k - 1] != PREFIX[k - 1] }

  lemma QuietAfterBreak(s: seq<byte>, k: nat)
    requires BreaksOff(s, k)
    ensures Quiet(s) <==> Quiet(s[k..])
  {
    assert forall i | 0 <= i < k - 1 :: s[i] == s[..k - 1][i] == PREFIX[i];
  }

  /** How `s` begins: with a byte that begins nothing, with start bytes that break off, or with nothing but start bytes. */
  lemma Beginning(s: seq<byte>) returns (k: nat)
    requires s != [] && s[0] == 0x77
    ensures BreaksOff(s, k) || (k > 0 && k == Min(|s|, 4) && s[..k] == PREFIX[..k])
  {
    k := 1;
    while k < 4 && k < |s| && s[k] == PREFIX[k]
      invariant 1 <= k <= 4 && k <= |s| && s[..k] == PREFIX[..k]
    {
      k := k + 1;
    }
    if k < 4 && k < |s| {
      k := k + 1;
    }
  }

  /** Quiet bytes are exactly those that lead a fresh search back to a fresh search without a find. */
  lemma {:induction false} QuietIff(p: Parser, s: seq<byte>)
    requires Idle(p)
    ensures Quiet(s) <==> KeepsSearching(p, s) && Feed(p, s).substate == 0
    decreases |s|
  {
    if s == [] {
    } else if s[0] != 0x77 {
      QuietIff(p, s[1..]);
    } else {
      var k := Beginning(s);
      assert s == s[..k] + s[k..];
      FeedConcat(p, s[..k], s[k..]);
      KeepsSearchingConcat(p, s[..k], s[k..]);
      if BreaksOff(s, k) {
        BrokenOffPrefix(p, s[..k]);
        QuietAfterBreak(s, k);
        QuietIff(p, s[k..]);
      } else {
        PrefixIsNotQuiet(p, s[..k]);
        StartBytesAreNotQuiet(s, k);
      }
    }
  }

  lemma {:induction false} HalfMatched(p: Parser, k: nat)
    requires Idle(p) && k < 4
    ensures Feed(p, PREFIX[..k]) == p.(substate := k)
  {
    if k == 0 {
      assert PREFIX[..0] == [];
    } else {
      HalfMatched(p, k - 1);
      FeedOneMore(p, PREFIX, k - 1);
    }
  }

  /** One, two or three start bytes leave the search half matched, all four end it. */
  lemma PrefixIsNotQuiet(p: Parser, s: seq<byte>)
    requires Idle(p) && 0 < |s| <= 4 && s == PREFIX[..|s|]
    ensures if |s| < 4 then Feed(p, s).substate != 0 else !KeepsSearching(p, s)
  {
    if |s| < 4 {
      HalfMatched(p, |s|);
    } else {
      assert s == PREFIX;
      StartFound(p);
    }
  }

  lemma StartFound(p: Parser)
    requires Idle(p)
    ensures !KeepsSearching(p, PREFIX)
  {
    PrefixFoundIffFresh(p);
    if KeepsSearching(p, PREFIX) {
      LastStateSearches(p, PREFIX);
      assert false;
    }
  }

  lemma StartBytesAreNotQuiet(s: seq<byte>, k: nat)
    requires 0 < k == Min(|s|, 4) && s[..k] == PREFIX[..k]
    ensures !Quiet(s)
  {
    assert forall i | 0 <= i < k :: s[i] == s[..k][i] == PREFIX[i];
  }

  lemma {:induction false} LastStateSearches(p: Parser, s: seq<byte>)
    requires WellFormed(p) && KeepsSearching(p, s)
    ensures Feed(p, s).phase == Search
    decreases |s|
  {
    if s != [] { LastStateSearches(Step(p, s[0]), s[1..]); }
  }

  /** An entry behind bytes that hold none is found if and only if those bytes are quiet. */
  lemma EntryFoundIffQuiet(p: Parser, s: seq<byte>)
    requires Idle(p) && KeepsSearching(p, s)
    ensures Feed(p, s + PREFIX).phase == Obis <==> Quiet(s)
  {
    FeedConcat(p, s, PREFIX);
    QuietIff(p, s);
    LastStateSearches(p, s);
    StillRight(p, s);
    PrefixFoundIffFresh(Feed(p, s));
  }

  /** Behind the first byte of a discarded value the same holds of those bytes with a 0x77 before them. */
  lemma EntryAfterDiscardFoundIff(p: Parser, tl: byte, gap: seq<byte>)
    requires AtStart(p, Value, p) && BadValue(tl) && tl % 16 >= 2 && KeepsSearching(Step(p, tl), gap)
    ensures Feed(p, [tl] + (gap + PREFIX)).phase == Obis <==> Quiet([0x77] + gap)
  {
    var q := Step(p, tl);
    var idle := q.(substate := 0);
    assert q == Step(idle, 0x77) && ([0x77] + gap)[1..] == gap;
    FeedFirst(p, tl, gap + PREFIX);
    FeedFirst(idle, 0x77, gap + PREFIX);
    assert [0x77] + (gap + PREFIX) == ([0x77] + gap) + PREFIX;
    EntryFoundIffQuiet(idle, [0x77] + gap);
  }

  lemma {:induction false} StillRight(p: Parser, s: seq<byte>)
    requires WellFormed(p) && !p.faulted && KeepsSearching(p, s)
    ensures !Feed(p, s).faulted
    decreases |s|
  {
    if s != [] {
      StepFaults(p, s[0]);
      StillRight(Step(p, s[0]), s[1..]);
    }
  }

  lemma BrokenOffPrefix(p: Parser, s: seq<byte>)
    requires Idle(p) && BreaksOff(s, |s|)
    ensures Feed(p, s) == p && KeepsSearching(p, s)
  {
    var n := |s|;
    StartSearches(p, s);
    assert forall i | 0 <= i < n - 1 :: s[i] == s[..n - 1][i] == PREFIX[i];
    assert s[..0] == [] && s[..n] == s;
    FeedOneMore(p, s, 0);
    FeedOneMore(p, s, 1);
    if n > 2 { FeedOneMore(p, s, 2); }
    if n > 3 { FeedOneMore(p, s, 3); }
  }

  /** From an idle parser to an idle parser, sending exactly `messages`. */
  predicate Broadcasts(p: Parser, bytes: seq<byte>, messages: seq<seq<byte>>) {
    Idle(p) && Idle(Feed(p, bytes)) && Feed(p, bytes).sent == p.sent + messages
  }

  lemma StartSearches(p: Parser, s: seq<byte>)
    requires Idle(p) && BreaksOff(s, |s|)
    ensures KeepsSearching(p, s)
  {
    var n := |s|;
    assert forall i | 0 <= i < n - 1 :: s[i] == s[..n - 1][i] == PREFIX[i];
    var p1 := Step(p, s[0]);
    var p2 := Step(p1, s[1]);
    assert KeepsSearching(p2, s[1..][1..]) by {
      if n > 2 {
        var p3 := Step(p2, s[2]);
        assert s[1..][1..][0] == s[2];
        assert KeepsSearching(p3, s[1..][1..][1..]) by {
          if n > 3 { assert s[1..][1..][1..][0] == s[3] && s[1..][1..][1..][1..] == []; }
        }
      }
    }
  }

  lemma FeedItem(p: Parser, x: Item)
    requires Idle(p) && Fits(x)
    ensures Broadcasts(p, ItemBytes(x), Messages(x))
  {
    match x
    case Noise(bytes) => FeedQuiet(p, bytes);
    case Record(head, signed, raw) =>
      FeedHead(p, head);
      FeedConcat(p, HeadBytes(head), [ValueStart(signed, |raw|)] + raw);
      FeedValue(Feed(p, HeadBytes(head)), signed, raw);
    case Other(head, tl, gap) =>
      FeedHead(p, head);
      FeedConcat(p, HeadBytes(head), [tl] + gap);
      FeedDiscarded(Feed(p, HeadBytes(head)), tl, gap);
  }

  lemma FeedDiscarded(p: Parser, tl: byte, gap: seq<byte>)
    requires AtStart(p, Value, p) && BadValue(tl) && tl % 16 >= 2 && Quiet([0x77] + gap)
    ensures Idle(Feed(p, [tl] + gap)) && Feed(p, [tl] + gap).sent == p.sent
  {
    var q := Step(p, tl);
    var fresh0 := q.(substate := 0);
    FeedFirst(p, tl, gap);
    FeedFirst(fresh0, 0x77, gap);
    FeedQuiet(fresh0, [0x77] + gap);
  }

  ghost predicate AllFit(xs: seq<Item>) { forall i | 0 <= i < |xs| :: Fits(xs[i]) }

  ghost function StreamBytes(xs: seq<Item>): seq<byte>
    requires AllFit(xs)
  {
    if xs == [] then [] else ItemBytes(xs[0]) + StreamBytes(xs[1..])
  }

  ghost function StreamMessages(xs: seq<Item>): seq<seq<byte>>
    requires AllFit(xs)
  {
    if xs == [] then [] else Messages(xs[0]) + StreamMessages(xs[1..])
  }

  /** Exactly the integer entries of a stream are broadcast, in order, each with its own number. */
  lemma {:induction false} StreamIsBroadcast(p: Parser, xs: seq<Item>)
    requires Idle(p) && AllFit(xs)
    ensures Broadcasts(p, StreamBytes(xs), StreamMessages(xs))
    decreases |xs|
  {
    if xs == [] {
      NothingBroadcast(p);
    } else {
      FeedItem(p, xs[0]);
      StreamIsBroadcast(Feed(p, ItemBytes(xs[0])), xs[1..]);
      OneAfterTheOther(p, ItemBytes(xs[0]), Messages(xs[0]), StreamBytes(xs[1..]), StreamMessages(xs[1..]));
    }
  }

  lemma NothingBroadcast(p: Parser)
    requires Idle(p)
    ensures Broadcasts(p, [], [])
  {
  }

  lemma OneAfterTheOther(p: Parser, a: seq<byte>, ma: seq<seq<byte>>, b: seq<byte>, mb: seq<seq<byte>>)
    requires Broadcasts(p, a, ma) && Broadcasts(Feed(p, a), b, mb)
    ensures Broadcasts(p, a + b, ma + mb)
  {
    FeedConcat(p, a, b);
  }

  /** Whatever the ticks in which it arrives. */
  lemma TicksBroadcastStream(xs: seq<Item>, ticks: seq<seq<byte>>)
    requires AllFit(xs) && Joined(ticks) == StreamBytes(xs)
    ensures FeedAll(INITIAL, ticks).sent == StreamMessages(xs)
  {
    TicksDoNotMatter(INITIAL, ticks);
    StreamIsBroadcast(INITIAL, xs);
  }

  /** A record's message byte by byte: three bytes of its code, the last byte of its unit, and its number. */
  lemma RecordMessage(x: Item)
    requires Fits(x) && x.Record?
    ensures |Messages(x)| == 1
    ensures var m, v := Messages(x)[0], Number(x.raw, x.signed);
      && |m| == 12 && m[0] == x.head.obis[0] && m[1] == x.head.obis[1] && m[2] == x.head.obis[2]
      && m[3] == x.head.unit[|x.head.unit| - 1]
      && LittleEndian(m[4..]) == if v >= 0 then v else v + U64
  {
    var m := Messages(x)[0];
    assert m[4..] == TwosComplement(Number(x.raw, x.signed), 8);
    BroadcastDenotesNumber(x.raw, x.signed);
  }

  /** The number of an entry: its bytes, most significant first, and less the whole range if it is signed and its first bit set. */
  lemma NumberOfBytes(high: seq<byte>, low: byte, signed: bool)
    ensures Number(high + [low], signed) ==
      if high == [] then (if signed && low >= 0x80 then low as int - 256 else low as int) else 256 * Number(high, signed) + low as int
  {
    assert (high + [low])[..|high|] == high;
    ExtendedByLowByte(high + [low], signed && (high + [low])[0] >= 0x80);
  }

  /** The eight bytes denote the entry's integer, in two's complement. */
  lemma BroadcastDenotesNumber(raw: seq<byte>, signed: bool)
    requires 1 <= |raw| <= 8
    ensures var v := Number(raw, signed);
      LittleEndian(TwosComplement(v, 8)) == if v >= 0 then v else v + U64
  {
    Power8();
    BigEndianBound(raw);
    PowersGrow(|raw|, 8);
    TwosComplementDenotes(Number(raw, signed), 8);
  }

  lemma {:induction false} BigEndianBound(raw: seq<byte>)
    ensures BigEndian(raw) < Pow256(|raw|)
  {
    if raw != [] { BigEndianBound(raw[..|raw| - 1]); }
  }

  lemma {:induction false} PowersGrow(a: nat, b: nat)
    requires a <= b
    ensures Pow256(a) <= Pow256(b)
    decreases b
  {
    if a < b { PowersGrow(a, b - 1); }
  }

  // ------------------------------------------------------------ what goes wrong

  /**
   An entry that follows a half matched beginning is not found: behind a second
   0x77, and right behind the first byte of a value that is not an integer.
   */
  lemma RepeatedStartByteHidesEntry(p: Parser)
    requires Idle(p)
    ensures Feed(p, [0x77] + PREFIX) == p
  {
    FeedFirst(p, 0x77, PREFIX);
    PrefixFoundIffFresh(Step(p, 0x77));
  }

  lemma DiscardHidesNextEntry(p: Parser, tl: byte)
    requires AtStart(p, Value, p) && BadValue(tl) && tl % 16 >= 2
    ensures AtStart(p, Search, Feed(p, [tl] + PREFIX)) && AtStart(p, Obis, Feed(p, [tl] + PREFIX[1..]))
  {
    FeedFirst(p, tl, PREFIX);
    FeedFirst(p, tl, PREFIX[1..]);
    var q := Step(p, tl);
    PrefixFoundIffFresh(q);
    var rest := PREFIX[1..];
    assert rest[..0] == [] && rest[..3] == rest;
    FeedOneMore(q, rest, 0);
    FeedOneMore(q, rest, 1);
    FeedOneMore(q, rest, 2);
  }
}
