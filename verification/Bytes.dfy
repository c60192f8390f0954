/** Bytes, 32-bit words and byte sequences, shared by every component. */
module Bytes {
  type byte = x: int | 0 <= x < 256

  const U16 := 0x1_0000
  const U32 := 0x1_0000_0000
  const U64 := 0x1_0000_0000_0000_0000

  datatype Option<+T> = None | Some(value: T)

  function Min(a: int, b: int): int { if a < b then a else b }

  /** `s` with the bytes from `at` on replaced by `data`. */
  function Splice(s: seq<byte>, at: nat, data: seq<byte>): (r: seq<byte>)
    requires at + |data| <= |s|
    ensures |r| == |s|
    ensures forall i | 0 <= i < |s| :: r[i] == if at <= i < at + |data| then data[i - at] else s[i]
  {
    s[..at] + data + s[at + |data|..]
  }

  /** The unsigned number a byte string denotes, least significant byte first. */
  function LittleEndian(s: seq<byte>): nat {
    if s == [] then 0 else s[0] + 256 * LittleEndian(s[1..])
  }

  function Pow256(n: nat): (r: nat)
    ensures r > 0
  {
    if n == 0 then 1 else 256 * Pow256(n - 1)
  }

  function Zeros(n: nat): (s: seq<byte>)
    ensures |s| == n && forall i | 0 <= i < n :: s[i] == 0
  {
    seq(n, _ => 0)
  }

  /** The two's complement reading of a 32-bit word. */
  function ToInt32(x: int): (r: int)
    ensures -0x8000_0000 <= r < 0x8000_0000
  {
    var w := x % 0x1_0000_0000; if w < 0x8000_0000 then w else w - 0x1_0000_0000
  }

  /** The two's complement reading of a 16-bit word. */
  function ToInt16(x: int): (r: int)
    ensures -0x8000 <= r < 0x8000
  {
    var w := x % 0x1_0000; if w < 0x8000 then w else w - 0x1_0000
  }

  lemma {:induction false} LittleEndianBound(s: seq<byte>, n: nat)
    requires |s| <= n
    ensures LittleEndian(s) < Pow256(n)
    decreases n
  {
    if |s| > 0 { LittleEndianBound(s[1..], n - 1); }
  }

  lemma Shift(p: nat, high: nat)
    ensures 256 * (p * high) == (256 * p) * high
  {
  }

  lemma LowWord(v: int, low: nat, high: nat)
    requires v % 0x1_0000_0000_0000_0000 == low + 0x1_0000_0000 * high && low < 0x1_0000_0000
    ensures v % 0x1_0000_0000 == low
  {
    var q := v / 0x1_0000_0000_0000_0000;
    assert v == 0x1_0000_0000_0000_0000 * q + low + 0x1_0000_0000 * high;
    Remainder32(v, 0x1_0000_0000 * q + high, low);
  }

  lemma Remainder32(v: int, t: int, low: nat)
    requires v == 0x1_0000_0000 * t + low && low < 0x1_0000_0000
    ensures v % 0x1_0000_0000 == low
  {
  }

  lemma ToInt32OfWord(v: int)
    requires -0x8000_0000 <= v < 0x8000_0000
    ensures ToInt32(v % 0x1_0000_0000) == v
  {
    Remainder32(v, if v < 0 then -1 else 0, if v < 0 then v + 0x1_0000_0000 else v);
  }

  /** A byte string is its low bytes and, shifted, its high bytes. */
  lemma {:induction false} LowAndHighBytes(s: seq<byte>, k: nat)
    requires k <= |s|
    ensures LittleEndian(s) == LittleEndian(s[..k]) + Pow256(k) * LittleEndian(s[k..])
  {
    if k == 0 {
      assert s[0..] == s;
    } else {
      LowAndHighBytes(s[1..], k - 1);
      assert s[..k][1..] == s[1..][..k - 1] && s[1..][k - 1..] == s[k..];
      assert LittleEndian(s[..k]) == s[0] + 256 * LittleEndian(s[1..][..k - 1]);
      Shift(Pow256(k - 1), LittleEndian(s[k..]));
    }
  }

  lemma Powers()
    ensures Pow256(0) == 1 && Pow256(1) == 0x100 && Pow256(2) == U16 && Pow256(3) == 0x100_0000 && Pow256(4) == U32
  {
    assert Pow256(1) == 256 * Pow256(0) && Pow256(2) == 256 * Pow256(1) && Pow256(3) == 256 * Pow256(2) && Pow256(4) == 256 * Pow256(3);
  }

  lemma Power8()
    ensures Pow256(8) == U64
  {
    Powers();
    assert Pow256(5) == 256 * Pow256(4) && Pow256(6) == 256 * Pow256(5) && Pow256(7) == 256 * Pow256(6) && Pow256(8) == 256 * Pow256(7);
  }
}
