/** Fixed-width little-endian integers, as written by ColmapBinWriter and the worker's
    frame prefix and as read back by BinaryReader and WorkerRecvFrame. */
module LittleEndian {

  type byte = x: int | 0 <= x < 0x100

  type u32 = x: int | 0 <= x < 0x1_0000_0000

  type i32 = x: int | -0x8000_0000 <= x < 0x8000_0000

  type u64 = x: int | 0 <= x < 0x1_0000_0000_0000_0000

  type i64 = x: int | -0x8000_0000_0000_0000 <= x < 0x8000_0000_0000_0000

  /** The k low bytes of n, least significant first. */
  function Bytes(n: nat, k: nat): (r: seq<byte>)
    ensures |r| == k
  {
    if k == 0 then [] else [n % 0x100] + Bytes(n / 0x100, k - 1)
  }

  function Number(s: seq<byte>): nat {
    if s == [] then 0 else s[0] + 0x100 * Number(s[1..])
  }

  function Power256(k: nat): (r: nat)
    ensures r > 0
  {
    if k == 0 then 1 else 0x100 * Power256(k - 1)
  }

  lemma {:induction false} NumberOfBytes(n: nat, k: nat)
    requires n < Power256(k)
    ensures Number(Bytes(n, k)) == n
  {
    if k > 0 {
      assert n / 0x100 < Power256(k - 1);
      NumberOfBytes(n / 0x100, k - 1);
      assert Bytes(n, k)[1..] == Bytes(n / 0x100, k - 1);
    }
  }

  lemma {:induction false} BytesOfNumber(s: seq<byte>)
    ensures Number(s) < Power256(|s|) && Bytes(Number(s), |s|) == s
  {
    if s != [] {
      BytesOfNumber(s[1..]);
      var rest := Number(s[1..]);
      assert (s[0] + 0x100 * rest) % 0x100 == s[0] && (s[0] + 0x100 * rest) / 0x100 == rest;
    }
  }

  lemma PowerValues()
    ensures Power256(1) == 0x100
    ensures Power256(4) == 0x1_0000_0000
    ensures Power256(8) == 0x1_0000_0000_0000_0000
  {
    assert Power256(2) == 0x1_0000;
    assert Power256(3) == 0x100_0000;
    assert Power256(5) == 0x100_0000_0000;
    assert Power256(6) == 0x1_0000_0000_0000;
    assert Power256(7) == 0x100_0000_0000_0000;
  }

  /** A 32-bit read is the or of four shifted bytes; a 64-bit read is two 32-bit reads. */
  lemma NumberOfFour(s: seq<byte>)
    requires |s| == 4
    ensures Number(s) == s[0] as int + 0x100 * s[1] as int + 0x1_0000 * s[2] as int + 0x100_0000 * s[3] as int
    ensures Number(s) < 0x1_0000_0000
  {
    assert s[1..][1..] == s[2..] && s[2..][1..] == s[3..] && s[3..][1..] == [];
    assert Number(s[3..]) == s[3];
    assert Number(s[2..]) == s[2] as int + 0x100 * s[3] as int;
    assert Number(s[1..]) == s[1] + 0x100 * Number(s[2..]);
  }

  lemma {:induction false} NumberConcat(s: seq<byte>, t: seq<byte>)
    ensures Number(s + t) == Number(s) + Power256(|s|) * Number(t)
  {
    if s == [] {
      assert s + t == t;
    } else {
      NumberConcat(s[1..], t);
      assert (s + t)[1..] == s[1..] + t;
      assert Power256(|s|) * Number(t) == 0x100 * (Power256(|s[1..]|) * Number(t));
    }
  }

  lemma NumberOfEight(s: seq<byte>)
    requires |s| == 8
    ensures Number(s) == Number(s[..4]) + 0x1_0000_0000 * Number(s[4..])
    ensures Number(s) < 0x1_0000_0000_0000_0000
  {
    NumberConcat(s[..4], s[4..]);
    assert s[..4] + s[4..] == s;
    PowerValues();
    BytesOfNumber(s);
  }

  // Two's complement views of the same bits.

  function Unsigned32(v: i32): u32 {
    if v >= 0 then v else v + 0x1_0000_0000
  }

  function Signed32(v: u32): i32 {
    if v < 0x8000_0000 then v else v - 0x1_0000_0000
  }

  function Unsigned64(v: i64): u64 {
    if v >= 0 then v else v + 0x1_0000_0000_0000_0000
  }

  function Signed64(v: u64): i64 {
    if v < 0x8000_0000_0000_0000 then v else v - 0x1_0000_0000_0000_0000
  }
}
