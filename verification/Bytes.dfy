/** Bytes and big-endian integers. */
module Bytes {

  type Byte = x: int | 0 <= x < 256
  type Word16 = x: int | 0 <= x < 0x1_0000
  type Word32 = x: int | 0 <= x < 0x1_0000_0000

  function Put16(n: Word16): (r: seq<Byte>)
    ensures |r| == 2 && Get16(r) == n
  {
    [n / 256, n % 256]
  }

  function Get16(b: seq<Byte>): Word16
    requires |b| >= 2
  {
    (b[0] as int) * 256 + b[1] as int
  }

  function Put32(n: Word32): (r: seq<Byte>)
    ensures |r| == 4 && Get32(r) == n
  {
    Put16(n / 0x1_0000) + Put16(n % 0x1_0000)
  }

  function Get32(b: seq<Byte>): Word32
    requires |b| >= 4
  {
    (Get16(b) as int) * 0x1_0000 + Get16(b[2..]) as int
  }

  lemma Put32Inverts(b: seq<Byte>)
    requires |b| == 4
    ensures Put32(Get32(b)) == b
  {
    var hi, lo := Get16(b), Get16(b[2..]);
    HighLow(hi, lo);
    assert Put16(hi) == [b[0], b[1]] && Put16(lo) == [b[2], b[3]];
  }

  lemma HighLow(hi: Word16, lo: Word16)
    ensures var n := (hi as int) * 0x1_0000 + lo as int; n / 0x1_0000 == hi && n % 0x1_0000 == lo
  {
  }

  /** Bytes needed to reach the next multiple of four. */
  function PadLength(n: nat): (r: nat)
    ensures r < 4 && (n + r) % 4 == 0
  {
    (4 - n % 4) % 4
  }

  function Zeros(n: nat): (r: seq<Byte>)
    ensures |r| == n && forall i :: 0 <= i < n ==> r[i] == 0
  {
    seq(n, _ => 0)
  }

  /** Rounds up to a multiple of four. */
  function Align4(n: nat): nat {
    n + PadLength(n)
  }

  /** Appends zero bytes up to a multiple of four. */
  method Pad(buf: seq<Byte>) returns (r: seq<Byte>)
    ensures r == buf + Zeros(PadLength(|buf|))
  {
    r := buf;
    while |r| % 4 != 0
      invariant |buf| <= |r| <= |buf| + PadLength(|buf|)
      invariant r == buf + Zeros(|r| - |buf|)
      decreases |buf| + PadLength(|buf|) - |r|
    {
      r := r + [0];
    }
  }
}
