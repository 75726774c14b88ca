/** The 48-byte NTP header and the split of a packet into header, extension fields and MAC. */
module Packets {
  import opened Wrappers
  import opened Bytes
  import opened Extensions

  const HEADER_SIZE := 48

  type I8 = x: int | -128 <= x < 128

  datatype NtpTs = NtpTs(seconds: Word32, fraction: Word32)

  datatype NtpPacket = NtpPacket(
    liVnMode: Byte,
    stratum: Byte,
    poll: Byte,
    precision: I8,
    rootDelay: Word32,
    rootDispersion: Word32,
    referenceId: Word32,
    reference: NtpTs,
    originate: NtpTs,
    receive: NtpTs,
    transmit: NtpTs)

  function FromSigned(x: I8): Byte { if x < 0 then x + 256 else x }
  function ToSigned(b: Byte): I8 { if b >= 128 then b - 256 else b }

  function PutTs(t: NtpTs): (r: seq<Byte>)
    ensures |r| == 8
  {
    Put32(t.seconds) + Put32(t.fraction)
  }

  function GetTs(b: seq<Byte>): NtpTs
    requires |b| >= 8
  {
    NtpTs(Get32(b), Get32(b[4..]))
  }

  function HeadBytes(p: NtpPacket): (r: seq<Byte>)
    ensures |r| == 16
  {
    [p.liVnMode, p.stratum, p.poll, FromSigned(p.precision)] +
    Put32(p.rootDelay) + Put32(p.rootDispersion) + Put32(p.referenceId)
  }

  function StampBytes(p: NtpPacket): (r: seq<Byte>)
    ensures |r| == 32
  {
    PutTs(p.reference) + PutTs(p.originate) + PutTs(p.receive) + PutTs(p.transmit)
  }

  function HeaderBytes(p: NtpPacket): (r: seq<Byte>)
    ensures |r| == HEADER_SIZE
  {
    HeadBytes(p) + StampBytes(p)
  }

  /** Writes one big-endian word into the header; what precedes it is kept. */
  method WriteWord(b: array<Byte>, at: nat, n: Word32)
    requires at + 4 <= b.Length
    modifies b
    ensures b[..at + 4] == old(b[..at]) + Put32(n)
  {
    var w := Put32(n);
    b[at], b[at + 1], b[at + 2], b[at + 3] := w[0], w[1], w[2], w[3];
  }

  method WriteTs(b: array<Byte>, at: nat, t: NtpTs)
    requires at + 8 <= b.Length
    modifies b
    ensures b[..at + 8] == old(b[..at]) + PutTs(t)
  {
    WriteWord(b, at, t.seconds);
    WriteWord(b, at + 4, t.fraction);
  }

  method WriteHead(b: array<Byte>, p: NtpPacket)
    requires b.Length == HEADER_SIZE
    modifies b
    ensures b[..16] == HeadBytes(p)
  {
    b[0], b[1], b[2], b[3] := p.liVnMode, p.stratum, p.poll, FromSigned(p.precision);
    assert b[..4] == [p.liVnMode, p.stratum, p.poll, FromSigned(p.precision)];
    WriteWord(b, 4, p.rootDelay);
    WriteWord(b, 8, p.rootDispersion);
    WriteWord(b, 12, p.referenceId);
  }

  /** Writes the header into a zeroed array, field by field. */
  method EncodeHeader(p: NtpPacket) returns (b: array<Byte>)
    ensures fresh(b) && b[..] == HeaderBytes(p)
  {
    b := new Byte[HEADER_SIZE](_ => 0);
    WriteHead(b, p);
    WriteTs(b, 16, p.reference);
    WriteTs(b, 24, p.originate);
    WriteTs(b, 32, p.receive);
    WriteTs(b, 40, p.transmit);
    Reassociate(HeadBytes(p), PutTs(p.reference), PutTs(p.originate), PutTs(p.receive), PutTs(p.transmit));
    assert b[..48] == b[..];
  }

  lemma Reassociate(h: seq<Byte>, a: seq<Byte>, b: seq<Byte>, c: seq<Byte>, d: seq<Byte>)
    ensures h + (a + b + c + d) == h + a + b + c + d
  {
  }

  function DecodeHeader(b: seq<Byte>): Option<NtpPacket> {
    if |b| < HEADER_SIZE then None
    else
      Some(NtpPacket(b[0], b[1], b[2], ToSigned(b[3]), Get32(b[4..]), Get32(b[8..]), Get32(b[12..]),
                     GetTs(b[16..]), GetTs(b[24..]), GetTs(b[32..]), GetTs(b[40..])))
  }

  lemma TsRoundTrip(t: NtpTs, tail: seq<Byte>)
    ensures GetTs(PutTs(t) + tail) == t
  {
    var b := PutTs(t) + tail;
    WordAt(t.seconds, Put32(t.fraction) + tail);
    assert b == Put32(t.seconds) + (Put32(t.fraction) + tail);
    WordAt(t.fraction, tail);
    assert b[4..] == Put32(t.fraction) + tail;
  }

  lemma WordAt(n: Word32, tail: seq<Byte>)
    ensures Get32(Put32(n) + tail) == n
  {
    var b := Put32(n) + tail;
    assert b[0] == Put32(n)[0] && b[1] == Put32(n)[1] && b[2..][0] == Put32(n)[2] && b[2..][1] == Put32(n)[3];
  }

  lemma StampsRoundTrip(p: NtpPacket, tail: seq<Byte>)
    ensures var s := StampBytes(p) + tail;
            && GetTs(s) == p.reference && GetTs(s[8..]) == p.originate
            && GetTs(s[16..]) == p.receive && GetTs(s[24..]) == p.transmit
  {
    var s := StampBytes(p) + tail;
    TsRoundTrip(p.transmit, tail);
    assert s[24..] == PutTs(p.transmit) + tail;
    TsRoundTrip(p.receive, s[24..]);
    assert s[16..] == PutTs(p.receive) + s[24..];
    TsRoundTrip(p.originate, s[16..]);
    assert s[8..] == PutTs(p.originate) + s[16..];
    TsRoundTrip(p.reference, s[8..]);
    assert s == PutTs(p.reference) + s[8..];
  }

  lemma HeadRoundTrip(p: NtpPacket, tail: seq<Byte>)
    ensures var h := HeadBytes(p) + tail;
            && h[0] == p.liVnMode && h[1] == p.stratum && h[2] == p.poll && ToSigned(h[3]) == p.precision
            && Get32(h[4..]) == p.rootDelay && Get32(h[8..]) == p.rootDispersion && Get32(h[12..]) == p.referenceId
  {
    var h := HeadBytes(p) + tail;
    WordAt(p.referenceId, tail);
    assert h[12..] == Put32(p.referenceId) + tail;
    WordAt(p.rootDispersion, h[12..]);
    assert h[8..] == Put32(p.rootDispersion) + h[12..];
    WordAt(p.rootDelay, h[8..]);
    assert h[4..] == Put32(p.rootDelay) + h[8..];
  }

  /** Decoding an encoded header, whatever follows it, gives the header back. */
  lemma HeaderRoundTrip(p: NtpPacket, tail: seq<Byte>)
    ensures DecodeHeader(HeaderBytes(p) + tail) == Some(p)
  {
    var b, s := HeaderBytes(p) + tail, StampBytes(p) + tail;
    HeadRoundTrip(p, s);
    StampsRoundTrip(p, tail);
    assert b == HeadBytes(p) + s;
    assert b[16..] == s && b[24..] == s[8..] && b[32..] == s[16..] && b[40..] == s[24..];
  }

  lemma WordInverts(b: seq<Byte>, at: nat)
    requires at + 4 <= |b|
    ensures Put32(Get32(b[at..])) == b[at..at + 4]
  {
    Put32Inverts(b[at..at + 4]);
    assert b[at..][0] == b[at] && b[at..][1] == b[at + 1] && b[at..][2..][0] == b[at + 2]
        && b[at..][2..][1] == b[at + 3];
    assert b[at..at + 4][2..][0] == b[at + 2] && b[at..at + 4][2..][1] == b[at + 3];
  }

  lemma TsInverts(b: seq<Byte>, at: nat)
    requires at + 8 <= |b|
    ensures PutTs(GetTs(b[at..])) == b[at..at + 8]
  {
    WordInverts(b, at);
    WordInverts(b, at + 4);
    assert b[at..][4..] == b[at + 4..];
    assert b[at..at + 8] == b[at..at + 4] + b[at + 4..at + 8];
  }

  lemma HeadInverts(b: seq<Byte>)
    requires |b| >= HEADER_SIZE
    ensures HeadBytes(DecodeHeader(b).value) == b[..16]
  {
    WordInverts(b, 4);
    WordInverts(b, 8);
    WordInverts(b, 12);
    assert b[..16] == [b[0], b[1], b[2], b[3]] + b[4..8] + b[8..12] + b[12..16];
  }

  lemma StampsInvert(b: seq<Byte>)
    requires |b| >= HEADER_SIZE
    ensures StampBytes(DecodeHeader(b).value) == b[16..48]
  {
    TsInverts(b, 16);
    TsInverts(b, 24);
    TsInverts(b, 32);
    TsInverts(b, 40);
    assert b[16..48] == b[16..24] + b[24..32] + b[32..40] + b[40..48];
  }

  /** No information is lost the other way either: re-encoding gives the first 48 bytes. */
  lemma HeaderInverts(b: seq<Byte>)
    requires |b| >= HEADER_SIZE
    ensures HeaderBytes(DecodeHeader(b).value) == b[..HEADER_SIZE]
  {
    HeadInverts(b);
    StampsInvert(b);
    assert b[..48] == b[..16] + b[16..48];
  }

  /** A big-endian word at a position. */
  function WordOf(b: seq<Byte>, at: nat): int
    requires at + 4 <= |b|
  {
    b[at] as int * 0x100_0000 + b[at + 1] as int * 0x1_0000 + b[at + 2] as int * 0x100 + b[at + 3] as int
  }

  lemma WordIs(b: seq<Byte>, at: nat)
    requires at + 4 <= |b|
    ensures Get32(b[at..]) == WordOf(b, at)
  {
    assert b[at..][0] == b[at] && b[at..][1] == b[at + 1] && b[at..][2..][0] == b[at + 2]
        && b[at..][2..][1] == b[at + 3];
  }

  lemma StampIs(b: seq<Byte>, at: nat)
    requires at + 8 <= |b|
    ensures GetTs(b[at..]) == NtpTs(Get32(b[at..]), Get32(b[at + 4..]))
    ensures Get32(b[at..]) == WordOf(b, at) && Get32(b[at + 4..]) == WordOf(b, at + 4)
  {
    WordIs(b, at);
    WordIs(b, at + 4);
    assert b[at..][4..] == b[at + 4..];
  }

  /** Where each field of the header is: four bytes, then big-endian words. */
  lemma HeaderLayout(p: NtpPacket)
    ensures var b := HeaderBytes(p);
            && |b| == 48 && b[0] == p.liVnMode && b[1] == p.stratum && b[2] == p.poll
            && b[3] as int == (if p.precision < 0 then p.precision + 256 else p.precision)
            && WordOf(b, 4) == p.rootDelay && WordOf(b, 8) == p.rootDispersion && WordOf(b, 12) == p.referenceId
            && WordOf(b, 16) == p.reference.seconds && WordOf(b, 20) == p.reference.fraction
            && WordOf(b, 24) == p.originate.seconds && WordOf(b, 28) == p.originate.fraction
            && WordOf(b, 32) == p.receive.seconds && WordOf(b, 36) == p.receive.fraction
            && WordOf(b, 40) == p.transmit.seconds && WordOf(b, 44) == p.transmit.fraction
  {
    var b := HeaderBytes(p);
    HeaderAlone(p);
    WordIs(b, 4);
    WordIs(b, 8);
    WordIs(b, 12);
    StampIs(b, 16);
    StampIs(b, 24);
    StampIs(b, 32);
    StampIs(b, 40);
  }

  // ---------- Whole packets ----------

  datatype Parts = Parts(header: NtpPacket, extensions: seq<Byte>, mac: Option<seq<Byte>>)

  function Split(data: seq<Byte>): Option<Parts> {
    if |data| < HEADER_SIZE then None
    else
      var rest := data[HEADER_SIZE..];
      var end := ExtensionEnd(rest);
      var mac := if rest[end..] == [] then None else Some(rest[end..]);
      Some(Parts(DecodeHeader(data[..HEADER_SIZE]).value, rest[..end], mac))
  }

  method DecodeFull(data: seq<Byte>) returns (r: Option<Parts>)
    ensures r == Split(data)
  {
    if |data| < HEADER_SIZE {
      return None;
    }
    var header, rest := data[..HEADER_SIZE], data[HEADER_SIZE..];
    var packet := DecodeHeader(header).value;
    if rest == [] {
      return Some(Parts(packet, [], None));
    }
    var extEnd, cursor := 0, rest;
    while |cursor| >= 4
      invariant extEnd <= |rest| && cursor == rest[extEnd..]
      invariant ExtensionEnd(rest) == extEnd + ExtensionEnd(cursor)
      decreases |cursor|
    {
      var fieldLen := Get16(cursor[2..]);
      if fieldLen < 4 || fieldLen > |cursor| {
        break;
      }
      var padded := Align4(fieldLen);
      if padded > |cursor| {
        break;
      }
      extEnd := extEnd + padded;
      assert cursor[padded..] == rest[extEnd..];
      cursor := rest[extEnd..];
    }
    assert ExtensionEnd(cursor) == 0;
    r := Some(Parts(packet, rest[..extEnd], if cursor != [] then Some(cursor) else None));
  }

  /** A header followed by encoded fields and a tail splits into that header, those fields and
      whatever prefix of the tail reads as fields, and the rest as the MAC. */
  lemma {:induction false} PacketRoundTrip(p: NtpPacket, fs: seq<Field>, tail: seq<Byte>)
    requires AllFit(fs, 65531)
    ensures var n := ExtensionEnd(tail);
            Split(HeaderBytes(p) + (EncodeAll(fs) + tail)) ==
            Some(Parts(p, EncodeAll(fs) + tail[..n], if n == |tail| then None else Some(tail[n..])))
  {
    HeaderAlone(p);
    WalkerPasses(fs, tail);
    SplitAfterFields(HeaderBytes(p), p, EncodeAll(fs), tail);
  }

  lemma HeaderAlone(p: NtpPacket)
    ensures DecodeHeader(HeaderBytes(p)) == Some(p)
  {
    HeaderRoundTrip(p, []);
    assert HeaderBytes(p) + [] == HeaderBytes(p);
  }

  lemma {:induction false} SplitAfterFields(h: seq<Byte>, p: NtpPacket, ext: seq<Byte>, tail: seq<Byte>)
    requires |h| == HEADER_SIZE && DecodeHeader(h) == Some(p)
    requires ExtensionEnd(ext + tail) == |ext| + ExtensionEnd(tail)
    ensures var n := ExtensionEnd(tail);
            Split(h + (ext + tail)) == Some(Parts(p, ext + tail[..n], if n == |tail| then None else Some(tail[n..])))
  {
    SplitIs(h, p, ext + tail);
    SplitSlices(ext, tail, ExtensionEnd(tail));
  }

  lemma {:induction false} SplitIs(h: seq<Byte>, p: NtpPacket, rest: seq<Byte>)
    requires |h| == HEADER_SIZE && DecodeHeader(h) == Some(p)
    ensures var end := ExtensionEnd(rest);
            Split(h + rest) == Some(Parts(p, rest[..end], if rest[end..] == [] then None else Some(rest[end..])))
  {
    assert (h + rest)[HEADER_SIZE..] == rest && (h + rest)[..HEADER_SIZE] == h;
  }

  lemma SplitSlices(ext: seq<Byte>, tail: seq<Byte>, n: nat)
    requires n <= |tail|
    ensures (ext + tail)[..|ext| + n] == ext + tail[..n] && (ext + tail)[|ext| + n..] == tail[n..]
  {
  }

  /** So a MAC is told apart from the fields exactly when it does not itself begin like a field. */
  lemma {:induction false} MacRecovered(p: NtpPacket, fs: seq<Field>, mac: seq<Byte>)
    requires AllFit(fs, 65531) && mac != []
    ensures Split(HeaderBytes(p) + (EncodeAll(fs) + mac)) == Some(Parts(p, EncodeAll(fs), Some(mac)))
       <==> (|mac| < 4 || Get16(mac[2..]) < 4 || Align4(Get16(mac[2..])) > |mac|)
  {
    PacketRoundTrip(p, fs, mac);
    var n := ExtensionEnd(mac);
    if n == 0 {
      assert mac[..0] == [] && mac[0..] == mac && EncodeAll(fs) + mac[..n] == EncodeAll(fs);
    } else {
      assert |EncodeAll(fs) + mac[..n]| != |EncodeAll(fs)|;
    }
  }
}
