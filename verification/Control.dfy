/** Mode 6 control messages: header codec, responses with padding and MAC, and what a client
    makes of them. */
module Control {
  import opened Wrappers
  import opened Bytes
  import opened Fragments

  const MESSAGE_SIZE := 12
  const MAX_PAYLOAD := 468

  datatype Message = Message(
    liVnMode: Byte,
    opcode: Byte,
    sequence: Word16,
    status: Word16,
    associd: Word16,
    offset: Word16,
    count: Word16)

  function EncodeMessage(m: Message): (r: seq<Byte>)
    ensures |r| == MESSAGE_SIZE
  {
    [m.liVnMode, m.opcode] + Put16(m.sequence) + Put16(m.status) + Put16(m.associd) + Put16(m.offset) + Put16(m.count)
  }

  function DecodeMessage(b: seq<Byte>): Option<(Message, seq<Byte>)> {
    if |b| < MESSAGE_SIZE then None
    else
      Some((Message(b[0], b[1], Get16(b[2..]), Get16(b[4..]), Get16(b[6..]), Get16(b[8..]), Get16(b[10..])),
            b[MESSAGE_SIZE..]))
  }

  lemma MessageRoundTrip(m: Message, tail: seq<Byte>)
    ensures DecodeMessage(EncodeMessage(m) + tail) == Some((m, tail))
  {
    var b := EncodeMessage(m) + tail;
    assert b[MESSAGE_SIZE..] == tail;
    assert b[0] == m.liVnMode && b[1] == m.opcode;
    Half(b, 2, m.sequence);
    Half(b, 4, m.status);
    Half(b, 6, m.associd);
    Half(b, 8, m.offset);
    Half(b, 10, m.count);
  }

  lemma Half(b: seq<Byte>, at: nat, n: Word16)
    requires at + 2 <= |b| && b[at] == Put16(n)[0] && b[at + 1] == Put16(n)[1]
    ensures Get16(b[at..]) == n
  {
    assert b[at..][0] == b[at] && b[at..][1] == b[at + 1];
  }

  // ---------- The opcode byte ----------

  datatype Opcode = Opcode(response: bool, error: bool, more: bool, op: nat)

  function FromByte(v: Byte): Opcode {
    Opcode(v / 128 == 1, v / 64 % 2 == 1, v / 32 % 2 == 1, v % 32)
  }

  function ToByte(o: Opcode): Byte
    requires o.op < 32
  {
    (if o.response then 128 else 0) + (if o.error then 64 else 0) + (if o.more then 32 else 0) + o.op
  }

  /** The opcode byte and its flags determine each other. */
  lemma OpcodeBijection(o: Opcode, v: Byte)
    ensures o.op < 32 ==> FromByte(ToByte(o)) == o
    ensures ToByte(FromByte(v)) == v
  {
  }

  // ---------- Keys ----------

  datatype Key = Key(id: Word32, secret: seq<Byte>)

  /** The keyed digest, left abstract; None for a digest of no length. */
  type Mac = (Key, seq<Byte>) -> Option<seq<Byte>>

  type KeyStore = Word32 -> Option<Key>

  // ---------- Responses ----------

  function Payload(data: seq<Byte>): (r: seq<Byte>)
    ensures |r| <= MAX_PAYLOAD
  {
    if |data| <= MAX_PAYLOAD then data else data[..MAX_PAYLOAD]
  }

  function ResponseHeader(req: Message, data: seq<Byte>, sequence: Word16, status: Word16): Message {
    var oc := FromByte(req.opcode);
    Message(req.liVnMode, ToByte(Opcode(true, false, oc.more || |data| > MAX_PAYLOAD, oc.op)),
            sequence, status, req.associd, 0, |Payload(data)|)
  }

  /** What the MAC covers: header, payload and padding. */
  function Covered4(m: Message, payload: seq<Byte>): seq<Byte> {
    var body := EncodeMessage(m) + payload;
    body + Zeros(PadLength(|body|))
  }

  function Response(req: Message, data: seq<Byte>, sequence: Word16, status: Word16, key: Option<Key>,
      mac: Mac): seq<Byte> {
    var h, payload := ResponseHeader(req, data, sequence, status), Payload(data);
    if key.None? then EncodeMessage(h) + payload
    else
      var padded := Covered4(h, payload);
      var digest := mac(key.value, padded);
      if digest.Some? then padded + Put32(key.value.id) + digest.value else padded
  }

  method BuildResponse(req: Message, data: seq<Byte>, sequence: Word16, status: Word16, key: Option<Key>, mac: Mac)
      returns (buf: seq<Byte>)
    ensures buf == Response(req, data, sequence, status, key, mac)
  {
    var h := ResponseHeader(req, data, sequence, status);
    buf := EncodeMessage(h);
    buf := buf + if |data| < MAX_PAYLOAD then data[..|data|] else data[..MAX_PAYLOAD];
    assert buf == EncodeMessage(h) + Payload(data);
    if key.Some? {
      buf := Pad(buf);
      var digest := mac(key.value, buf);
      if digest.Some? {
        buf := buf + Put32(key.value.id);
        buf := buf + digest.value;
      }
    }
  }

  // ---------- Parsing and verification ----------

  datatype Exchange = Exchange(request: Message, data: seq<Byte>, keyId: Option<Word32>, authData: seq<Byte>)

  function Parse(b: seq<Byte>): Option<Exchange> {
    var r := DecodeMessage(b);
    if r.None? then None
    else
      var (m, after) := r.value;
      var end := m.offset + m.count;
      if end > |after| then None
      else
        var auth := Align4(m.count);
        var remaining := if auth <= |after| then after[auth..] else [];
        if |remaining| >= 4 then Some(Exchange(m, after[m.offset..end], Some(Get32(remaining)), remaining[4..]))
        else Some(Exchange(m, after[m.offset..end], None, []))
  }

  method VerifyMac(x: Exchange, store: KeyStore, mac: Mac) returns (valid: bool)
    ensures valid <==> Verifies(x, store, mac)
  {
    if x.keyId.Some? {
      var key := store(x.keyId.value);
      if key.Some? {
        var packet := EncodeMessage(x.request);
        packet := packet + x.data;
        packet := Pad(packet);
        var computed := mac(key.value, packet);
        return computed.Some? && computed.value == x.authData;
      }
    }
    valid := false;
  }

  predicate Verifies(x: Exchange, store: KeyStore, mac: Mac) {
    && x.keyId.Some? && store(x.keyId.value).Some?
    && mac(store(x.keyId.value).value, Covered4(x.request, x.data)) == Some(x.authData)
  }

  lemma PadAfterHeader(n: nat)
    ensures PadLength(MESSAGE_SIZE + n) == PadLength(n)
  {
  }

  /** Parsing header, payload, padding and whatever follows. */
  lemma ParseLayout(m: Message, payload: seq<Byte>, tail: seq<Byte>)
    requires m.offset == 0 && m.count == |payload|
    ensures Parse(EncodeMessage(m) + payload + Zeros(PadLength(|payload|)) + tail)
         == Some(if |tail| >= 4 then Exchange(m, payload, Some(Get32(tail)), tail[4..])
                 else Exchange(m, payload, None, []))
  {
    var after := payload + Zeros(PadLength(|payload|)) + tail;
    assert EncodeMessage(m) + payload + Zeros(PadLength(|payload|)) + tail == EncodeMessage(m) + after;
    MessageRoundTrip(m, after);
    assert after[0..|payload|] == payload;
    assert after[Align4(|payload|)..] == tail;
  }

  /** Parsing fails exactly if the data would reach beyond the datagram; they begin at the given offset. */
  lemma ParseFits(m: Message, after: seq<Byte>)
    ensures Parse(EncodeMessage(m) + after).None? <==> m.offset + m.count > |after|
    ensures var x := Parse(EncodeMessage(m) + after);
            x.Some? ==>
              && x.value.request == m && |x.value.data| == m.count
              && (forall k :: 0 <= k < m.count ==> x.value.data[k] == after[m.offset + k])
              && (x.value.keyId.Some? <==> |after| >= Align4(m.count) + 4)
  {
    MessageRoundTrip(m, after);
  }

  lemma ParseUnpadded(m: Message, payload: seq<Byte>)
    requires m.offset == 0 && m.count == |payload|
    ensures Parse(EncodeMessage(m) + payload) == Some(Exchange(m, payload, None, []))
  {
    MessageRoundTrip(m, payload);
    assert payload[0..|payload|] == payload;
  }

  lemma CoveredLayout(m: Message, payload: seq<Byte>, tail: seq<Byte>)
    ensures Covered4(m, payload) + tail == EncodeMessage(m) + payload + Zeros(PadLength(|payload|)) + tail
  {
    PadAfterHeader(|payload|);
  }

  lemma KeyFirst(id: Word32, digest: seq<Byte>)
    ensures var tail := Put32(id) + digest; |tail| >= 4 && Get32(tail) == id && tail[4..] == digest
  {
    var tail := Put32(id) + digest;
    assert tail[0] == Put32(id)[0] && tail[1] == Put32(id)[1] && tail[2..][0] == Put32(id)[2]
        && tail[2..][1] == Put32(id)[3];
  }

  /** A response parses back to its header and payload, with the key and digest if it was signed. */
  lemma ResponseParses(req: Message, data: seq<Byte>, sequence: Word16, status: Word16, key: Option<Key>, mac: Mac)
    ensures var h, payload := ResponseHeader(req, data, sequence, status), Payload(data);
            var digest := if key.Some? then mac(key.value, Covered4(h, payload)) else None;
            Parse(Response(req, data, sequence, status, key, mac)) ==
            Some(if digest.Some? then Exchange(h, payload, Some(key.value.id), digest.value)
                 else Exchange(h, payload, None, []))
  {
    var h, payload := ResponseHeader(req, data, sequence, status), Payload(data);
    if key.None? {
      ParseUnpadded(h, payload);
    } else {
      var digest := mac(key.value, Covered4(h, payload));
      if digest.Some? {
        var tail := Put32(key.value.id) + digest.value;
        KeyFirst(key.value.id, digest.value);
        CoveredLayout(h, payload, tail);
        ParseLayout(h, payload, tail);
        assert Covered4(h, payload) + Put32(key.value.id) + digest.value == Covered4(h, payload) + tail;
      } else {
        CoveredLayout(h, payload, []);
        ParseLayout(h, payload, []);
        assert Covered4(h, payload) + [] == Covered4(h, payload);
      }
    }
  }

  /** The bytes of a response: the request's first byte; the response flag set, the error flag clear, the
      more flag set if the request had it set or the data do not fit, the request's operation; the
      given sequence and status; the request's association ID; offset 0; then count and data. */
  lemma ResponseBytes(req: Message, data: seq<Byte>, sequence: Word16, status: Word16, key: Option<Key>, mac: Mac)
    ensures var b, n := Response(req, data, sequence, status, key, mac), if |data| <= 468 then |data| else 468;
            && |b| >= 12 + n && b[0] == req.liVnMode
            && b[1] / 128 == 1 && b[1] / 64 % 2 == 0 && b[1] % 32 == req.opcode % 32
            && (b[1] / 32 % 2 == 1 <==> req.opcode / 32 % 2 == 1 || |data| > 468)
            && b[2] as int * 256 + b[3] as int == sequence && b[4] as int * 256 + b[5] as int == status
            && b[6] as int * 256 + b[7] as int == req.associd && b[8] == b[9] == 0
            && b[10] as int * 256 + b[11] as int == n && b[12..12 + n] == data[..n]
  {
    var h := ResponseHeader(req, data, sequence, status);
    var after := ResponseDecodes(req, data, sequence, status, key, mac);
    var b := EncodeMessage(h) + after;
    assert b[..12] == EncodeMessage(h);
    assert b[12..12 + |Payload(data)|] == after[..|Payload(data)|] == Payload(data);
  }

  /** A signed response is a multiple of four bytes that begins with the unsigned one, then the key
      ID and the digest of those bytes. */
  lemma SignatureCovers(req: Message, data: seq<Byte>, sequence: Word16, status: Word16, key: Key, mac: Mac)
      returns (body: seq<Byte>)
    ensures |body| % 4 == 0 && var plain := Response(req, data, sequence, status, None, mac);
            && |plain| <= |body| < |plain| + 4 && body[..|plain|] == plain
            && (forall i :: |plain| <= i < |body| ==> body[i] == 0)
    ensures var b, digest := Response(req, data, sequence, status, Some(key), mac), mac(key, body);
            && (digest.None? ==> b == body)
            && (digest.Some? ==>
                  |b| == |body| + 4 + |digest.value| && b[..|body|] == body
                  && Get32(b[|body|..]) == key.id && b[|body| + 4..] == digest.value)
  {
    var h, payload := ResponseHeader(req, data, sequence, status), Payload(data);
    body := Covered4(h, payload);
    var digest := mac(key, body);
    if digest.Some? {
      KeyFirst(key.id, digest.value);
      var b := Response(req, data, sequence, status, Some(key), mac);
      assert b == body + (Put32(key.id) + digest.value);
      assert b[|body|..] == Put32(key.id) + digest.value;
    }
  }

  /** The receiver accepts the MAC of a response exactly when the responder could compute one. */
  lemma ResponseAuthenticates(req: Message, data: seq<Byte>, sequence: Word16, status: Word16, key: Key, mac: Mac,
      store: KeyStore)
    requires store(key.id) == Some(key)
    ensures var x := Parse(Response(req, data, sequence, status, Some(key), mac));
            && x.Some?
            && (Verifies(x.value, store, mac) <==>
                mac(key, Covered4(ResponseHeader(req, data, sequence, status), Payload(data))).Some?)
  {
    ResponseParses(req, data, sequence, status, Some(key), mac);
  }

  /** What verifies is signed: the key is known, and the authentication data are the digest of the
      header and the data, padded with zeros to a multiple of four; and nothing else verifies. */
  lemma VerifiedBytes(x: Exchange, store: KeyStore, mac: Mac, body: seq<Byte>)
    requires |body| % 4 == 0 && |EncodeMessage(x.request) + x.data| <= |body| < |EncodeMessage(x.request) + x.data| + 4
    requires body[..12 + |x.data|] == EncodeMessage(x.request) + x.data
    requires forall i :: 12 + |x.data| <= i < |body| ==> body[i] == 0
    ensures Verifies(x, store, mac) <==>
            && x.keyId.Some? && store(x.keyId.value).Some?
            && mac(store(x.keyId.value).value, body) == Some(x.authData)
  {
    assert body == body[..12 + |x.data|] + body[12 + |x.data|..];
    assert body == Covered4(x.request, x.data);
  }

  // ---------- The client ----------

  const READ_SIZE := 512

  /** The request a client sends: version 4, mode 6. */
  function ClientRequest(opcode: Byte, sequence: Word16, associd: Word16): Message {
    Message(4 * 8 + 6, opcode, sequence, 0, associd, 0, 0)
  }

  /** What a client makes of a datagram. */
  datatype Receipt = Malformed | Skipped | ErrorReply(code: nat) | Taken(fragment: Fragment)

  /** The client's checks, in order; it reads no more of a datagram than its buffer holds. */
  function Receive(b: seq<Byte>, asked: Message): Receipt {
    var r := DecodeMessage(if |b| <= READ_SIZE then b else b[..READ_SIZE]);
    if r.None? then Malformed
    else
      var (m, after) := r.value;
      var oc := FromByte(m.opcode);
      if m.sequence != asked.sequence then Skipped
      else if !oc.response then Skipped
      else if oc.op != FromByte(asked.opcode).op then Skipped
      else if m.associd != asked.associd then Skipped
      else if m.liVnMode % 8 != 6 then Skipped
      else if oc.error then ErrorReply(m.status / 256)
      else if m.count > |after| then Malformed
      else Taken(Fragment(m.offset, m.count, after[..m.count], oc.more, m.status, m.associd))
  }

  lemma ResponseDecodes(req: Message, data: seq<Byte>, sequence: Word16, status: Word16, key: Option<Key>, mac: Mac)
    returns (after: seq<Byte>)
    ensures Response(req, data, sequence, status, key, mac)
         == EncodeMessage(ResponseHeader(req, data, sequence, status)) + after
    ensures |Payload(data)| <= |after| && after[..|Payload(data)|] == Payload(data)
  {
    after := Response(req, data, sequence, status, key, mac)[MESSAGE_SIZE..];
  }

  /** Reading a header and what the buffer holds of the rest. */
  lemma DecodeRead(h: Message, after: seq<Byte>)
    ensures var b := EncodeMessage(h) + after;
            var rest := if |after| <= READ_SIZE - 12 then after else after[..READ_SIZE - 12];
            DecodeMessage(if |b| <= READ_SIZE then b else b[..READ_SIZE]) == Some((h, rest))
  {
    var b := EncodeMessage(h) + after;
    var rest := if |after| <= READ_SIZE - 12 then after else after[..READ_SIZE - 12];
    assert (if |b| <= READ_SIZE then b else b[..READ_SIZE]) == EncodeMessage(h) + rest;
    MessageRoundTrip(h, rest);
  }

  /** The client skips a response exactly if it is to another request: the sequence, the operation or the
      association ID differ, or the mode is not 6. It takes the data of any other. */
  lemma ResponseTaken(req: Message, data: seq<Byte>, sequence: Word16, status: Word16, key: Option<Key>, mac: Mac,
      asked: Message)
    ensures Receive(Response(req, data, sequence, status, key, mac), asked) ==
            if sequence != asked.sequence || req.opcode % 32 != asked.opcode % 32 || req.associd != asked.associd
               || req.liVnMode % 8 != 6
            then Skipped
            else Taken(Fragment(0, |Payload(data)|, Payload(data), req.opcode / 32 % 2 == 1 || |data| > 468, status,
                req.associd))
  {
    var h := ResponseHeader(req, data, sequence, status);
    var after := ResponseDecodes(req, data, sequence, status, key, mac);
    DecodeRead(h, after);
    var oc := FromByte(req.opcode);
    OpcodeBijection(Opcode(true, false, oc.more || |data| > MAX_PAYLOAD, oc.op), 0);
    assert after[..|after|] == after;
  }

  /** A datagram without the response flag is never taken. */
  lemma RequestSkipped(m: Message, after: seq<Byte>, asked: Message)
    requires m.opcode < 128
    ensures Receive(EncodeMessage(m) + after, asked) == Skipped
  {
    DecodeRead(m, after);
  }

  /** The server's error response. */
  function ErrorResponse(req: Message, code: Byte): seq<Byte> {
    EncodeMessage(Message(req.liVnMode, ToByte(Opcode(true, true, false, FromByte(req.opcode).op)),
        req.sequence, code as int * 256, req.associd, 0, 0))
  }

  lemma MessageBytes(m: Message)
    ensures var b := EncodeMessage(m);
            && b[0] == m.liVnMode && b[1] == m.opcode
            && b[2] as int * 256 + b[3] as int == m.sequence && b[4] as int * 256 + b[5] as int == m.status
            && b[6] as int * 256 + b[7] as int == m.associd && b[8] as int * 256 + b[9] as int == m.offset
            && b[10] as int * 256 + b[11] as int == m.count
  {
  }

  /** The bytes of a request: version 4 and mode 6, opcode, sequence, association ID, zeros otherwise. */
  lemma RequestBytes(opcode: Byte, sequence: Word16, associd: Word16)
    ensures var b := EncodeMessage(ClientRequest(opcode, sequence, associd));
            && b[0] == 0x26 && b[1] == opcode && b[2] as int * 256 + b[3] as int == sequence
            && b[6] as int * 256 + b[7] as int == associd
            && b[4] == b[5] == b[8] == b[9] == b[10] == b[11] == 0
  {
    MessageBytes(ClientRequest(opcode, sequence, associd));
  }

  /** Those of an error response: response and error flags set, more flag clear, the code in the
      first byte of the status, no data. */
  lemma ErrorBytes(req: Message, code: Byte)
    ensures var b := ErrorResponse(req, code);
            && |b| == 12 && b[0] == req.liVnMode && b[1] == 0xC0 + req.opcode % 32
            && b[2] as int * 256 + b[3] as int == req.sequence && b[4] == code
            && b[6] as int * 256 + b[7] as int == req.associd
            && b[5] == b[8] == b[9] == b[10] == b[11] == 0
  {
    MessageBytes(Message(req.liVnMode, ToByte(Opcode(true, true, false, FromByte(req.opcode).op)),
        req.sequence, code as int * 256, req.associd, 0, 0));
  }

  /** The client that sent the request takes it as an error with the server's code. */
  lemma ErrorReported(opcode: Byte, sequence: Word16, associd: Word16, code: Byte)
    ensures var req := ClientRequest(opcode, sequence, associd);
            Receive(ErrorResponse(req, code), req) == ErrorReply(code)
  {
    var req := ClientRequest(opcode, sequence, associd);
    var oc := FromByte(opcode);
    var h := Message(req.liVnMode, ToByte(Opcode(true, true, false, oc.op)), sequence, code as int * 256, associd, 0,
        0);
    assert EncodeMessage(h) + [] == EncodeMessage(h);
    DecodeRead(h, []);
    OpcodeBijection(Opcode(true, true, false, oc.op), 0);
  }

  /** A single fragment at offset zero that is the last: the collector is complete with its data. */
  lemma SingleFragment(data: seq<Byte>, status: nat, associd: nat, out: seq<Byte>)
    requires |data| <= MAX_PAYLOAD
    ensures var (c, r) := Add(EMPTY, Fragment(0, |data|, data, false, status, associd));
            && r.Ok? && r.value && c.status == Some(status) && c.associd == Some(associd)
            && (Assembled(c, out) <==> out == data)
  {
    var cuts := [0, |data|];
    assert Cut(data, cuts, 0) == data;
    assert PieceFragment(data, cuts, 0, status, associd) == Fragment(0, |data|, data, false, status, associd);
    assert Received(EMPTY, data, cuts, {}, status, associd);
    DeliverOne(EMPTY, data, cuts, {}, 0, status, associd);
    var c := Add(EMPTY, PieceFragment(data, cuts, 0, status, associd)).0;
    CompleteWhenAll(c, data, cuts, {} + {0}, status, associd);
    OnePieceImage(c, data, cuts, status, associd);
    if Assembled(c, out) {
      PieceInjective(out, data);
    }
  }

  lemma OnePieceImage(c: Collector, data: seq<Byte>, cuts: seq<nat>, status: nat, associd: nat)
    requires cuts == [0, |data|] && Received(c, data, cuts, {} + {0}, status, associd)
    ensures Assembled(c, data)
  {
    PartInMessage(c.fragments, data);
    assert 0 in {} + {0};
    assert data != [] ==> Filled(cuts, 0) && cuts[0] in c.fragments && c.fragments[0] == Cut(data, cuts, 0);
    forall x | x in Piece(0, data) ensures x in Image(c.fragments) {
      var i :| 0 <= i < |data| && x == (0 + i, data[i]);
      assert x == (0 + i, c.fragments[0][i]);
    }
  }

  /** A first fragment at offset zero is accepted, and completes the collector exactly if it is the last. */
  lemma FirstFragment(piece: seq<Byte>, more: bool, status: nat, associd: nat)
    requires |piece| <= MAX_PAYLOAD
    ensures var (c, r) := Add(EMPTY, Fragment(0, |piece|, piece, more, status, associd));
            r.Ok? && (r.value <==> !more) && c.status == Some(status) && c.associd == Some(associd)
  {
    if !more {
      SingleFragment(piece, status, associd, piece);
    }
  }

  /** A client that gets the response to its request has the whole answer exactly when the request's
      more bit was clear and the data fitted; then it assembles the server's data, with its status
      and association ID. */
  lemma ClientReceives(opcode: Byte, sequence: Word16, associd: Word16, data: seq<Byte>, status: Word16,
      key: Option<Key>, mac: Mac, out: seq<Byte>)
    ensures var req := ClientRequest(opcode, sequence, associd);
            var x := Receive(Response(req, data, req.sequence, status, key, mac), req);
            && x.Taken?
            && var (c, r) := Add(EMPTY, x.fragment);
               && r.Ok? && (r.value <==> opcode / 32 % 2 == 0 && |data| <= 468)
               && c.status == Some(status) && c.associd == Some(associd)
               && (r.value ==> (Assembled(c, out) <==> out == data))
  {
    ResponseTaken(ClientRequest(opcode, sequence, associd), data, sequence, status, key, mac,
      ClientRequest(opcode, sequence, associd));
    FirstFragment(Payload(data), opcode / 32 % 2 == 1 || |data| > 468, status, associd);
    if opcode / 32 % 2 == 0 && |data| <= 468 {
      SingleFragment(data, status, associd, out);
    }
  }
}
