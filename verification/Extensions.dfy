/** NTP extension fields: the encoder, and the two walkers that find their boundaries. */
module Extensions {
  import opened Wrappers
  import opened Bytes

  const MAX_EXTENSION := 4096
  const MAX_TOTAL_SIZE := 65535

  datatype Field = Field(fieldType: Word16, payload: seq<Byte>)

  /** The 16-bit length word: payload and header, wrapping. */
  function LengthWord(payload: seq<Byte>): Word16 {
    (|payload| % 0x1_0000 + 4) % 0x1_0000
  }

  function EncodeField(f: Field): seq<Byte> {
    var body := Put16(f.fieldType) + Put16(LengthWord(f.payload)) + f.payload;
    body + Zeros(PadLength(|body|))
  }

  method Encode(f: Field) returns (buf: seq<Byte>)
    ensures buf == EncodeField(f)
    ensures |buf| % 4 == 0
  {
    buf := Put16(f.fieldType);
    buf := buf + Put16(LengthWord(f.payload));
    buf := buf + f.payload;
    buf := Pad(buf);
  }

  /** One field and the remaining bytes. */
  function Decode(data: seq<Byte>): (r: Option<(Field, seq<Byte>)>)
    ensures r.Some? ==> |r.value.1| < |data|
  {
    if |data| < 4 then None
    else
      var length := Get16(data[2..]);
      if length < 4 || length > MAX_EXTENSION || |data| < Align4(length) then None
      else Some((Field(Get16(data), data[4..length]), data[Align4(length)..]))
  }

  /** All fields until one does not decode or the payloads exceed the bound. */
  function DecodeFrom(data: seq<Byte>, total: nat): seq<Field>
    decreases |data|
  {
    var r := Decode(data);
    if r.None? then []
    else
      var (f, rest) := r.value;
      if total + |f.payload| > MAX_TOTAL_SIZE then []
      else [f] + DecodeFrom(rest, total + |f.payload|)
  }

  method DecodeAll(data: seq<Byte>) returns (fields: seq<Field>)
    ensures fields == DecodeFrom(data, 0)
  {
    fields := [];
    var remain := data;
    var total: nat := 0;
    while remain != []
      invariant DecodeFrom(data, 0) == fields + DecodeFrom(remain, total)
      decreases |remain|
    {
      var r := Decode(remain);
      if r.None? {
        break;
      }
      total := total + |r.value.0.payload|;
      if total > MAX_TOTAL_SIZE {
        return;
      }
      fields := fields + [r.value.0];
      remain := r.value.1;
    }
  }

  /** How far the packet walker follows extension fields. */
  function ExtensionEnd(data: seq<Byte>): (n: nat)
    ensures n <= |data|
    decreases |data|
  {
    if |data| < 4 then 0
    else
      var length := Get16(data[2..]);
      if length < 4 || length > |data| || Align4(length) > |data| then 0
      else Align4(length) + ExtensionEnd(data[Align4(length)..])
  }

  // ---------- Encoding and decoding ----------

  function EncodeAll(fs: seq<Field>): seq<Byte> {
    if fs == [] then [] else EncodeField(fs[0]) + EncodeAll(fs[1..])
  }

  lemma FieldLayout(f: Field, tail: seq<Byte>)
    ensures var data := EncodeField(f) + tail;
            && |EncodeField(f)| == Align4(4 + |f.payload|)
            && Get16(data) == f.fieldType && Get16(data[2..]) == LengthWord(f.payload)
            && data[4..4 + |f.payload|] == f.payload
            && data[|EncodeField(f)|..] == tail
  {
    var data := EncodeField(f) + tail;
    assert data[0] == Put16(f.fieldType)[0] && data[1] == Put16(f.fieldType)[1];
    assert data[2..][0] == Put16(LengthWord(f.payload))[0] && data[2..][1] == Put16(LengthWord(f.payload))[1];
  }

  /** The bytes of a field: type, length with the four bytes of the header, payload, and zeros up to a
      multiple of four. */
  lemma FieldBytes(f: Field)
    requires |f.payload| < 65532
    ensures var b, n := EncodeField(f), 4 + |f.payload|;
            && n <= |b| < n + 4 && |b| % 4 == 0
            && b[0] as int * 256 + b[1] as int == f.fieldType && b[2] as int * 256 + b[3] as int == n
            && b[4..n] == f.payload && forall i :: n <= i < |b| ==> b[i] == 0
  {
    var b := EncodeField(f);
    FieldLayout(f, []);
    assert b + [] == b;
  }

  /** A single field survives exactly when its payload fits the decoder's limit. */
  lemma FieldRoundTrip(f: Field, tail: seq<Byte>)
    ensures Decode(EncodeField(f) + tail) == Some((f, tail)) <==> |f.payload| <= 4092
  {
    FieldLayout(f, tail);
    var r := Decode(EncodeField(f) + tail);
    if |f.payload| > MAX_EXTENSION - 4 && r.Some? {
      assert |r.value.0.payload| == LengthWord(f.payload) - 4;
      assert |r.value.0.payload| < |f.payload|;
    }
  }

  ghost predicate AllFit(fs: seq<Field>, limit: nat) {
    forall i :: 0 <= i < |fs| ==> |fs[i].payload| <= limit
  }

  function TotalPayload(fs: seq<Field>): nat {
    if fs == [] then 0 else |fs[0].payload| + TotalPayload(fs[1..])
  }

  /** The longest prefix whose payloads stay within the bound. */
  function Within(fs: seq<Field>, total: nat): seq<Field> {
    if fs == [] || total + |fs[0].payload| > MAX_TOTAL_SIZE then []
    else [fs[0]] + Within(fs[1..], total + |fs[0].payload|)
  }

  /** Decoding concatenated encodings gives back the fields, up to the bound on the total. */
  lemma {:induction false} ListRoundTrip(fs: seq<Field>, total: nat)
    requires AllFit(fs, MAX_EXTENSION - 4)
    ensures DecodeFrom(EncodeAll(fs), total) == Within(fs, total)
    decreases |fs|
  {
    if fs != [] {
      FieldRoundTrip(fs[0], EncodeAll(fs[1..]));
      ListRoundTrip(fs[1..], total + |fs[0].payload|);
    }
  }

  lemma {:induction false} WithinIsAll(fs: seq<Field>, total: nat)
    requires total <= MAX_TOTAL_SIZE
    ensures Within(fs, total) == fs <==> total + TotalPayload(fs) <= MAX_TOTAL_SIZE
    decreases |fs|
  {
    if fs != [] {
      assert fs == [fs[0]] + fs[1..];
      if total + |fs[0].payload| <= MAX_TOTAL_SIZE {
        WithinIsAll(fs[1..], total + |fs[0].payload|);
      }
    }
  }

  /** Hence a list of decodable fields survives exactly when the payloads total at most 65535 bytes. */
  lemma {:induction false} DecodeAllInverts(fs: seq<Field>)
    requires AllFit(fs, 4092)
    ensures DecodeFrom(EncodeAll(fs), 0) == fs <==> TotalPayload(fs) <= 65535
  {
    ListRoundTrip(fs, 0);
    WithinIsAll(fs, 0);
  }

  // ---------- The packet walker ----------

  lemma {:induction false} WalkerStep(f: Field, rest: seq<Byte>)
    requires |f.payload| <= 65531
    ensures ExtensionEnd(EncodeField(f) + rest) == |EncodeField(f)| + ExtensionEnd(rest)
  {
    var data := EncodeField(f) + rest;
    FieldLayout(f, rest);
    assert Get16(data[2..]) == 4 + |f.payload|;
  }

  /** The walker passes exactly over the encoded fields, then judges the rest on its own. */
  lemma {:induction false} WalkerPasses(fs: seq<Field>, tail: seq<Byte>)
    requires AllFit(fs, 65531)
    ensures ExtensionEnd(EncodeAll(fs) + tail) == |EncodeAll(fs)| + ExtensionEnd(tail)
    decreases |fs|
  {
    if fs == [] {
      assert EncodeAll(fs) + tail == tail;
    } else {
      var rest := EncodeAll(fs[1..]) + tail;
      WalkerPasses(fs[1..], tail);
      WalkerStep(fs[0], rest);
      assert EncodeAll(fs) + tail == EncodeField(fs[0]) + rest;
    }
  }

  lemma {:induction false} DecodeWithinWalk(data: seq<Byte>)
    ensures var e := data[..ExtensionEnd(data)];
            && (Decode(data).None? ==> Decode(e).None?)
            && (Decode(data).Some? ==>
                  && Decode(e).Some? && Decode(e).value.0 == Decode(data).value.0
                  && Decode(e).value.1 == Decode(data).value.1[..ExtensionEnd(Decode(data).value.1)])
  {
    var n := ExtensionEnd(data);
    var e := data[..n];
    if |data| >= 4 && n >= 4 {
      assert e[0] == data[0] && e[1] == data[1];
      assert e[2..][0] == data[2..][0] && e[2..][1] == data[2..][1];
      assert Get16(e[2..]) == Get16(data[2..]) && Get16(e) == Get16(data);
      var length := Get16(data[2..]);
      if Decode(data).Some? {
        var p := Align4(length);
        assert n == p + ExtensionEnd(data[p..]);
        assert e[4..length] == data[4..length];
        assert e[p..] == data[p..][..n - p];
      }
    }
  }

  /** The two walkers agree on every byte string: decoding the region that the packet walker
      delimits finds the same fields as decoding everything. */
  lemma {:induction false} WalkersAgree(data: seq<Byte>, total: nat)
    ensures DecodeFrom(data[..ExtensionEnd(data)], total) == DecodeFrom(data, total)
    decreases |data|
  {
    DecodeWithinWalk(data);
    if Decode(data).Some? {
      var (f, rest) := Decode(data).value;
      WalkersAgree(rest, total + |f.payload|);
    }
  }
}
