// The frame codec of the relay connection: a 16-byte header and a bounded payload.
module RelayFrames {
  import opened Text
  import opened Bytes

  const PROTOCOL_VERSION: Byte := 1
  const HEADER_BYTES := 16
  const MAX_DATA_PAYLOAD := 64 * 1024
  const MAX_CONTROL_PAYLOAD := 16 * 1024

  datatype FrameType =
    | ServerHello | ClientHello | Challenge | ServerAuth | ClientAuth | AuthOk | Error
    | Open | OpenOk | Data | Fin | Reset
    | Ping | Pong

  function Code(t: FrameType): Byte {
    match t
    case ServerHello => 0x01
    case ClientHello => 0x02
    case Challenge => 0x03
    case ServerAuth => 0x04
    case ClientAuth => 0x05
    case AuthOk => 0x06
    case Error => 0x07
    case Open => 0x10
    case OpenOk => 0x11
    case Data => 0x12
    case Fin => 0x13
    case Reset => 0x14
    case Ping => 0x20
    case Pong => 0x21
  }

  function FromCode(b: Byte): Option<FrameType> {
    match b
    case 0x01 => Some(ServerHello)
    case 0x02 => Some(ClientHello)
    case 0x03 => Some(Challenge)
    case 0x04 => Some(ServerAuth)
    case 0x05 => Some(ClientAuth)
    case 0x06 => Some(AuthOk)
    case 0x07 => Some(Error)
    case 0x10 => Some(Open)
    case 0x11 => Some(OpenOk)
    case 0x12 => Some(Data)
    case 0x13 => Some(Fin)
    case 0x14 => Some(Reset)
    case 0x20 => Some(Ping)
    case 0x21 => Some(Pong)
    case _ => None
  }

  predicate IsStream(t: FrameType) {
    t.Open? || t.OpenOk? || t.Data? || t.Fin? || t.Reset?
  }

  function MaxPayload(t: FrameType): nat {
    if t.Data? then MAX_DATA_PAYLOAD else MAX_CONTROL_PAYLOAD
  }

  datatype Frame = Frame(kind: FrameType, streamId: U64, payload: seq<Byte>)

  datatype ReadError =
    | HeaderUnreadable | HeaderIncompatible | UnknownType | BadStreamId | PayloadTooLarge | PayloadUnreadable

  datatype Read = Ok(frame: Frame, rest: seq<Byte>) | Err(error: ReadError)

  // ---- The codec on byte strings ----

  function HeaderOf(f: Frame): (h: seq<Byte>)
    ensures |h| == HEADER_BYTES
  {
    [PROTOCOL_VERSION, Code(f.kind), 0, 0] + BigEndian(f.streamId, 8) + BigEndian(|f.payload|, 4)
  }

  predicate Writable(f: Frame) {
    |f.payload| <= MaxPayload(f.kind) && (IsStream(f.kind) <==> f.streamId != 0)
  }

  // None when the writer refuses the frame.
  function Encode(f: Frame): Option<seq<Byte>> {
    if Writable(f) then Some(HeaderOf(f) + f.payload) else None
  }

  function Decode(s: seq<Byte>): Read {
    if |s| < HEADER_BYTES then Err(HeaderUnreadable)
    else if s[0] != PROTOCOL_VERSION || s[2] != 0 || s[3] != 0 then Err(HeaderIncompatible)
    else
      match FromCode(s[1])
      case None => Err(UnknownType)
      case Some(kind) =>
        var streamId := FromBigEndian(s[4..12]);
        var length := FromBigEndian(s[12..16]);
        FromBigEndianFits(s[4..12]);
        Widths();
        if IsStream(kind) != (streamId != 0) then Err(BadStreamId)
        else if length > MaxPayload(kind) then Err(PayloadTooLarge)
        else if |s| < HEADER_BYTES + length then Err(PayloadUnreadable)
        else Ok(Frame(kind, streamId, s[HEADER_BYTES..HEADER_BYTES + length]), s[HEADER_BYTES + length..])
  }

  // ---- The codec is a bijection ----

  lemma CodesAreInverse(t: FrameType, b: Byte)
    ensures FromCode(Code(t)) == Some(t)
    ensures FromCode(b).Some? ==> Code(FromCode(b).value) == b
  {
  }

  lemma HeaderFields(f: Frame, tail: seq<Byte>)
    requires |f.payload| < 0x1_0000_0000
    ensures var s := HeaderOf(f) + tail;
            && s[0] == PROTOCOL_VERSION && s[1] == Code(f.kind) && s[2] == 0 && s[3] == 0
            && s[16..] == tail
            && FromBigEndian(s[4..12]) == f.streamId && FromBigEndian(s[12..16]) == |f.payload|
  {
    var s := HeaderOf(f) + tail;
    Widths();
    BigEndianRoundTrip(f.streamId, 8);
    BigEndianRoundTrip(|f.payload|, 4);
    assert s[4..12] == BigEndian(f.streamId, 8);
    assert s[12..16] == BigEndian(|f.payload|, 4);
  }

  const CODES: seq<(FrameType, int)> := [
    (ServerHello, 0x01), (ClientHello, 0x02), (Challenge, 0x03), (ServerAuth, 0x04), (ClientAuth, 0x05),
    (AuthOk, 0x06), (Error, 0x07),
    (Open, 0x10), (OpenOk, 0x11), (Data, 0x12), (Fin, 0x13), (Reset, 0x14),
    (Ping, 0x20), (Pong, 0x21)]

  lemma CodesAre(t: FrameType)
    ensures (t, Code(t)) in CODES
  {
    var i := match t
      case ServerHello => 0 case ClientHello => 1 case Challenge => 2 case ServerAuth => 3 case ClientAuth => 4
      case AuthOk => 5 case Error => 6 case Open => 7 case OpenOk => 8 case Data => 9 case Fin => 10 case Reset => 11
      case Ping => 12 case Pong => 13;
    assert CODES[i] == (t, Code(t));
  }

  // Which frames there are, and their bytes: version, code, two zeros, stream id and length
  // with the most significant byte first, payload.
  lemma WireFormat(f: Frame)
    ensures Encode(f).Some? <==>
            && |f.payload| <= (if f.kind == Data then 65_536 else 16_384)
            && (f.kind in {Open, OpenOk, Data, Fin, Reset} <==> f.streamId != 0)
    ensures Encode(f).Some? ==>
              var e := Encode(f).value;
              && |e| == 16 + |f.payload| && e[16..] == f.payload
              && e[0] == 1 && (f.kind, e[1]) in CODES && e[2] == 0 && e[3] == 0
              && (forall i :: 4 <= i < 12 ==> e[i] == f.streamId / Pow256(11 - i) % 256)
              && (forall i :: 12 <= i < 16 ==> e[i] == |f.payload| / Pow256(15 - i) % 256)
  {
    hide BigEndian, Pow256, Code;
    if Encode(f).Some? {
      CodesAre(f.kind);
      var e := Encode(f).value;
      forall i | 4 <= i < 12 ensures e[i] == f.streamId / Pow256(11 - i) % 256 {
        BigEndianByte(f.streamId, 8, i - 4);
      }
      forall i | 12 <= i < 16 ensures e[i] == |f.payload| / Pow256(15 - i) % 256 {
        BigEndianByte(|f.payload|, 4, i - 12);
      }
    }
  }

  // Reading what was written gives the frame back and leaves what follows it.
  lemma ReadWritten(f: Frame, rest: seq<Byte>)
    requires Encode(f).Some?
    ensures Decode(Encode(f).value + rest) == Ok(f, rest)
  {
    hide BigEndian, FromBigEndian;
    var s := HeaderOf(f) + (f.payload + rest);
    assert Encode(f).value + rest == s;
    HeaderFields(f, f.payload + rest);
    CodesAreInverse(f.kind, 0);
    assert s[HEADER_BYTES..HEADER_BYTES + |f.payload|] == f.payload by {
      assert s[HEADER_BYTES..][..|f.payload|] == s[HEADER_BYTES..HEADER_BYTES + |f.payload|];
    }
    assert s[HEADER_BYTES + |f.payload|..] == s[HEADER_BYTES..][|f.payload|..] == rest;
  }

  // Writing what was read gives the same bytes.
  lemma WriteRead(s: seq<Byte>)
    requires Decode(s).Ok?
    ensures Encode(Decode(s).frame).Some? && Encode(Decode(s).frame).value + Decode(s).rest == s
  {
    hide BigEndian, FromBigEndian;
    var r := Decode(s);
    CodesAreInverse(r.frame.kind, s[1]);
    FromBigEndianRoundTrip(s[4..12]);
    FromBigEndianRoundTrip(s[12..16]);
    assert s[..4] == [s[0], s[1], s[2], s[3]];
    assert s == s[..4] + s[4..12] + s[12..16] + s[16..16 + |r.frame.payload|] + r.rest;
  }

  // The writer accepts exactly the frames that the reader can produce.
  lemma WriterMatchesReader(f: Frame)
    ensures Encode(f).Some? <==> exists s :: Decode(s).Ok? && Decode(s).frame == f
  {
    if Encode(f).Some? {
      ReadWritten(f, []);
      assert Decode(Encode(f).value + []).frame == f;
    }
    if s :| Decode(s).Ok? && Decode(s).frame == f {
      WriteRead(s);
    }
  }

  // No encoding is the beginning of another one.
  lemma PrefixFree(f: Frame, g: Frame, tail: seq<Byte>)
    requires Encode(f).Some? && Encode(g).Some? && Encode(f).value + tail == Encode(g).value
    ensures f == g && tail == []
  {
    ReadWritten(f, tail);
    ReadWritten(g, []);
    assert Encode(g).value + [] == Encode(g).value;
  }

  // ---- Sequences of frames ----

  ghost predicate AllWritable(fs: seq<Frame>) {
    forall i :: 0 <= i < |fs| ==> Writable(fs[i])
  }

  ghost function EncodeAll(fs: seq<Frame>): seq<Byte>
    requires AllWritable(fs)
  {
    if fs == [] then [] else Encode(fs[0]).value + EncodeAll(fs[1..])
  }

  // Reads frames until the bytes are used up; the error is the one of the first bad frame.
  ghost function DecodeAll(s: seq<Byte>): (seq<Frame>, Option<ReadError>)
    decreases |s|
  {
    if s == [] then ([], None)
    else
      match Decode(s)
      case Err(e) => ([], Some(e))
      case Ok(f, rest) =>
        var (fs, e) := DecodeAll(rest);
        ([f] + fs, e)
  }

  // A written sequence of frames decodes to itself, so no two sequences share their bytes.
  lemma {:induction false} SequencesRoundTrip(fs: seq<Frame>)
    requires AllWritable(fs)
    ensures DecodeAll(EncodeAll(fs)) == (fs, None)
    decreases |fs|
  {
    hide Decode, HeaderOf;
    if fs != [] {
      SequencesRoundTrip(fs[1..]);
      ReadWritten(fs[0], EncodeAll(fs[1..]));
      assert fs == [fs[0]] + fs[1..];
    }
  }

  // Conversely every byte string that decodes completely was written from its frames.
  lemma {:induction false} StreamsRoundTrip(s: seq<Byte>)
    requires DecodeAll(s).1 == None
    ensures AllWritable(DecodeAll(s).0) && EncodeAll(DecodeAll(s).0) == s
    decreases |s|
  {
    hide Decode, HeaderOf;
    if s != [] {
      WriteRead(s);
      ShorterRest(s);
      StreamsRoundTrip(Decode(s).rest);
      var fs := DecodeAll(s).0;
      assert fs[1..] == DecodeAll(Decode(s).rest).0;
    }
  }

  lemma ShorterRest(s: seq<Byte>)
    requires Decode(s).Ok?
    ensures |Decode(s).rest| < |s|
  {
  }

  // ---- The reader and the writer ----

  // read_frame: the outcome depends on the bytes alone, not on the pieces they come in.
  method ReadFrame(source: ByteSource) returns (r: Read)
    requires source.Valid()
    modifies source
    ensures source.Valid()
    ensures r.Err? <==> Decode(old(source.Pending())).Err?
    ensures r.Err? ==> r == Decode(old(source.Pending()))
    ensures r.Ok? ==> r.frame == Decode(old(source.Pending())).frame
    ensures r.Ok? ==> source.Pending() == Decode(old(source.Pending())).rest
  {
    ghost var s := source.Pending();
    var read := source.ReadExact(HEADER_BYTES);
    if read.None? { return Err(HeaderUnreadable); }
    var header := read.value;
    if header[0] != PROTOCOL_VERSION || header[2] != 0 || header[3] != 0 { return Err(HeaderIncompatible); }
    var kind := FromCode(header[1]);
    if kind.None? { return Err(UnknownType); }
    assert header[4..12] == s[4..12] && header[12..16] == s[12..16];
    var streamId := FromBigEndian(header[4..12]);
    FromBigEndianFits(header[4..12]);
    Widths();
    if IsStream(kind.value) != (streamId != 0) { return Err(BadStreamId); }
    var length := FromBigEndian(header[12..16]);
    if length > MaxPayload(kind.value) { return Err(PayloadTooLarge); }
    var payload: seq<Byte> := [];
    if length != 0 {
      read := source.ReadExact(length);
      if read.None? { return Err(PayloadUnreadable); }
      payload := read.value;
    }
    assert payload == s[HEADER_BYTES..HEADER_BYTES + length];
    r := Ok(Frame(kind.value, streamId, payload), []);
  }

  // Reads frame after frame until nothing is pending, as the session's loop does: any sequence
  // of frames comes out the same however its bytes are cut.
  method ReadFrames(source: ByteSource) returns (frames: seq<Frame>, error: Option<ReadError>)
    requires source.Valid()
    modifies source
    ensures source.Valid()
    ensures (frames, error) == DecodeAll(old(source.Pending()))
  {
    hide Decode, DecodeAll, Joined;
    ghost var all := source.Pending();
    frames, error := [], None;
    assert [] + DecodeAll(all).0 == DecodeAll(all).0;
    while source.pieces != []
      invariant source.Valid()
      invariant DecodeAll(all) == (frames + DecodeAll(source.Pending()).0, DecodeAll(source.Pending()).1)
      decreases |source.Pending()|
    {
      ghost var here := source.Pending();
      PendingIsEmptyIff(source);
      DecodeNext(here);
      var r := ReadFrame(source);
      if r.Err? {
        assert frames + [] == frames;
        return frames, Some(r.error);
      }
      ShorterRest(here);
      assert frames + ([r.frame] + DecodeAll(source.Pending()).0) == frames + [r.frame] + DecodeAll(source.Pending()).0;
      frames := frames + [r.frame];
    }
    PendingIsEmptyIff(source);
    DecodeNext([]);
    assert frames + [] == frames;
  }

  lemma PendingIsEmptyIff(source: ByteSource)
    requires source.Valid()
    ensures source.Pending() == [] <==> source.pieces == []
  {
  }

  lemma DecodeNext(s: seq<Byte>)
    ensures s == [] ==> DecodeAll(s) == ([], None)
    ensures s != [] && Decode(s).Err? ==> DecodeAll(s) == ([], Some(Decode(s).error))
    ensures s != [] && Decode(s).Ok? ==>
              DecodeAll(s) == ([Decode(s).frame] + DecodeAll(Decode(s).rest).0, DecodeAll(Decode(s).rest).1)
  {
    hide Decode;
  }

  class ByteSink {
    var written: seq<Byte>

    method WriteAll(bytes: seq<Byte>)
      modifies this
      ensures written == old(written) + bytes
    {
      written := written + bytes;
    }
  }

  // write_frame: the header is filled field by field.
  method WriteFrame(sink: ByteSink, f: Frame) returns (ok: bool)
    modifies sink
    ensures ok <==> Encode(f).Some?
    ensures sink.written == if ok then old(sink.written) + Encode(f).value else old(sink.written)
  {
    var max := if f.kind.Data? then MAX_DATA_PAYLOAD else MAX_CONTROL_PAYLOAD;
    if |f.payload| > max || IsStream(f.kind) != (f.streamId != 0) { return false; }
    var header := new Byte[HEADER_BYTES](_ => 0);
    header[0] := PROTOCOL_VERSION;
    header[1] := Code(f.kind);
    var id, length := BigEndian(f.streamId, 8), BigEndian(|f.payload|, 4);
    forall i | 0 <= i < 8 { header[4 + i] := id[i]; }
    forall i | 0 <= i < 4 { header[12 + i] := length[i]; }
    assert header[..] == HeaderOf(f);
    sink.WriteAll(header[..]);
    if f.payload != [] {
      sink.WriteAll(f.payload);
    }
    ok := true;
  }
}
