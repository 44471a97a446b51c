// The access grant: issued by the relay side, verified at the connector's door. Hashing and
// signatures are parameters; all that is used of them is that verifying accepts what signing
// made, and their output lengths.
module AccessGrant {
  import opened Text
  import opened Bytes
  import opened Base64Url

  const GRANT_VERSION: Byte := 1
  const TRANSPORT_PROTOCOL_VERSION := 1
  const SERVER_ID_BYTES := 32
  const DEVICE_ID_BYTES := 16
  const PUBLIC_KEY_BYTES := 32
  const GRANT_ID_BYTES := 16
  const SIGNATURE_BYTES := 64
  const GRANT_UNSIGNED_BYTES := 1 + SERVER_ID_BYTES + DEVICE_ID_BYTES + PUBLIC_KEY_BYTES + GRANT_ID_BYTES + 8 + 2
  const GRANT_BYTES := GRANT_UNSIGNED_BYTES + SIGNATURE_BYTES
  const GRANT_FUTURE_SKEW_SECONDS := 5 * 60
  const U64_MAX := 0xFFFF_FFFF_FFFF_FFFF

  // ASCII text as bytes
  function Ascii(s: string): (b: seq<Byte>)
    requires forall i :: 0 <= i < |s| ==> s[i] as int < 256
    ensures |b| == |s| && forall i :: 0 <= i < |s| ==> b[i] == s[i] as int
  {
    seq(|s|, i requires 0 <= i < |s| => s[i] as int)
  }

  function ServerIdDomain(): seq<Byte> { Ascii("baia-server-id-v1") + [0] }

  function GrantDomain(): seq<Byte> { Ascii("baia-relay-access-grant-v1") + [0] }

  datatype Crypto = Crypto(
    hash: seq<Byte> -> seq<Byte>,
    sign: (seq<Byte>, seq<Byte>) -> seq<Byte>,             // private key, message
    publicKey: seq<Byte> -> seq<Byte>,                      // of a private key
    verify: (seq<Byte>, seq<Byte>, seq<Byte>) -> bool)      // public key, message, signature

  ghost predicate Sound(c: Crypto) {
    && (forall m :: |c.hash(m)| == SERVER_ID_BYTES)
    && (forall k, m :: |c.sign(k, m)| == SIGNATURE_BYTES && c.verify(c.publicKey(k), m, c.sign(k, m)))
  }

  function DeriveServerId(c: Crypto, publicKey: seq<Byte>): seq<Byte> {
    c.hash(ServerIdDomain() + publicKey)
  }

  // ---- Layout ----

  datatype Fields = Fields(serverId: seq<Byte>, deviceId: seq<Byte>, deviceKey: seq<Byte>, grantId: seq<Byte>,
    issuedAt: U64)

  ghost predicate Sized(f: Fields) {
    && |f.serverId| == SERVER_ID_BYTES && |f.deviceId| == DEVICE_ID_BYTES
    && |f.deviceKey| == PUBLIC_KEY_BYTES && |f.grantId| == GRANT_ID_BYTES
  }

  ghost function Unsigned(f: Fields): seq<Byte> {
    [GRANT_VERSION] + f.serverId + f.deviceId + f.deviceKey + f.grantId
    + BigEndian(f.issuedAt, 8) + BigEndian(TRANSPORT_PROTOCOL_VERSION, 2)
  }

  // Uuid::to_string: lower-case hexadecimal, hyphens after 4, 6, 8 and 10 bytes
  function HexDigit(n: nat): char
    requires n < 16
  {
    if n < 10 then (n + '0' as int) as char else (n - 10 + 'a' as int) as char
  }

  function Hex(b: seq<Byte>): (s: string)
    ensures |s| == 2 * |b|
  {
    if b == [] then "" else [HexDigit(b[0] / 16), HexDigit(b[0] % 16)] + Hex(b[1..])
  }

  function UuidText(b: seq<Byte>): string
    requires |b| == DEVICE_ID_BYTES
  {
    Hex(b[..4]) + "-" + Hex(b[4..6]) + "-" + Hex(b[6..8]) + "-" + Hex(b[8..10]) + "-" + Hex(b[10..])
  }

  const HEX_DIGITS := "0123456789abcdef"

  lemma {:induction false} HexAt(b: seq<Byte>, i: nat)
    requires i < |b|
    ensures Hex(b)[2 * i] == HEX_DIGITS[b[i] / 16] && Hex(b)[2 * i + 1] == HEX_DIGITS[b[i] % 16]
  {
    if i > 0 {
      HexAt(b[1..], i - 1);
      assert Hex(b)[2..] == Hex(b[1..]);
    }
  }

  // The text of section 4 of RFC 9562: 36 characters, hyphens at four places, and the two
  // digits of byte i behind those of the bytes and the hyphens before it.
  lemma UuidTextLayout(b: seq<Byte>, i: nat)
    requires |b| == DEVICE_ID_BYTES && i < DEVICE_ID_BYTES
    ensures var t := UuidText(b);
            && |t| == 36 && t[8] == t[13] == t[18] == t[23] == '-'
            && var at := 2 * i + if i < 4 then 0 else if i < 6 then 1 else if i < 8 then 2 else if i < 10 then 3 else 4;
               t[at] == HEX_DIGITS[b[i] / 16] && t[at + 1] == HEX_DIGITS[b[i] % 16]
  {
    hide Hex;
    if i < 4 { HexAt(b[..4], i); }
    else if i < 6 { HexAt(b[4..6], i - 4); }
    else if i < 8 { HexAt(b[6..8], i - 6); }
    else if i < 10 { HexAt(b[8..10], i - 8); }
    else { HexAt(b[10..], i - 10); }
  }

  lemma {:induction false} HexIsInjective(a: seq<Byte>, b: seq<Byte>)
    requires |a| == |b| && Hex(a) == Hex(b)
    ensures a == b
  {
    if a != [] {
      assert Hex(a)[0] == Hex(b)[0] && Hex(a)[1] == Hex(b)[1];
      assert Hex(a)[2..] == Hex(a[1..]) && Hex(b)[2..] == Hex(b[1..]);
      HexIsInjective(a[1..], b[1..]);
      assert a == [a[0]] + a[1..] && b == [b[0]] + b[1..];
    }
  }

  // Different devices have different texts.
  lemma UuidTextIsInjective(a: seq<Byte>, b: seq<Byte>)
    requires |a| == |b| == DEVICE_ID_BYTES && UuidText(a) == UuidText(b)
    ensures a == b
  {
    hide Hex;
    var s, t := UuidText(a), UuidText(b);
    assert s[..8] == Hex(a[..4]) && t[..8] == Hex(b[..4]);
    assert s[9..13] == Hex(a[4..6]) && t[9..13] == Hex(b[4..6]);
    assert s[14..18] == Hex(a[6..8]) && t[14..18] == Hex(b[6..8]);
    assert s[19..23] == Hex(a[8..10]) && t[19..23] == Hex(b[8..10]);
    assert s[24..] == Hex(a[10..]) && t[24..] == Hex(b[10..]);
    HexIsInjective(a[..4], b[..4]);
    HexIsInjective(a[4..6], b[4..6]);
    HexIsInjective(a[6..8], b[6..8]);
    HexIsInjective(a[8..10], b[8..10]);
    HexIsInjective(a[10..], b[10..]);
    assert a == a[..4] + a[4..6] + a[6..8] + a[8..10] + a[10..];
    assert b == b[..4] + b[4..6] + b[6..8] + b[8..10] + b[10..];
  }

  // ---- Issuing and verifying, as functions ----

  // Uuid::parse_str: what is used of it is that it gives 16 bytes and reads its own text.
  type UuidParser = string -> Option<seq<Byte>>

  ghost predicate ReadsUuids(parse: UuidParser) {
    && (forall t :: parse(t).Some? ==> |parse(t).value| == DEVICE_ID_BYTES)
    && (forall b :: |b| == DEVICE_ID_BYTES ==> parse(UuidText(b)) == Some(b))
  }

  function ServerIdText(serverId: seq<Byte>): string {
    "srv1_" + Encode(serverId)
  }

  // What the caller of issue_access_grant passes, and the id and time drawn inside
  datatype Request = Request(deviceId: string, deviceKey: string, grantId: seq<Byte>, issuedAt: U64)

  datatype IssueError = BadDeviceId | BadDeviceKey | BadKeyLength

  datatype Issuing = Issued(serverId: string, grant: string) | NotIssued(error: IssueError)

  ghost function Issue(c: Crypto, parse: UuidParser, privateKey: seq<Byte>, r: Request): Issuing {
    if parse(r.deviceId).None? then NotIssued(BadDeviceId)
    else
      match Decode(Trim(r.deviceKey))
      case None => NotIssued(BadDeviceKey)
      case Some(deviceKey) =>
        if |deviceKey| != PUBLIC_KEY_BYTES then NotIssued(BadKeyLength)
        else
          var serverId := DeriveServerId(c, c.publicKey(privateKey));
          var unsigned := Unsigned(Fields(serverId, parse(r.deviceId).value, deviceKey, r.grantId, r.issuedAt));
          Issued(ServerIdText(serverId), Encode(unsigned + c.sign(privateKey, GrantDomain() + unsigned)))
  }

  datatype Verified = Verified(deviceId: string, deviceKey: seq<Byte>, issuedAt: nat)

  datatype GrantError = BadText | BadVersion | OtherServer | BadTimestamp | BadProtocol | BadSignature

  datatype Verdict = Accepted(grant: Verified) | Rejected(error: GrantError)

  function SaturatingAdd(a: U64, b: U64): U64 {
    if a + b > U64_MAX then U64_MAX else a + b
  }

  // The grant as verify_access_grant cuts it.
  function Verify(c: Crypto, text: string, serverKey: seq<Byte>, now: U64): Verdict {
    match DecodeCanonical(text, GRANT_BYTES)
    case None => Rejected(BadText)
    case Some(grant) =>
      CanonicalIff(text, GRANT_BYTES, grant);
      var unsigned, signature := grant[..GRANT_UNSIGNED_BYTES], grant[GRANT_UNSIGNED_BYTES..];
      var issuedAt := FromBigEndian(unsigned[97..105]);
      if unsigned[0] != GRANT_VERSION then Rejected(BadVersion)
      else if unsigned[1..33] != DeriveServerId(c, serverKey) then Rejected(OtherServer)
      else if issuedAt == 0 || issuedAt > SaturatingAdd(now, GRANT_FUTURE_SKEW_SECONDS) then Rejected(BadTimestamp)
      else if FromBigEndian(unsigned[105..107]) != TRANSPORT_PROTOCOL_VERSION then Rejected(BadProtocol)
      else if !c.verify(serverKey, GrantDomain() + unsigned, signature) then Rejected(BadSignature)
      else Accepted(Verified(UuidText(unsigned[33..49]), unsigned[49..81], issuedAt))
  }

  // ---- The two agree ----

  lemma UnsignedFields(f: Fields)
    requires Sized(f)
    ensures var u := Unsigned(f);
            && |u| == GRANT_UNSIGNED_BYTES && u[0] == GRANT_VERSION
            && u[1..33] == f.serverId && u[33..49] == f.deviceId && u[49..81] == f.deviceKey && u[81..97] == f.grantId
            && FromBigEndian(u[97..105]) == f.issuedAt && FromBigEndian(u[105..107]) == TRANSPORT_PROTOCOL_VERSION
  {
    hide BigEndian, FromBigEndian;
    Widths();
    BigEndianRoundTrip(f.issuedAt, 8);
    BigEndianRoundTrip(TRANSPORT_PROTOCOL_VERSION, 2);
    var u := Unsigned(f);
    assert u[97..105] == BigEndian(f.issuedAt, 8);
    assert u[105..107] == BigEndian(TRANSPORT_PROTOCOL_VERSION, 2);
  }

  // The grant in bytes: what is hashed, what is signed, and what is sent.
  lemma GrantInBytes(c: Crypto, parse: UuidParser, privateKey: seq<Byte>, r: Request)
    requires Issue(c, parse, privateKey, r).Issued?
    ensures Decode(Trim(r.deviceKey)).Some? && parse(r.deviceId).Some?
    ensures var id := c.hash(Ascii("baia-server-id-v1") + [0] + c.publicKey(privateKey));
            var unsigned := [1] + id + parse(r.deviceId).value + Decode(Trim(r.deviceKey)).value + r.grantId
                            + BigEndian(r.issuedAt, 8) + [0, 1];
            Issue(c, parse, privateKey, r) == Issued("srv1_" + Encode(id),
              Encode(unsigned + c.sign(privateKey, Ascii("baia-relay-access-grant-v1") + [0] + unsigned)))
  {
    hide Encode, Decode, Trim;
    assert BigEndian(1, 2) == [0, 1];
  }

  // Hashed and signed texts are kept apart by their domains.
  lemma DomainsAreSeparate(m: seq<Byte>, k: seq<Byte>)
    ensures GrantDomain() + m != ServerIdDomain() + k
  {
    assert (GrantDomain() + m)[5] == 'r' as int && (ServerIdDomain() + k)[5] == 's' as int;
  }

  // The encoding of any fields and signature is judged by server, time and signature alone; the
  // sum saturates only where every time stamp is below it.
  lemma VerdictOnSigned(c: Crypto, f: Fields, signature: seq<Byte>, text: string, serverKey: seq<Byte>, now: U64)
    requires Sized(f) && |signature| == SIGNATURE_BYTES && Trim(text) == Encode(Unsigned(f) + signature)
    ensures Verify(c, text, serverKey, now)
            == if f.serverId != DeriveServerId(c, serverKey) then Rejected(OtherServer)
               else if f.issuedAt == 0 || f.issuedAt > now + 300 then Rejected(BadTimestamp)
               else if !c.verify(serverKey, GrantDomain() + Unsigned(f), signature) then Rejected(BadSignature)
               else Accepted(Verified(UuidText(f.deviceId), f.deviceKey, f.issuedAt))
  {
    hide Encode, Decode, DecodeCanonical, BigEndian, FromBigEndian, UuidText, Unsigned, Trim;
    UnsignedFields(f);
    var grant := Unsigned(f) + signature;
    CanonicalIff(text, GRANT_BYTES, grant);
    assert grant[..GRANT_UNSIGNED_BYTES] == Unsigned(f) && grant[GRANT_UNSIGNED_BYTES..] == signature;
  }

  // A grant that was issued verifies to the same device, key and time exactly when its time
  // stamp is not zero and not further ahead than the permitted skew.
  lemma IssuedGrantVerifies(c: Crypto, parse: UuidParser, privateKey: seq<Byte>, r: Request, now: U64)
    requires Sound(c) && ReadsUuids(parse) && |r.grantId| == GRANT_ID_BYTES
    requires Issue(c, parse, privateKey, r).Issued?
    ensures Decode(Trim(r.deviceKey)).Some? && parse(r.deviceId).Some?
    ensures Verify(c, Issue(c, parse, privateKey, r).grant, c.publicKey(privateKey), now)
            == if r.issuedAt == 0 || r.issuedAt > now + GRANT_FUTURE_SKEW_SECONDS
               then Rejected(BadTimestamp)
               else Accepted(Verified(UuidText(parse(r.deviceId).value), Decode(Trim(r.deviceKey)).value, r.issuedAt))
  {
    hide Encode, Decode, DecodeCanonical, BigEndian, FromBigEndian, UuidText, Unsigned, Trim;
    var key, deviceId := Decode(Trim(r.deviceKey)).value, parse(r.deviceId).value;
    var f := Fields(DeriveServerId(c, c.publicKey(privateKey)), deviceId, key, r.grantId, r.issuedAt);
    var unsigned := Unsigned(f);
    var signature := c.sign(privateKey, GrantDomain() + unsigned);
    var text := Encode(unsigned + signature);
    EncodedAlphabet(unsigned + signature);
    AlphabetHasNoSpaces(text);
    TrimOfTrimmed(text);
    VerdictOnSigned(c, f, signature, text, c.publicKey(privateKey), now);
  }

  // validate_device_binding
  predicate BoundTo(grant: Verified, parse: UuidParser, deviceId: string)
    requires parse(deviceId).Some? ==> |parse(deviceId).value| == DEVICE_ID_BYTES
  {
    parse(deviceId).Some? && UuidText(parse(deviceId).value) == grant.deviceId
  }

  // A verified grant is bound to exactly those device ids, in whatever spelling, that name the
  // device it was issued for; the id it was issued under is one of them, and so is its own text.
  lemma BoundToItsDevice(c: Crypto, parse: UuidParser, privateKey: seq<Byte>, r: Request, now: U64, deviceId: string)
    requires Sound(c) && ReadsUuids(parse) && |r.grantId| == GRANT_ID_BYTES
    requires Issue(c, parse, privateKey, r).Issued?
    ensures var v := Verify(c, Issue(c, parse, privateKey, r).grant, c.publicKey(privateKey), now);
            v.Accepted? ==>
              && (BoundTo(v.grant, parse, deviceId) <==> parse(deviceId) == parse(r.deviceId))
              && BoundTo(v.grant, parse, v.grant.deviceId)
  {
    hide Issue, Verify, UuidText, Decode, Trim;
    IssuedGrantVerifies(c, parse, privateKey, r, now);
    var b := parse(r.deviceId).value;
    if parse(deviceId).Some? && UuidText(parse(deviceId).value) == UuidText(b) {
      UuidTextIsInjective(parse(deviceId).value, b);
    }
  }

  // Different servers have different texts.
  lemma {:induction false} ServerIdTextIsInjective(a: seq<Byte>, b: seq<Byte>)
    requires ServerIdText(a) == ServerIdText(b)
    ensures a == b
  {
    hide Encode, Decode;
    assert ServerIdText(a)[5..] == Encode(a) && ServerIdText(b)[5..] == Encode(b);
    DecodeEncoded(a);
    DecodeEncoded(b);
  }

  // An accepted grant is the encoding of fields for this server that carry its signature:
  // nothing in it can differ from what was signed.
  lemma AcceptedGrantIsSigned(c: Crypto, text: string, serverKey: seq<Byte>, now: U64)
    returns (f: Fields, signature: seq<Byte>)
    requires Sound(c) && Verify(c, text, serverKey, now).Accepted?
    ensures Sized(f) && f.serverId == DeriveServerId(c, serverKey)
    ensures Verify(c, text, serverKey, now).grant == Verified(UuidText(f.deviceId), f.deviceKey, f.issuedAt)
    ensures 0 < f.issuedAt <= now + 300
    ensures Trim(text) == Encode(Unsigned(f) + signature) && c.verify(serverKey, GrantDomain() + Unsigned(f), signature)
  {
    hide Encode, Decode, DecodeCanonical, BigEndian, FromBigEndian, UuidText, Trim;
    var grant := DecodeCanonical(text, GRANT_BYTES).value;
    CanonicalIff(text, GRANT_BYTES, grant);
    var u := grant[..GRANT_UNSIGNED_BYTES];
    signature := grant[GRANT_UNSIGNED_BYTES..];
    Widths();
    FromBigEndianFits(u[97..105]);
    f := Fields(u[1..33], u[33..49], u[49..81], u[81..97], FromBigEndian(u[97..105]));
    FromBigEndianRoundTrip(u[97..105]);
    FromBigEndianRoundTrip(u[105..107]);
    assert u == u[..1] + u[1..33] + u[33..49] + u[49..81] + u[81..97] + u[97..105] + u[105..107];
    assert u[..1] == [GRANT_VERSION];
    assert Unsigned(f) == u;
    assert grant == u + signature;
  }

  // ---- The code: buffers filled and read at a moving offset ----

  method CopyInto(buffer: array<Byte>, offset: nat, bytes: seq<Byte>)
    requires offset + |bytes| <= buffer.Length
    modifies buffer
    ensures buffer[..] == old(buffer[..offset]) + bytes + old(buffer[offset + |bytes|..])
  {
    forall i | 0 <= i < |bytes| { buffer[offset + i] := bytes[i]; }
  }

  method IssueAccessGrant(c: Crypto, parse: UuidParser, privateKey: seq<Byte>, r: Request) returns (issued: Issuing)
    requires Sound(c) && ReadsUuids(parse) && |r.grantId| == GRANT_ID_BYTES
    ensures issued == Issue(c, parse, privateKey, r)
  {
    hide Encode, Decode, Trim, BigEndian, UuidText;
    var uuid := parse(r.deviceId);
    if uuid.None? { return NotIssued(BadDeviceId); }
    var deviceId := uuid.value;
    var decoded := Decode(Trim(r.deviceKey));
    if decoded.None? { return NotIssued(BadDeviceKey); }
    if |decoded.value| != PUBLIC_KEY_BYTES { return NotIssued(BadKeyLength); }
    var grantId, issuedAt := r.grantId, r.issuedAt;
    var serverId := DeriveServerId(c, c.publicKey(privateKey));
    ghost var f := Fields(serverId, deviceId, decoded.value, grantId, issuedAt);

    var buffer := new Byte[GRANT_UNSIGNED_BYTES](_ => 0);
    var offset := 0;
    buffer[offset] := GRANT_VERSION;
    offset := offset + 1;
    assert buffer[..offset] == [GRANT_VERSION];
    CopyInto(buffer, offset, serverId);
    offset := offset + SERVER_ID_BYTES;
    assert buffer[..offset] == [GRANT_VERSION] + serverId;
    CopyInto(buffer, offset, deviceId);
    offset := offset + DEVICE_ID_BYTES;
    assert buffer[..offset] == [GRANT_VERSION] + serverId + deviceId;
    CopyInto(buffer, offset, decoded.value);
    offset := offset + PUBLIC_KEY_BYTES;
    assert buffer[..offset] == [GRANT_VERSION] + serverId + deviceId + decoded.value;
    CopyInto(buffer, offset, grantId);
    offset := offset + GRANT_ID_BYTES;
    assert buffer[..offset] == [GRANT_VERSION] + serverId + deviceId + decoded.value + grantId;
    CopyInto(buffer, offset, BigEndian(issuedAt, 8));
    offset := offset + 8;
    assert buffer[..offset] == [GRANT_VERSION] + serverId + deviceId + decoded.value + grantId + BigEndian(issuedAt, 8);
    CopyInto(buffer, offset, BigEndian(TRANSPORT_PROTOCOL_VERSION, 2));

    var unsigned := buffer[..];
    assert unsigned == Unsigned(f);
    var signature := c.sign(privateKey, GrantDomain() + unsigned);
    issued := Issued(ServerIdText(serverId), Encode(unsigned + signature));
  }

  method VerifyAccessGrant(c: Crypto, text: string, serverKey: seq<Byte>, now: U64) returns (r: Verdict)
    ensures r == Verify(c, text, serverKey, now)
  {
    hide Encode, Decode, DecodeCanonical, FromBigEndian, UuidText;
    var decoded := DecodeCanonical(text, GRANT_BYTES);
    if decoded.None? { return Rejected(BadText); }
    CanonicalIff(text, GRANT_BYTES, decoded.value);
    var unsigned, signature := decoded.value[..GRANT_UNSIGNED_BYTES], decoded.value[GRANT_UNSIGNED_BYTES..];
    var offset := 0;
    var version := unsigned[offset];
    offset := offset + 1;
    if version != GRANT_VERSION { return Rejected(BadVersion); }
    var serverId := unsigned[offset..offset + SERVER_ID_BYTES];
    offset := offset + SERVER_ID_BYTES;
    if serverId != DeriveServerId(c, serverKey) { return Rejected(OtherServer); }
    var deviceId := unsigned[offset..offset + DEVICE_ID_BYTES];
    offset := offset + DEVICE_ID_BYTES;
    var deviceKey := unsigned[offset..offset + PUBLIC_KEY_BYTES];
    offset := offset + PUBLIC_KEY_BYTES;
    offset := offset + GRANT_ID_BYTES;
    var issuedAt := FromBigEndian(unsigned[offset..offset + 8]);
    offset := offset + 8;
    var protocol := FromBigEndian(unsigned[offset..offset + 2]);
    if issuedAt == 0 || issuedAt > SaturatingAdd(now, GRANT_FUTURE_SKEW_SECONDS) { return Rejected(BadTimestamp); }
    if protocol != TRANSPORT_PROTOCOL_VERSION { return Rejected(BadProtocol); }
    if !c.verify(serverKey, GrantDomain() + unsigned, signature) { return Rejected(BadSignature); }
    r := Accepted(Verified(UuidText(deviceId), deviceKey, issuedAt));
  }
}
