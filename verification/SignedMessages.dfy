// The texts a device signs for a request and for a media link.
module SignedMessages {
  import opened Text
  import opened Bytes
  import opened Base64Url

  const REQUEST_CONTEXT := "BAIA-REQ-V1"
  const MEDIA_CONTEXT := "BAIA-MEDIA-V1"
  const NONCE_BYTES := 16
  const MAX_TARGET_BYTES := 4096
  const REQUEST_CLOCK_SKEW_SECONDS := 90
  const MEDIA_MAX_TTL_SECONDS := 8 * 60 * 60

  function RequestMessage(deviceId: string, timestamp: U64, nonce: string, method_: string, target: string): string {
    REQUEST_CONTEXT + "\n" + deviceId + "\n" + Decimal(timestamp) + "\n" + nonce + "\n" + method_ + "\n" + target
  }

  function MediaMessage(deviceId: string, expires: U64, path: string): string {
    MEDIA_CONTEXT + "\n" + deviceId + "\n" + Decimal(expires) + "\nGET\n" + path
  }

  lemma DecimalInWords()
    ensures Decimal(42) == "42"
  {
  }

  lemma RequestInWords()
    ensures RequestMessage("d", 42, "n", "GET", "/api/x") == "BAIA-REQ-V1\nd\n42\nn\nGET\n/api/x"
  {
    hide Decimal;
    DecimalInWords();
  }

  lemma MediaInWords()
    ensures MediaMessage("d", 42, "/api/x") == "BAIA-MEDIA-V1\nd\n42\nGET\n/api/x"
  {
    hide Decimal;
    DecimalInWords();
  }

  // ---- What is checked before a signature is ----

  function Utf8Length(s: string): nat {
    if s == "" then 0
    else
      var n := s[0] as int;
      (if n < 0x80 then 1 else if n < 0x800 then 2 else if n < 0x1_0000 then 3 else 4) + Utf8Length(s[1..])
  }

  predicate ValidTarget(target: string) {
    && "/api/" <= target && !("//" <= target) && Utf8Length(target) <= MAX_TARGET_BYTES
    && '\r' !in target && '\n' !in target && '\\' !in target && '#' !in target
  }

  predicate ValidMethod(m: string) {
    m == "GET" || m == "HEAD" || m == "POST" || m == "PUT" || m == "DELETE"
  }

  // Texts that Uuid::parse_str can accept have no line break.
  predicate RequestFields(deviceId: string, timestamp: U64, nonce: string, method_: string, target: string, now: U64) {
    && OneLine(deviceId) && ValidTarget(target)
    && (if timestamp > now then timestamp - now else now - timestamp) <= REQUEST_CLOCK_SKEW_SECONDS
    && DecodeCanonical(nonce, NONCE_BYTES).Some?
    && ValidMethod(method_)
  }

  predicate MediaFields(deviceId: string, expires: U64, path: string, now: U64) {
    OneLine(deviceId) && ValidTarget(path) && now <= expires &&
      expires - now <= MEDIA_MAX_TTL_SECONDS + REQUEST_CLOCK_SKEW_SECONDS
  }

  // ---- Injectivity ----

  lemma DecimalIsOneLine(n: nat)
    ensures OneLine(Decimal(n))
  {
  }

  lemma DecimalIsInjective(m: nat, n: nat)
    requires Decimal(m) == Decimal(n)
    ensures m == n
  {
    DecimalRoundTrip(m);
    DecimalRoundTrip(n);
  }

  // Equal request texts mean equal fields, even though the nonce is decoded after trimming
  // and may therefore carry line breaks of its own into the text.
  lemma RequestMessageIsInjective(d1: string, t1: U64, n1: string, m1: string, p1: string, now1: U64,
                                  d2: string, t2: U64, n2: string, m2: string, p2: string, now2: U64)
    requires RequestFields(d1, t1, n1, m1, p1, now1) && RequestFields(d2, t2, n2, m2, p2, now2)
    requires RequestMessage(d1, t1, n1, m1, p1) == RequestMessage(d2, t2, n2, m2, p2)
    ensures d1 == d2 && t1 == t2 && n1 == n2 && m1 == m2 && p1 == p2
  {
    hide Decimal, DecodeCanonical, RequestMessage, Utf8Length;
    RequestLines(d1, t1, n1, m1, p1);
    RequestLines(d2, t2, n2, m2, p2);
    var rest1, rest2 := n1 + "\n" + m1 + "\n" + p1, n2 + "\n" + m2 + "\n" + p2;
    assert OneLine(REQUEST_CONTEXT);
    FirstLineIsDetermined(REQUEST_CONTEXT, d1 + "\n" + (Decimal(t1) + "\n" + rest1), REQUEST_CONTEXT,
      d2 + "\n" + (Decimal(t2) + "\n" + rest2));
    FirstLineIsDetermined(d1, Decimal(t1) + "\n" + rest1, d2, Decimal(t2) + "\n" + rest2);
    DecimalIsOneLine(t1);
    DecimalIsOneLine(t2);
    FirstLineIsDetermined(Decimal(t1), rest1, Decimal(t2), rest2);
    DecimalIsInjective(t1, t2);
    LastLineIsDetermined(n1 + "\n" + m1, p1, n2 + "\n" + m2, p2);
    MethodIsOneLine(m1);
    MethodIsOneLine(m2);
    LastLineIsDetermined(n1, m1, n2, m2);
  }

  lemma RequestLines(d: string, t: U64, n: string, m: string, p: string)
    ensures RequestMessage(d, t, n, m, p)
        == REQUEST_CONTEXT + "\n" + (d + "\n" + (Decimal(t) + "\n" + (n + "\n" + m + "\n" + p)))
  {
    hide Decimal;
  }

  lemma MethodIsOneLine(m: string)
    requires ValidMethod(m)
    ensures OneLine(m)
  {
  }

  lemma MediaMessageIsInjective(d1: string, e1: U64, p1: string, now1: U64, d2: string, e2: U64, p2: string, now2: U64)
    requires MediaFields(d1, e1, p1, now1) && MediaFields(d2, e2, p2, now2)
    requires MediaMessage(d1, e1, p1) == MediaMessage(d2, e2, p2)
    ensures d1 == d2 && e1 == e2 && p1 == p2
  {
    hide Decimal, Utf8Length;
    var rest1, rest2 := "GET\n" + p1, "GET\n" + p2;
    var body1, body2 := Decimal(e1) + "\n" + rest1, Decimal(e2) + "\n" + rest2;
    assert MediaMessage(d1, e1, p1) == MEDIA_CONTEXT + "\n" + (d1 + "\n" + body1);
    assert MediaMessage(d2, e2, p2) == MEDIA_CONTEXT + "\n" + (d2 + "\n" + body2);
    FirstLineIsDetermined(MEDIA_CONTEXT, d1 + "\n" + body1, MEDIA_CONTEXT, d2 + "\n" + body2);
    FirstLineIsDetermined(d1, body1, d2, body2);
    DecimalIsOneLine(e1);
    DecimalIsOneLine(e2);
    FirstLineIsDetermined(Decimal(e1), rest1, Decimal(e2), rest2);
    DecimalIsInjective(e1, e2);
    assert p1 == rest1[4..] && p2 == rest2[4..];
  }

  // A signature for a request is never one for a media link.
  lemma RequestIsNeverMedia(d1: string, t1: U64, n1: string, m1: string, p1: string, d2: string, e2: U64, p2: string)
    ensures RequestMessage(d1, t1, n1, m1, p1) != MediaMessage(d2, e2, p2)
  {
    hide Decimal;
    assert RequestMessage(d1, t1, n1, m1, p1)[5] == 'R';
    assert MediaMessage(d2, e2, p2)[5] == 'M';
  }
}
