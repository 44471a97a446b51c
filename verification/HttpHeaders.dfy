// The header lines of a request head: one `name: value` pair a line, no name twice.
module HttpHeaders {
  import opened Text
  import opened Sequences
  import opened HttpHead

  datatype HeaderError = TooManyHeaders | FoldedHeader | InvalidHeader | DuplicateHeader

  datatype Field = Field(name: string, value: string) | BadLine(error: HeaderError)

  datatype Headers = Parsed(fields: map<string, string>) | Rejected(error: HeaderError)

  // u8::is_ascii_whitespace, which leaves out the vertical tab
  predicate IsAsciiWhitespace(c: char) {
    c in {' ', '\t', '\n', '\r', 12 as char}
  }

  // char::is_control, general category Cc
  predicate IsControl(c: char) {
    c as int < 0x20 || 0x7F <= c as int < 0xA0
  }

  predicate IsTokenChar(c: char) {
    || 'a' <= c <= 'z' || 'A' <= c <= 'Z' || '0' <= c <= '9'
    || c in {'!', '#', '$', '%', '&', '\'', '*', '+', '-', '.', '^', '_', '`', '|', '~'}
  }

  lemma TokenCharsAre(c: char)
    ensures IsTokenChar(c) <==> c in UPPER_CASE + LOWER_CASE + "0123456789" + "!#$%&'*+-.^_`|~"
  {
    LettersAreConsecutive();
    if 'A' <= c <= 'Z' { assert c == UPPER_CASE[c as int - 'A' as int]; }
    if 'a' <= c <= 'z' { assert c == LOWER_CASE[c as int - 'a' as int]; }
    if '0' <= c <= '9' { assert c == "0123456789"[c as int - '0' as int]; }
  }

  // valid_http_header_name: a token of section 5.6.2 of RFC 9110
  predicate IsToken(s: string) {
    s != "" && forall i :: 0 <= i < |s| ==> IsTokenChar(s[i])
  }

  predicate IsFieldValue(s: string) {
    forall i :: 0 <= i < |s| ==> !IsControl(s[i]) || s[i] == '\t'
  }

  predicate IsLower(s: string) {
    forall i :: 0 <= i < |s| ==> !('A' <= s[i] <= 'Z')
  }

  function ParseLine(line: string): Field {
    if line != "" && IsAsciiWhitespace(line[0]) then BadLine(FoldedHeader)
    else
      var k := FirstIndex(line, ':');
      if k == |line| then BadLine(InvalidHeader)
      else
        var name, value := Lower(Trim(line[..k])), Trim(line[k + 1..]);
        if IsToken(name) && IsFieldValue(value) then Field(name, value) else BadLine(InvalidHeader)
  }

  function ParseMore(lines: seq<string>, fields: map<string, string>): Headers {
    if lines == [] then Parsed(fields)
    else
      match ParseLine(lines[0])
      case BadLine(e) => Rejected(e)
      case Field(name, value) =>
        if name in fields then Rejected(DuplicateHeader) else ParseMore(lines[1..], fields[name := value])
  }

  function ParseHeaders(lines: seq<string>): Headers {
    if |lines| > MAX_HEADER_COUNT then Rejected(TooManyHeaders) else ParseMore(lines, map[])
  }

  // parse_http_headers
  method ParseHeaderLines(lines: seq<string>) returns (r: Headers)
    ensures r == ParseHeaders(lines)
  {
    hide ParseLine;
    if |lines| > MAX_HEADER_COUNT { return Rejected(TooManyHeaders); }
    var headers: map<string, string> := map[];
    for i := 0 to |lines|
      invariant ParseMore(lines, map[]) == ParseMore(lines[i..], headers)
    {
      assert lines[i..][0] == lines[i] && lines[i..][1..] == lines[i + 1..];
      match ParseLine(lines[i]) {
        case BadLine(e) => return Rejected(e);
        case Field(name, value) =>
          if name in headers { return Rejected(DuplicateHeader); }
          headers := headers[name := value];
      }
    }
    r := Parsed(headers);
  }

  // ---- What is accepted ----

  ghost predicate AllFields(lines: seq<string>) {
    forall i :: 0 <= i < |lines| ==> ParseLine(lines[i]).Field?
  }

  ghost predicate NamesDiffer(lines: seq<string>)
    requires AllFields(lines)
  {
    forall i, j :: 0 <= i < j < |lines| ==> ParseLine(lines[i]).name != ParseLine(lines[j]).name
  }

  // The map holds exactly what the lines say.
  ghost predicate Holds(fields: map<string, string>, lines: seq<string>)
    requires AllFields(lines)
  {
    && (forall i :: 0 <= i < |lines| ==>
          ParseLine(lines[i]).name in fields && fields[ParseLine(lines[i]).name] == ParseLine(lines[i]).value)
    && (forall name :: name in fields ==> exists i :: 0 <= i < |lines| && ParseLine(lines[i]).name == name)
  }

  lemma OneMoreHolds(fields: map<string, string>, lines: seq<string>, line: string)
    requires AllFields(lines + [line]) && NamesDiffer(lines + [line]) && AllFields(lines) && Holds(fields, lines)
    ensures ParseLine(line).Field? && ParseLine(line).name !in fields
    ensures Holds(fields[ParseLine(line).name := ParseLine(line).value], lines + [line])
  {
    hide ParseLine;
    var more := lines + [line];
    assert more[|lines|] == line && forall j :: 0 <= j < |lines| ==> more[j] == lines[j];
    var next := fields[ParseLine(line).name := ParseLine(line).value];
    forall name | name in next ensures exists j :: 0 <= j < |more| && ParseLine(more[j]).name == name {
      if name == ParseLine(line).name {
        assert ParseLine(more[|lines|]).name == name;
      } else {
        var j :| 0 <= j < |lines| && ParseLine(lines[j]).name == name;
        assert ParseLine(more[j]).name == name;
      }
    }
  }

  lemma {:induction false} ParseMoreOutcome(lines: seq<string>, i: nat, fields: map<string, string>)
    requires i <= |lines| && AllFields(lines[..i]) && NamesDiffer(lines[..i]) && Holds(fields, lines[..i])
    ensures ParseMore(lines[i..], fields).Parsed? <==> AllFields(lines) && NamesDiffer(lines)
    ensures ParseMore(lines[i..], fields).Parsed? ==> Holds(ParseMore(lines[i..], fields).fields, lines)
    ensures AllFields(lines) && !NamesDiffer(lines) ==> ParseMore(lines[i..], fields) == Rejected(DuplicateHeader)
    decreases |lines| - i
  {
    hide ParseLine;
    if i == |lines| {
      assert lines[..i] == lines;
    } else {
      assert lines[i..][0] == lines[i] && lines[i..][1..] == lines[i + 1..];
      var field := ParseLine(lines[i]);
      if field.Field? {
        if field.name in fields {
          var j :| 0 <= j < i && ParseLine(lines[..i][j]).name == field.name;
          assert lines[..i][j] == lines[j];
        } else {
          var next, more := fields[field.name := field.value], lines[..i + 1];
          assert forall j :: 0 <= j < i ==> more[j] == lines[..i][j];
          assert more == lines[..i] + [lines[i]];
          OneMoreHolds(fields, lines[..i], lines[i]);
          ParseMoreOutcome(lines, i + 1, next);
        }
      }
    }
  }

  // Accepted exactly when there are at most 64 lines, each is a field, and no name comes twice.
  lemma AcceptedIff(lines: seq<string>)
    ensures ParseHeaders(lines).Parsed? <==> |lines| <= 64 && AllFields(lines) && NamesDiffer(lines)
    ensures |lines| > 64 ==> ParseHeaders(lines) == Rejected(TooManyHeaders)
    ensures ParseHeaders(lines).Parsed? ==> Holds(ParseHeaders(lines).fields, lines)
    ensures |lines| <= MAX_HEADER_COUNT && AllFields(lines) && !NamesDiffer(lines) ==>
        ParseHeaders(lines) == Rejected(DuplicateHeader)
  {
    hide ParseLine, ParseMore;
    assert lines[0..] == lines && lines[..0] == [];
    ParseMoreOutcome(lines, 0, map[]);
  }

  // ---- Rendering ----

  // A header as a client may write it: the name in any case, white space around the name and
  // around the value, except that a line does not start with ASCII white space.
  datatype Written =
    Written(indent: string, name: string, beforeColon: string, lead: string, value: string, tail: string)

  ghost predicate IsHeader(h: Written) {
    && IsToken(h.name) && IsFieldValue(h.value) && IsTrimmed(h.value)
    && AllWhitespace(h.indent) && AllWhitespace(h.beforeColon) && AllWhitespace(h.lead) && AllWhitespace(h.tail)
    && (h.indent != "" ==> !IsAsciiWhitespace(h.indent[0]))
  }

  function Render(h: Written): string {
    h.indent + h.name + h.beforeColon + ":" + h.lead + h.value + h.tail
  }

  lemma TokensHaveNoSpaces(s: string)
    requires IsToken(s)
    ensures IsTrimmed(s) && ':' !in s && !IsAsciiWhitespace(s[0]) && IsToken(Lower(s)) && IsLower(Lower(s))
  {
    forall i | 0 <= i < |s| ensures IsTokenChar(Lower(s)[i]) && !('A' <= Lower(s)[i] <= 'Z') {
      assert Lower(s)[i] == LowerAscii(s[i]);
    }
  }

  lemma WrittenLineParses(h: Written)
    requires IsHeader(h)
    ensures ParseLine(Render(h)) == Field(Lower(h.name), h.value)
  {
    hide Trim, IsTrimmed, FirstIndex, Lower;
    var left, right := h.indent + h.name + h.beforeColon, h.lead + h.value + h.tail;
    var line := Render(h);
    assert line == left + ":" + right;
    TokensHaveNoSpaces(h.name);
    assert ':' !in left;
    FirstIndexOfSeparator(left, ':', right);
    assert line[..|left|] == left && line[|left| + 1..] == right;
    assert line[0] == if h.indent == "" then h.name[0] else h.indent[0];
    TrimDropsPadding(h.indent, h.name, h.beforeColon);
    TrimDropsPadding(h.lead, h.value, h.tail);
  }

  // Conversely every line that is a field is written that way.
  lemma FieldIsWritten(line: string) returns (h: Written)
    requires ParseLine(line).Field?
    ensures IsHeader(h) && Render(h) == line
    ensures ParseLine(line) == Field(Lower(h.name), h.value)
  {
    hide Trim, Lower, IsTrimmed;
    var k := FirstIndex(line, ':');
    var name, value := Trim(line[..k]), Trim(line[k + 1..]);
    var indent, beforeColon := TrimSplits(line[..k]);
    var lead, tail := TrimSplits(line[k + 1..]);
    h := Written(indent, name, beforeColon, lead, value, tail);
    TrimIsTrimmed(line[k + 1..]);
    LowerTokenIsToken(name);
    assert line == line[..k] + ":" + line[k + 1..];
    assert indent != "" ==> indent[0] == line[0];
  }

  lemma LowerTokenIsToken(s: string)
    requires IsToken(Lower(s))
    ensures IsToken(s)
  {
    forall i | 0 <= i < |s| ensures IsTokenChar(s[i]) {
      assert IsTokenChar(Lower(s)[i]);
    }
  }

  // The first line that is not a field, or whose name was there before, is the one reported:
  // as folded exactly if it starts with ASCII white space.
  lemma FirstErrorIsReported(lines: seq<string>, i: nat)
    requires i < |lines| <= MAX_HEADER_COUNT && AllFields(lines[..i]) && NamesDiffer(lines[..i])
    ensures lines[i] != "" && lines[i][0] in {' ', '\t', '\n', '\r', 12 as char} ==>
        ParseHeaders(lines) == Rejected(FoldedHeader)
    ensures (lines[i] == "" || lines[i][0] !in {' ', '\t', '\n', '\r', 12 as char})
            && (forall h :: IsHeader(h) ==> Render(h) != lines[i]) ==>
        ParseHeaders(lines) == Rejected(InvalidHeader)
    ensures forall h, j :: IsHeader(h) && Render(h) == lines[i] && 0 <= j < i && ParseLine(lines[j]).Field?
                           && ParseLine(lines[j]).name == Lower(h.name) ==>
              ParseHeaders(lines) == Rejected(DuplicateHeader)
  {
    hide ParseMore, IsHeader, Render, Lower, Trim, IsFieldValue, IsToken;
    var fields := PrefixIsRead(lines, i);
    assert lines[i..][0] == lines[i] && lines[i..][1..] == lines[i + 1..];
    StepOfParse(lines[i..], fields);
    if ParseLine(lines[i]).Field? {
      var h := FieldIsWritten(lines[i]);
    }
    forall h, j | IsHeader(h) && Render(h) == lines[i] && 0 <= j < i && ParseLine(lines[j]).Field?
                  && ParseLine(lines[j]).name == Lower(h.name)
      ensures ParseHeaders(lines) == Rejected(DuplicateHeader)
    {
      WrittenLineParses(h);
      assert lines[..i][j] == lines[j];
    }
  }

  lemma StepOfParse(lines: seq<string>, fields: map<string, string>)
    requires lines != []
    ensures ParseLine(lines[0]).BadLine? ==> ParseMore(lines, fields) == Rejected(ParseLine(lines[0]).error)
    ensures ParseLine(lines[0]).Field? && ParseLine(lines[0]).name in fields ==>
        ParseMore(lines, fields) == Rejected(DuplicateHeader)
  {
  }

  lemma {:induction false} PrefixIsRead(lines: seq<string>, i: nat) returns (fields: map<string, string>)
    requires i <= |lines| && AllFields(lines[..i]) && NamesDiffer(lines[..i])
    ensures Holds(fields, lines[..i]) && ParseMore(lines, map[]) == ParseMore(lines[i..], fields)
  {
    hide ParseLine;
    if i == 0 {
      fields := map[];
      assert lines[0..] == lines;
    } else {
      var n := i - 1;
      assert forall j :: 0 <= j < n ==> lines[..n][j] == lines[..i][j];
      var before := PrefixIsRead(lines, n);
      var field := ParseLine(lines[n]);
      assert lines[..i][n] == lines[n] && lines[n..][0] == lines[n] && lines[n..][1..] == lines[i..];
      fields := before[field.name := field.value];
      OneMoreHolds(before, lines[..n], lines[n]);
      assert lines[..n] + [lines[n]] == lines[..i];
      assert field.name !in before;
    }
  }

  ghost predicate AllHeaders(hs: seq<Written>) {
    forall i :: 0 <= i < |hs| ==> IsHeader(hs[i])
  }

  function RenderAll(hs: seq<Written>): (lines: seq<string>)
    ensures |lines| == |hs| && forall i :: 0 <= i < |hs| ==> lines[i] == Render(hs[i])
  {
    seq(|hs|, i requires 0 <= i < |hs| => Render(hs[i]))
  }

  // The headers of a map, each written once in any spelling, parse back to the map.
  lemma RenderedParsesBack(hs: seq<Written>, fields: map<string, string>)
    requires AllHeaders(hs) && |hs| <= MAX_HEADER_COUNT
    requires forall i, j :: 0 <= i < j < |hs| ==> Lower(hs[i].name) != Lower(hs[j].name)
    requires forall i :: 0 <= i < |hs| ==> Lower(hs[i].name) in fields && fields[Lower(hs[i].name)] == hs[i].value
    requires forall name :: name in fields ==> exists i :: 0 <= i < |hs| && Lower(hs[i].name) == name
    ensures ParseHeaders(RenderAll(hs)) == Parsed(fields)
  {
    hide ParseLine, ParseHeaders, Render, Lower, IsHeader;
    var lines := RenderAll(hs);
    forall i | 0 <= i < |hs| ensures ParseLine(lines[i]) == Field(Lower(hs[i].name), hs[i].value) {
      WrittenLineParses(hs[i]);
    }
    AcceptedIff(lines);
    var parsed := ParseHeaders(lines).fields;
    assert forall name :: name in parsed ==> name in fields;
    forall name | name in fields ensures name in parsed && parsed[name] == fields[name] {
      var i :| 0 <= i < |hs| && Lower(hs[i].name) == name;
      assert ParseLine(lines[i]).name == name;
    }
    assert parsed == fields;
  }

  // A name written twice, in whatever case, is refused.
  lemma RepeatedNameIsRefused(hs: seq<Written>, i: nat, j: nat)
    requires AllHeaders(hs) && |hs| <= MAX_HEADER_COUNT
    requires i < j < |hs| && Lower(hs[i].name) == Lower(hs[j].name)
    ensures ParseHeaders(RenderAll(hs)) == Rejected(DuplicateHeader)
  {
    hide ParseLine, ParseHeaders, Render, Lower, IsHeader;
    var lines := RenderAll(hs);
    forall i | 0 <= i < |hs| ensures ParseLine(lines[i]) == Field(Lower(hs[i].name), hs[i].value) {
      WrittenLineParses(hs[i]);
    }
    AcceptedIff(lines);
    assert ParseLine(lines[i]).name == ParseLine(lines[j]).name;
  }

  // ---- What a parsed head holds ----

  lemma FieldIsClean(line: string)
    requires ParseLine(line).Field?
    ensures IsToken(ParseLine(line).name) && IsLower(ParseLine(line).name)
    ensures IsFieldValue(ParseLine(line).value) && IsTrimmed(ParseLine(line).value)
  {
    TrimIsTrimmed(line[FirstIndex(line, ':') + 1..]);
    forall c: char ensures !('A' <= LowerAscii(c) <= 'Z') {}
  }

  // Every parsed map consists of lower-case tokens and trimmed values, so that writing it
  // out again is covered by RenderedParsesBack.
  lemma ParsedFieldsAreClean(lines: seq<string>, name: string)
    requires ParseHeaders(lines).Parsed? && name in ParseHeaders(lines).fields
    ensures IsToken(name) && IsLower(name)
    ensures IsHeader(Written("", name, "", " ", ParseHeaders(lines).fields[name], ""))
    ensures Lower(name) == name
  {
    hide ParseLine, ParseHeaders, IsTrimmed, IsToken, IsFieldValue;
    AcceptedIff(lines);
    var i :| 0 <= i < |lines| && ParseLine(lines[i]).name == name;
    FieldIsClean(lines[i]);
    assert Lower(name) == name;
  }
}
