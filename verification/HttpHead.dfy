// The bounded HTTP head reader of the connector: lines out of a buffered connection, up to
// the first blank line.
module HttpHead {
  import opened Text
  import opened Sequences
  import opened Bytes

  const NEWLINE: Byte := 10
  const RETURN: Byte := 13
  const MAX_LINE_BYTES := 8 * 1024
  const MAX_HEADERS_BYTES := 32 * 1024
  const MAX_HEADER_COUNT := 64

  // ---- One line ----

  datatype Line = LineOf(bytes: seq<Byte>) | NoLine | LineTooLong | LineUnreadable

  // What the bytes still to come mean as a next line, and what follows it.
  function NextLine(s: seq<Byte>, ending: Ending): (Line, seq<Byte>) {
    var k := FirstIndex(s, NEWLINE);
    if k < |s| then
      if k + 1 > MAX_LINE_BYTES then (LineTooLong, []) else (LineOf(s[..k + 1]), s[k + 1..])
    else if |s| > MAX_LINE_BYTES then (LineTooLong, [])
    else if ending.Broken? then (LineUnreadable, [])
    else if s == [] then (NoLine, []) else (LineOf(s), [])
  }

  lemma StreamEndsHere(s: seq<Byte>, ending: Ending)
    requires NEWLINE !in s && |s| <= MAX_LINE_BYTES
    ensures NextLine(s, ending)
        == (if ending.Broken? then LineUnreadable else if s == [] then NoLine else LineOf(s), [])
  {
    FirstIndexIs(s, NEWLINE, |s|);
  }

  lemma LineEndsHere(s: seq<Byte>, line: seq<Byte>, ending: Ending)
    requires line <= s && 0 < |line| <= MAX_LINE_BYTES
    requires line[|line| - 1] == NEWLINE && NEWLINE !in line[..|line| - 1]
    ensures NextLine(s, ending) == (LineOf(line), s[|line|..])
  {
    assert forall i :: 0 <= i < |line| - 1 ==> line[..|line| - 1][i] == s[i];
    FirstIndexIs(s, NEWLINE, |line| - 1);
    assert s[..|line|] == line;
  }

  lemma LineIsTooLong(s: seq<Byte>, line: seq<Byte>, ending: Ending)
    requires line <= s && |line| > MAX_LINE_BYTES && NEWLINE !in line[..|line| - 1]
    ensures NextLine(s, ending).0 == LineTooLong
  {
    assert forall i :: 0 <= i < |line| - 1 ==> line[..|line| - 1][i] == s[i];
    assert FirstIndex(s, NEWLINE) >= |line| - 1;
  }

  // What one buffer adds: up to its first newline, or all of it.
  lemma LineGrows(s: seq<Byte>, line: seq<Byte>, buffer: seq<Byte>, take: nat)
    requires line <= s && NEWLINE !in line && buffer <= s[|line|..] && buffer != []
    requires take == (if FirstIndex(buffer, NEWLINE) < |buffer| then FirstIndex(buffer, NEWLINE) + 1 else |buffer|)
    ensures var next := line + buffer[..take];
            && next <= s && s[|next|..] == s[|line|..][take..]
            && NEWLINE !in next[..|next| - 1]
            && (next[|next| - 1] == NEWLINE || NEWLINE !in next)
  {
    var next := line + buffer[..take];
    assert forall i :: 0 <= i < |buffer| ==> s[|line| + i] == buffer[i];
    assert forall i :: 0 <= i < |next| - 1 ==> next[i] == if i < |line| then line[i] else buffer[i - |line|];
  }

  // read_bounded_http_line, for any cutting of the bytes into buffers
  method ReadLine(source: ByteSource) returns (r: Line)
    requires source.Valid()
    modifies source
    ensures source.Valid()
    ensures r == NextLine(old(source.Pending()), source.ending).0
    ensures r.LineOf? || r.NoLine? ==> source.Pending() == NextLine(old(source.Pending()), source.ending).1
  {
    hide NextLine, FirstIndex, Joined;
    ghost var s := source.Pending();
    var line: seq<Byte> := [];
    while true
      invariant source.Valid() && |line| <= MAX_LINE_BYTES
      invariant line <= s && source.Pending() == s[|line|..] && NEWLINE !in line
      decreases |s| - |line|
    {
      var filled := source.FillBuf();
      if source.Pending() == [] {
        assert line == s;
        StreamEndsHere(s, source.ending);
      }
      if filled.Failure? {
        return LineUnreadable;
      }
      var buffer := filled.bytes;
      if buffer == [] {
        r := if line == [] then NoLine else LineOf(line);
        return;
      }
      var k := FirstIndex(buffer, NEWLINE);
      var take := if k < |buffer| then k + 1 else |buffer|;
      LineGrows(s, line, buffer, take);
      if |line| + take > MAX_LINE_BYTES {
        LineIsTooLong(s, line + buffer[..take], source.ending);
        return LineTooLong;
      }
      line := line + buffer[..take];
      source.Consume(take);
      if line[|line| - 1] == NEWLINE {
        LineEndsHere(s, line, source.ending);
        return LineOf(line);
      }
    }
  }

  // ---- The head ----

  datatype HeadError = HeadLineTooLong | HeadUnreadable | HeadClosed | HeadTooLarge | HeadTooManyLines | HeadNotUtf8

  datatype Head = HeadOf(lines: seq<string>, rest: seq<Byte>) | HeadFailed(error: HeadError)

  // std::str::from_utf8
  type Utf8 = seq<Byte> -> Option<string>

  predicate IsBlank(raw: seq<Byte>) {
    raw == [RETURN, NEWLINE] || raw == [NEWLINE]
  }

  // The line without the returns and newlines at its end
  function TrimEol(s: string): string {
    if s != "" && (s[|s| - 1] == '\r' || s[|s| - 1] == '\n') then TrimEol(s[..|s| - 1]) else s
  }

  // `count` lines with `total` bytes were read before s.
  function ReadHead(s: seq<Byte>, ending: Ending, utf8: Utf8, count: nat, total: nat): Head
    decreases |s|
  {
    var (line, rest) := NextLine(s, ending);
    match line
    case LineTooLong => HeadFailed(HeadLineTooLong)
    case LineUnreadable => HeadFailed(HeadUnreadable)
    case NoLine => HeadFailed(HeadClosed)
    case LineOf(raw) =>
      if total + |raw| > MAX_HEADERS_BYTES then HeadFailed(HeadTooLarge)
      else if IsBlank(raw) then HeadOf([], rest)
      else if count >= MAX_HEADER_COUNT + 1 then HeadFailed(HeadTooManyLines)
      else if utf8(raw).None? then HeadFailed(HeadNotUtf8)
      else
        match ReadHead(rest, ending, utf8, count + 1, total + |raw|)
        case HeadFailed(e) => HeadFailed(e)
        case HeadOf(lines, body) => HeadOf([TrimEol(utf8(raw).value)] + lines, body)
  }

  datatype Outcome = Got(lines: seq<string>) | Refused(error: HeadError)

  function Prepend(lines: seq<string>, h: Head): Head {
    match h
    case HeadFailed(e) => HeadFailed(e)
    case HeadOf(more, rest) => HeadOf(lines + more, rest)
  }

  lemma PrependStep(lines: seq<string>, line: string, h: Head)
    ensures Prepend(lines, Prepend([line], h)) == Prepend(lines + [line], h)
  {
    if h.HeadOf? { assert lines + ([line] + h.lines) == lines + [line] + h.lines; }
  }

  // read_http_head: the outcome is a function of the bytes, not of their cutting.
  method ReadHttpHead(source: ByteSource, utf8: Utf8) returns (r: Outcome)
    requires source.Valid()
    modifies source
    ensures source.Valid()
    ensures match ReadHead(old(source.Pending()), source.ending, utf8, 0, 0)
            case HeadOf(lines, rest) => r == Got(lines) && source.Pending() == rest
            case HeadFailed(e) => r == Refused(e)
  {
    hide NextLine;
    ghost var s := source.Pending();
    var lines: seq<string> := [];
    var total: nat := 0;
    assert Prepend([], ReadHead(s, source.ending, utf8, 0, 0)) == ReadHead(s, source.ending, utf8, 0, 0);
    while true
      invariant source.Valid()
      invariant ReadHead(s, source.ending, utf8, 0, 0)
          == Prepend(lines, ReadHead(source.Pending(), source.ending, utf8, |lines|, total))
      decreases |source.Pending()|
    {
      ghost var here := source.Pending();
      NextLineShrinks(here, source.ending);
      var line := ReadLine(source);
      match line {
        case LineTooLong => return Refused(HeadLineTooLong);
        case LineUnreadable => return Refused(HeadUnreadable);
        case NoLine => return Refused(HeadClosed);
        case LineOf(raw) =>
          total := total + |raw|;
          if total > MAX_HEADERS_BYTES { return Refused(HeadTooLarge); }
          if IsBlank(raw) { return Got(lines); }
          if |lines| >= MAX_HEADER_COUNT + 1 { return Refused(HeadTooManyLines); }
          var text := utf8(raw);
          if text.None? { return Refused(HeadNotUtf8); }
          PrependStep(lines, TrimEol(text.value), ReadHead(source.Pending(), source.ending, utf8, |lines| + 1, total));
          lines := lines + [TrimEol(text.value)];
      }
    }
  }

  lemma NextLineShrinks(s: seq<Byte>, ending: Ending)
    ensures NextLine(s, ending).0.LineOf? ==> |NextLine(s, ending).1| < |s| && NextLine(s, ending).0.bytes != []
  {
  }

  // ---- What a successful head looks like ----

  // One newline, at the end, and within the limit.
  ghost predicate IsLine(raw: seq<Byte>) {
    0 < |raw| <= MAX_LINE_BYTES && raw[|raw| - 1] == NEWLINE && forall i :: 0 <= i < |raw| - 1 ==> raw[i] != NEWLINE
  }

  ghost predicate HeaderLines(raws: seq<seq<Byte>>, utf8: Utf8) {
    forall i :: 0 <= i < |raws| ==> IsLine(raws[i]) && !IsBlank(raws[i]) && utf8(raws[i]).Some?
  }

  // A text as a line: what is cut off its end is returns and newlines, and none is left there.
  ghost predicate IsLineText(text: string, line: string) {
    && line <= text
    && (forall i :: |line| <= i < |text| ==> text[i] in {'\r', '\n'})
    && (line != "" ==> line[|line| - 1] !in {'\r', '\n'})
  }

  lemma LineTextIsUnique(text: string, a: string, b: string)
    requires IsLineText(text, a) && IsLineText(text, b)
    ensures a == b
  {
    assert forall i :: 0 <= i < |a| ==> a[i] == text[i];
    assert forall i :: 0 <= i < |b| ==> b[i] == text[i];
  }

  lemma {:induction false} TrimEolIsLineText(text: string)
    ensures IsLineText(text, TrimEol(text))
  {
    if text != "" && text[|text| - 1] in {'\r', '\n'} {
      TrimEolIsLineText(text[..|text| - 1]);
    }
  }

  // The lines are the raw lines, decoded and without their ends.
  ghost predicate AreRead(raws: seq<seq<Byte>>, utf8: Utf8, lines: seq<string>)
    requires HeaderLines(raws, utf8)
  {
    |lines| == |raws| && forall i :: 0 <= i < |raws| ==> IsLineText(utf8(raws[i]).value, lines[i])
  }

  lemma OneMoreIsRead(raw: seq<Byte>, raws: seq<seq<Byte>>, utf8: Utf8, lines: seq<string>)
    requires utf8(raw).Some? && HeaderLines([raw] + raws, utf8)
    requires HeaderLines(raws, utf8) && AreRead(raws, utf8, lines)
    ensures AreRead([raw] + raws, utf8, [TrimEol(utf8(raw).value)] + lines)
  {
    hide TrimEol, IsLineText, IsLine;
    TrimEolIsLineText(utf8(raw).value);
    var all := [TrimEol(utf8(raw).value)] + lines;
    forall i | 0 <= i <= |raws| ensures IsLineText(utf8(([raw] + raws)[i]).value, all[i]) {
      if i > 0 { assert ([raw] + raws)[i] == raws[i - 1] && all[i] == lines[i - 1]; }
    }
  }

  lemma LineThenRest(raw: seq<Byte>, rest: seq<Byte>, ending: Ending)
    requires IsLine(raw)
    ensures NextLine(raw + rest, ending) == (LineOf(raw), rest)
  {
    var s := raw + rest;
    FirstIndexIs(s, NEWLINE, |raw| - 1);
    assert s[..|raw|] == raw && s[|raw|..] == rest;
  }

  // Lines within the limits, a blank line and a body: the head is read, the body is left.
  lemma {:induction false} HeadIsRead(raws: seq<seq<Byte>>, blank: seq<Byte>, body: seq<Byte>, ending: Ending,
                                      utf8: Utf8, count: nat, total: nat)
    requires HeaderLines(raws, utf8) && IsBlank(blank)
    requires count + |raws| <= MAX_HEADER_COUNT + 1 && total + |Joined(raws)| + |blank| <= MAX_HEADERS_BYTES
    ensures var head := ReadHead(Joined(raws) + blank + body, ending, utf8, count, total);
            head.HeadOf? && head.rest == body && AreRead(raws, utf8, head.lines)
    decreases |raws|
  {
    hide NextLine, TrimEol, IsLine;
    if raws == [] {
      assert Joined(raws) + blank + body == blank + body;
      BlankIsLine(blank);
      LineThenRest(blank, body, ending);
    } else {
      var raw, more := raws[0], raws[1..];
      var rest := Joined(more) + blank + body;
      assert Joined(raws) + blank + body == raw + rest;
      LineThenRest(raw, rest, ending);
      assert HeaderLines(more, utf8) by {
        forall i | 0 <= i < |more|
          ensures IsLine(more[i]) && !IsBlank(more[i]) && utf8(more[i]).Some?
        {
          assert raws[i + 1] == more[i];
        }
      }
      HeadIsRead(more, blank, body, ending, utf8, count + 1, total + |raw|);
      OneMoreIsRead(raw, more, utf8, ReadHead(rest, ending, utf8, count + 1, total + |raw|).lines);
      assert raws == [raw] + more;
    }
  }

  lemma BlankIsLine(blank: seq<Byte>)
    requires IsBlank(blank)
    ensures IsLine(blank)
  {
  }

  lemma LastLine(s: seq<Byte>, ending: Ending)
    requires NextLine(s, ending).0.LineOf?
    ensures s == NextLine(s, ending).0.bytes + NextLine(s, ending).1
    ensures IsLine(NextLine(s, ending).0.bytes) || NextLine(s, ending).1 == []
  {
  }

  // After lines within the limits the rest of the bytes decides, with those lines counted.
  lemma {:induction false} HeadGoesOn(raws: seq<seq<Byte>>, tail: seq<Byte>, ending: Ending, utf8: Utf8, count: nat,
                                      total: nat)
    requires HeaderLines(raws, utf8)
    requires count + |raws| <= MAX_HEADER_COUNT + 1 && total + |Joined(raws)| <= MAX_HEADERS_BYTES
    ensures var whole := ReadHead(Joined(raws) + tail, ending, utf8, count, total);
            var rest := ReadHead(tail, ending, utf8, count + |raws|, total + |Joined(raws)|);
            rest.HeadFailed? ==> whole == rest
    decreases |raws|
  {
    hide NextLine, TrimEol, IsLine;
    if raws == [] {
      assert Joined(raws) + tail == tail;
    } else {
      var raw, more := raws[0], raws[1..];
      assert Joined(raws) + tail == raw + (Joined(more) + tail);
      LineThenRest(raw, Joined(more) + tail, ending);
      assert HeaderLines(more, utf8) by {
        forall i | 0 <= i < |more|
          ensures IsLine(more[i]) && !IsBlank(more[i]) && utf8(more[i]).Some?
        {
          assert raws[i + 1] == more[i];
        }
      }
      HeadGoesOn(more, tail, ending, utf8, count + 1, total + |raw|);
    }
  }

  // What is wrong behind the last good line is the error: a line that does not end within 8 KiB,
  // a broken connection, one that ends before the blank line; more than 32 KiB, a 66th line, a
  // line that is no UTF-8.
  lemma FaultIsReported(raws: seq<seq<Byte>>, tail: seq<Byte>, ending: Ending, utf8: Utf8)
    requires HeaderLines(raws, utf8) && |raws| <= 65 && |Joined(raws)| <= 32 * 1024
    ensures var head := ReadHead(Joined(raws) + tail, ending, utf8, 0, 0);
            && (|tail| > 8 * 1024 && NEWLINE !in tail[..8 * 1024] ==> head == HeadFailed(HeadLineTooLong))
            && (|tail| <= 8 * 1024 && NEWLINE !in tail && ending.Broken? ==> head == HeadFailed(HeadUnreadable))
            && (tail == [] && ending.Closed? ==> head == HeadFailed(HeadClosed))
  {
    hide ReadHead, TrimEol;
    HeadGoesOn(raws, tail, ending, utf8, 0, 0);
    OneStep(tail, ending, utf8, |raws|, |Joined(raws)|);
    if |tail| > 8 * 1024 && NEWLINE !in tail[..8 * 1024] {
      LineIsTooLong(tail, tail[..8 * 1024 + 1], ending) by {
        assert tail[..8 * 1024 + 1][..8 * 1024] == tail[..8 * 1024];
      }
    } else if |tail| <= 8 * 1024 && NEWLINE !in tail {
      StreamEndsHere(tail, ending);
    }
  }

  lemma LineIsRefused(raws: seq<seq<Byte>>, line: seq<Byte>, more: seq<Byte>, ending: Ending, utf8: Utf8)
    requires HeaderLines(raws, utf8) && |raws| <= 65 && |Joined(raws)| <= 32 * 1024
    requires IsLine(line) || (NEWLINE !in line && 0 < |line| <= 8 * 1024 && more == [] && ending.Closed?)
    ensures var head := ReadHead(Joined(raws) + (line + more), ending, utf8, 0, 0);
            var fits := |Joined(raws)| + |line| <= 32 * 1024;
            && (!fits ==> head == HeadFailed(HeadTooLarge))
            && (fits && !IsBlank(line) && |raws| == 65 ==> head == HeadFailed(HeadTooManyLines))
            && (fits && !IsBlank(line) && |raws| < 65 && utf8(line).None? ==> head == HeadFailed(HeadNotUtf8))
            && (fits && NEWLINE !in line && |raws| < 65 && utf8(line).Some? ==> head == HeadFailed(HeadClosed))
  {
    hide ReadHead, TrimEol, IsLine, NextLine;
    HeadGoesOn(raws, line + more, ending, utf8, 0, 0);
    OneStep(line + more, ending, utf8, |raws|, |Joined(raws)|);
    if IsLine(line) {
      LineThenRest(line, more, ending);
      assert NEWLINE in line by { LineEndsWithNewline(line); }
    } else {
      assert line + more == line;
      StreamEndsHere(line, ending);
      OneStep([], ending, utf8, |raws| + 1, |Joined(raws)| + |line|);
      StreamEndsHere([], ending);
    }
  }

  lemma LineEndsWithNewline(line: seq<Byte>)
    requires IsLine(line)
    ensures NEWLINE in line
  {
  }

  // One round of the loop
  lemma OneStep(s: seq<Byte>, ending: Ending, utf8: Utf8, count: nat, total: nat)
    ensures var (line, rest) := NextLine(s, ending); var head := ReadHead(s, ending, utf8, count, total);
            && (line == LineTooLong ==> head == HeadFailed(HeadLineTooLong))
            && (line == LineUnreadable ==> head == HeadFailed(HeadUnreadable))
            && (line == NoLine ==> head == HeadFailed(HeadClosed))
            && (line.LineOf? && total + |line.bytes| > 32 * 1024 ==> head == HeadFailed(HeadTooLarge))
            && (line.LineOf? && total + |line.bytes| <= 32 * 1024 && !IsBlank(line.bytes) ==>
                  && (count > 64 ==> head == HeadFailed(HeadTooManyLines))
                  && (count <= 64 && utf8(line.bytes).None? ==> head == HeadFailed(HeadNotUtf8))
                  && (count <= 64 && utf8(line.bytes).Some? ==>
                        var more := ReadHead(rest, ending, utf8, count + 1, total + |line.bytes|);
                        more.HeadFailed? ==> head == more))
  {
    hide NextLine, TrimEol;
  }

  // Conversely every head that is read is of that shape, within all limits, and the bytes
  // behind the first blank line are untouched.
  lemma {:induction false} ReadHeadShape(s: seq<Byte>, ending: Ending, utf8: Utf8, count: nat, total: nat)
    returns (raws: seq<seq<Byte>>, blank: seq<Byte>)
    requires ReadHead(s, ending, utf8, count, total).HeadOf? && count <= MAX_HEADER_COUNT + 1
    ensures HeaderLines(raws, utf8) && IsBlank(blank)
    ensures s == Joined(raws) + blank + ReadHead(s, ending, utf8, count, total).rest
    ensures AreRead(raws, utf8, ReadHead(s, ending, utf8, count, total).lines)
    ensures count + |raws| <= MAX_HEADER_COUNT + 1 && total + |Joined(raws)| + |blank| <= MAX_HEADERS_BYTES
    decreases |s|
  {
    hide NextLine, TrimEol, IsLine;
    var raw, rest := NextLine(s, ending).0.bytes, NextLine(s, ending).1;
    NextLineShrinks(s, ending);
    LastLine(s, ending);
    if IsBlank(raw) {
      raws, blank := [], raw;
      assert Joined(raws) + blank + rest == s;
    } else {
      if rest == [] { NothingLeft(ending, utf8, count + 1, total + |raw|); }
      var more, b := ReadHeadShape(rest, ending, utf8, count + 1, total + |raw|);
      raws, blank := [raw] + more, b;
      assert raws[1..] == more;
      assert Joined(raws) == raw + Joined(more);
      assert s == Joined(raws) + blank + ReadHead(rest, ending, utf8, count + 1, total + |raw|).rest;
      OneMoreIsRead(raw, more, utf8, ReadHead(rest, ending, utf8, count + 1, total + |raw|).lines);
    }
  }

  lemma NothingLeft(ending: Ending, utf8: Utf8, count: nat, total: nat)
    ensures ReadHead([], ending, utf8, count, total).HeadFailed?
  {
  }
}
