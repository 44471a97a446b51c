// Text values: the order that SQLite's BINARY collation and JavaScript's default
// sort put on timestamp columns, and the character classes shared by the parsers.
module Text {

  datatype Option<+T> = None | Some(value: T)

  // ---- Order ----

  predicate Le(a: string, b: string) {
    |a| == 0 || (|b| > 0 && (a[0] < b[0] || (a[0] == b[0] && Le(a[1..], b[1..]))))
  }

  function Max(a: string, b: string): (m: string)
    ensures m == a || m == b
  {
    if Le(a, b) then b else a
  }

  lemma {:induction false} LeReflexive(a: string)
    ensures Le(a, a)
  {
    if |a| > 0 { LeReflexive(a[1..]); }
  }

  lemma {:induction false} LeTotal(a: string, b: string)
    ensures Le(a, b) || Le(b, a)
  {
    if |a| > 0 && |b| > 0 && a[0] == b[0] { LeTotal(a[1..], b[1..]); }
  }

  lemma {:induction false} LeTransitive(a: string, b: string, c: string)
    requires Le(a, b) && Le(b, c)
    ensures Le(a, c)
  {
    if |a| > 0 && a[0] == b[0] == c[0] { LeTransitive(a[1..], b[1..], c[1..]); }
  }

  lemma {:induction false} LeAntisymmetric(a: string, b: string)
    requires Le(a, b) && Le(b, a)
    ensures a == b
  {
    if |a| > 0 {
      LeAntisymmetric(a[1..], b[1..]);
      assert a == [a[0]] + a[1..] && b == [b[0]] + b[1..];
    }
  }

  // The first place at which two texts differ
  predicate DiffersAt(a: string, b: string, n: int) {
    0 <= n < |a| && n < |b| && a[..n] == b[..n] && a[n] != b[n]
  }

  ghost predicate IsLess(a: string, b: string) {
    exists n :: DiffersAt(a, b, n) && a[n] < b[n]
  }

  // A text is not greater than another one when it begins it, or has the smaller character
  // where the two first differ.
  lemma {:induction false} LeIff(a: string, b: string)
    ensures Le(a, b) <==> a <= b || IsLess(a, b)
  {
    if a != [] && b != [] {
      forall n | DiffersAt(a, b, n) && n > 0 ensures a[0] == b[0] && DiffersAt(a[1..], b[1..], n - 1) {
        assert a[0] == a[..n][0] && b[0] == b[..n][0];
        assert a[1..][..n - 1] == a[..n][1..] && b[1..][..n - 1] == b[..n][1..];
      }
      if a[0] == b[0] {
        LeIff(a[1..], b[1..]);
        forall n | DiffersAt(a[1..], b[1..], n) ensures DiffersAt(a, b, n + 1) {
          assert a[..n + 1] == [a[0]] + a[1..][..n] && b[..n + 1] == [b[0]] + b[1..][..n];
        }
        LessIsInherited(a, b);
        assert a <= b <==> a[1..] <= b[1..];
      } else {
        assert DiffersAt(a, b, 0);
      }
    }
  }

  lemma LessIsInherited(a: string, b: string)
    requires a != [] && b != [] && a[0] == b[0]
    requires forall n :: DiffersAt(a[1..], b[1..], n) ==> DiffersAt(a, b, n + 1)
    requires forall n :: DiffersAt(a, b, n) && n > 0 ==> DiffersAt(a[1..], b[1..], n - 1)
    ensures IsLess(a, b) <==> IsLess(a[1..], b[1..])
  {
    if IsLess(a, b) {
      var n :| DiffersAt(a, b, n) && a[n] < b[n];
      assert n > 0 && DiffersAt(a[1..], b[1..], n - 1);
    }
    if IsLess(a[1..], b[1..]) {
      var n :| DiffersAt(a[1..], b[1..], n) && a[1..][n] < b[1..][n];
      assert DiffersAt(a, b, n + 1);
    }
  }

  lemma MaxIsUpperBound(a: string, b: string)
    ensures Le(a, Max(a, b)) && Le(b, Max(a, b))
  {
    LeReflexive(a);
    LeReflexive(b);
    LeTotal(a, b);
  }

  // ---- ASCII case ----

  function LowerAscii(c: char): char {
    if 'A' <= c <= 'Z' then c + 32 as char else c
  }

  function Lower(s: string): (r: string)
    ensures |r| == |s| && forall i :: 0 <= i < |s| ==> r[i] == LowerAscii(s[i])
  {
    seq(|s|, i requires 0 <= i < |s| => LowerAscii(s[i]))
  }

  const UPPER_CASE := "ABCDEFGHIJKLMNOPQRSTUVWXYZ"
  const LOWER_CASE := "abcdefghijklmnopqrstuvwxyz"

  // Each of the 26 letters gets its own small form, every other character stays.
  lemma LowerMapsLetters(s: string, i: nat)
    requires i < |s|
    ensures forall k :: 0 <= k < 26 && s[i] == UPPER_CASE[k] ==> Lower(s)[i] == LOWER_CASE[k]
    ensures s[i] !in UPPER_CASE ==> Lower(s)[i] == s[i]
  {
    LettersAreConsecutive();
    if 'A' <= s[i] <= 'Z' { assert s[i] == UPPER_CASE[s[i] as int - 'A' as int]; }
  }

  lemma LettersAreConsecutive()
    ensures |UPPER_CASE| == |LOWER_CASE| == 26
    ensures forall k :: 0 <= k < 26 ==> UPPER_CASE[k] as int == 'A' as int + k
    ensures forall k :: 0 <= k < 26 ==> LOWER_CASE[k] as int == 'a' as int + k
  {
  }

  // ---- Trimming ----

  // Unicode White_Space, what char::is_whitespace tests
  predicate IsWhitespace(c: char) {
    var n := c as int;
    || 9 <= n <= 13 || n == 32 || n == 0x85 || n == 0xA0 || n == 0x1680
    || 0x2000 <= n <= 0x200A || n == 0x2028 || n == 0x2029 || n == 0x202F || n == 0x205F || n == 0x3000
  }

  function TrimStart(s: string): string {
    if s != "" && IsWhitespace(s[0]) then TrimStart(s[1..]) else s
  }

  function TrimEnd(s: string): string {
    if s != "" && IsWhitespace(s[|s| - 1]) then TrimEnd(s[..|s| - 1]) else s
  }

  function Trim(s: string): string {
    TrimEnd(TrimStart(s))
  }

  predicate IsTrimmed(s: string) {
    s == "" || (!IsWhitespace(s[0]) && !IsWhitespace(s[|s| - 1]))
  }

  lemma TrimOfTrimmed(s: string)
    requires IsTrimmed(s)
    ensures Trim(s) == s
  {
  }

  predicate AllWhitespace(s: string) {
    forall i :: 0 <= i < |s| ==> IsWhitespace(s[i])
  }

  lemma {:induction false} TrimStartDropsPadding(lead: string, s: string)
    requires AllWhitespace(lead) && (s == "" || !IsWhitespace(s[0]))
    ensures TrimStart(lead + s) == s
  {
    if lead == "" {
      assert lead + s == s;
    } else {
      assert (lead + s)[0] == lead[0] && (lead + s)[1..] == lead[1..] + s;
      TrimStartDropsPadding(lead[1..], s);
    }
  }

  lemma {:induction false} TrimEndDropsPadding(s: string, tail: string)
    requires AllWhitespace(tail) && (s == "" || !IsWhitespace(s[|s| - 1]))
    ensures TrimEnd(s + tail) == s
  {
    if tail == "" {
      assert s + tail == s;
    } else {
      var n := |tail| - 1;
      assert (s + tail)[|s| + n] == tail[n] && (s + tail)[..|s| + n] == s + tail[..n];
      TrimEndDropsPadding(s, tail[..n]);
    }
  }

  lemma TrimDropsPadding(lead: string, s: string, tail: string)
    requires AllWhitespace(lead) && AllWhitespace(tail) && IsTrimmed(s)
    ensures Trim(lead + s + tail) == s
  {
    if s == "" {
      assert lead + s + tail == (lead + tail) + "";
      TrimStartDropsPadding(lead + tail, "");
    } else {
      assert lead + s + tail == lead + (s + tail) && (s + tail)[0] == s[0];
      TrimStartDropsPadding(lead, s + tail);
      TrimEndDropsPadding(s, tail);
    }
  }

  lemma {:induction false} TrimStartResult(s: string)
    ensures TrimStart(s) == "" || !IsWhitespace(TrimStart(s)[0])
  {
    if s != "" { TrimStartResult(s[1..]); }
  }

  lemma {:induction false} TrimEndResult(s: string)
    ensures TrimEnd(s) <= s && (TrimEnd(s) == "" || !IsWhitespace(TrimEnd(s)[|TrimEnd(s)| - 1]))
  {
    if s != "" { TrimEndResult(s[..|s| - 1]); }
  }

  lemma TrimIsTrimmed(s: string)
    ensures IsTrimmed(Trim(s))
  {
    TrimStartResult(s);
    TrimEndResult(TrimStart(s));
  }

  // What is cut off at either end is white space.
  lemma TrimSplits(s: string) returns (lead: string, tail: string)
    ensures AllWhitespace(lead) && AllWhitespace(tail) && s == lead + Trim(s) + tail
  {
    lead := TrimStartSplits(s);
    tail := TrimEndSplits(TrimStart(s));
  }

  lemma {:induction false} TrimStartSplits(s: string) returns (lead: string)
    ensures AllWhitespace(lead) && s == lead + TrimStart(s)
  {
    if s != "" && IsWhitespace(s[0]) {
      var more := TrimStartSplits(s[1..]);
      lead := [s[0]] + more;
    } else {
      lead := "";
    }
  }

  lemma {:induction false} TrimEndSplits(s: string) returns (tail: string)
    ensures AllWhitespace(tail) && s == TrimEnd(s) + tail
  {
    if s != "" && IsWhitespace(s[|s| - 1]) {
      var more := TrimEndSplits(s[..|s| - 1]);
      tail := more + [s[|s| - 1]];
      assert s == s[..|s| - 1] + [s[|s| - 1]];
    } else {
      tail := "";
    }
  }

  // ---- Lines ----

  predicate OneLine(s: string) {
    '\n' !in s
  }

  lemma {:induction false} FirstLineIsDetermined(a: string, x: string, b: string, y: string)
    requires OneLine(a) && OneLine(b) && a + "\n" + x == b + "\n" + y
    ensures a == b && x == y
  {
    var s, t := a + "\n" + x, b + "\n" + y;
    assert s[0] == if a == "" then '\n' else a[0];
    assert t[0] == if b == "" then '\n' else b[0];
    if a == "" {
      assert s[1..] == x && t[1..] == y;
    } else {
      assert s[1..] == a[1..] + "\n" + x && t[1..] == b[1..] + "\n" + y;
      FirstLineIsDetermined(a[1..], x, b[1..], y);
      assert a == [a[0]] + a[1..] && b == [b[0]] + b[1..];
    }
  }

  lemma {:induction false} LastLineIsDetermined(x: string, a: string, y: string, b: string)
    requires OneLine(a) && OneLine(b) && x + "\n" + a == y + "\n" + b
    ensures a == b && x == y
  {
    var s, t := x + "\n" + a, y + "\n" + b;
    assert s[|s| - 1] == if a == "" then '\n' else a[|a| - 1];
    assert t[|t| - 1] == if b == "" then '\n' else b[|b| - 1];
    if a == "" {
      assert s[..|s| - 1] == x && t[..|t| - 1] == y;
    } else {
      var m, n := |a| - 1, |b| - 1;
      assert s[..|s| - 1] == x + "\n" + a[..m] && t[..|t| - 1] == y + "\n" + b[..n];
      LastLineIsDetermined(x, a[..m], y, b[..n]);
      assert a == a[..m] + [a[m]] && b == b[..n] + [b[n]];
    }
  }

  // ---- Decimal numbers ----

  function Decimal(n: nat): (s: string)
    ensures s != "" && forall i :: 0 <= i < |s| ==> '0' <= s[i] <= '9'
  {
    if n < 10 then [Digit(n)] else Decimal(n / 10) + [Digit(n % 10)]
  }

  function Digit(n: nat): (c: char)
    requires n < 10
    ensures '0' <= c <= '9' && c as int - '0' as int == n
  {
    (n + '0' as int) as char
  }

  function FromDecimal(s: string): nat
    requires forall i :: 0 <= i < |s| ==> '0' <= s[i] <= '9'
  {
    if s == "" then 0 else 10 * FromDecimal(s[..|s| - 1]) + (s[|s| - 1] as int - '0' as int)
  }

  // The decimal digits without a superfluous zero in front
  predicate IsDecimal(s: string) {
    s != "" && (forall i :: 0 <= i < |s| ==> '0' <= s[i] <= '9') && (s[0] == '0' ==> s == "0")
  }

  lemma {:induction false} DecimalIsDecimal(n: nat)
    ensures IsDecimal(Decimal(n)) && (Decimal(n)[0] == '0' <==> n == 0)
  {
    if n >= 10 { DecimalIsDecimal(n / 10); }
  }

  lemma {:induction false} DecimalRoundTrip(n: nat)
    ensures FromDecimal(Decimal(n)) == n
  {
    if n < 10 {
      assert Decimal(n)[..0] == "";
    } else {
      DecimalRoundTrip(n / 10);
      assert Decimal(n)[..|Decimal(n)| - 1] == Decimal(n / 10);
    }
  }
}
