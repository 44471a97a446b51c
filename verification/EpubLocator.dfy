// The reader's bookmark inside an EPUB: a section number and how far into the section,
// written with six decimals. Numbers are exact reals.
module EpubLocator {
  import opened Text
  import opened Sequences

  function Clamp(value: real, minimum: real, maximum: real): real {
    var low := if value > minimum then value else minimum;
    if low < maximum then low else maximum
  }

  // Math.round: the nearest integer, halves go up
  function Round(x: real): int {
    (x + 0.5).Floor
  }

  const MILLION := 1_000_000

  // ---- Writing ----

  function Padded(n: nat, width: nat): (s: string)
    ensures |s| == width && AllDigits(s)
  {
    if width == 0 then "" else Padded(n / 10, width - 1) + [Digit(n % 10)]
  }

  // The millionths that toFixed(6) keeps of a number between 0 and 1
  function Millionths(x: real): (n: nat)
    requires 0.0 <= x <= 1.0
    ensures n <= MILLION
  {
    Round(x * MILLION as real)
  }

  function SixDecimals(n: nat): string
    requires n <= MILLION
  {
    if n == MILLION then "1.000000" else "0." + Padded(n, 6)
  }

  const PREFIX := "baia-spine:"

  datatype Locator = Locator(kind: string, cfi: string, progression: Option<real>)

  // makeBaiaEpubLocator
  function MakeLocator(spineIndex: int, within: real, overall: Option<real>): Locator {
    var index: nat := if spineIndex > 0 then spineIndex else 0;
    Locator("epub", PREFIX + Decimal(index) + ":" + SixDecimals(Millionths(Clamp(within, 0.0, 1.0))),
            if overall.None? then None else Some(Clamp(overall.value, 0.0, 1.0)))
  }

  // ---- Reading ----

  predicate AllDigits(s: string) {
    forall i :: 0 <= i < |s| ==> '0' <= s[i] <= '9'
  }

  predicate AllZeros(s: string) {
    forall i :: 0 <= i < |s| ==> s[i] == '0'
  }

  function Pow10(k: nat): (p: nat)
    ensures p > 0
  {
    if k == 0 then 1 else 10 * Pow10(k - 1)
  }

  function FractionValue(digits: string): real
    requires AllDigits(digits)
  {
    FromDecimal(digits) as real / Pow10(|digits|) as real
  }

  // (0(.digits)?) or 1(.zeros)?
  function ParseFraction(s: string): Option<real> {
    if s == "0" then Some(0.0)
    else if "0." <= s && |s| > 2 && AllDigits(s[2..]) then Some(FractionValue(s[2..]))
    else if s == "1" || ("1." <= s && |s| > 2 && AllZeros(s[2..])) then Some(1.0)
    else None
  }

  datatype Position = Position(spineIndex: nat, within: real, overall: Option<real>)

  // parseBaiaEpubLocator
  function ParseLocator(locator: Locator): Option<Position> {
    if locator.kind != "epub" || !(PREFIX <= locator.cfi) then None
    else
      var rest := locator.cfi[|PREFIX|..];
      var k := FirstIndex(rest, ':');
      if k == 0 || k == |rest| || !AllDigits(rest[..k]) || ParseFraction(rest[k + 1..]).None? then None
      else
        Some(Position(FromDecimal(rest[..k]), Clamp(ParseFraction(rest[k + 1..]).value, 0.0, 1.0),
                      if locator.progression.None? then None else Some(Clamp(locator.progression.value, 0.0, 1.0))))
  }

  // ---- The grammar ----

  // The text of a fraction and the number it stands for: 0, a zero with decimals, or a one with
  // nothing but zeros behind it.
  ghost predicate Denotes(fraction: string, x: real) {
    || (fraction == "0" && x == 0.0)
    || (exists d :: WithDecimals(fraction, d) && IsValue(d, x))
    || (fraction == "1" && x == 1.0)
    || (exists z :: fraction == "1." + z && z != "" && AllZeros(z) && x == 1.0)
  }

  ghost predicate WithDecimals(fraction: string, d: string) {
    fraction == "0." + d && d != "" && AllDigits(d)
  }

  // The digits behind the point, as a number of that many decimal places
  ghost predicate IsValue(d: string, x: real)
    requires AllDigits(d)
  {
    x * Pow10(|d|) as real == FromDecimal(d) as real
  }

  // The pattern baia-spine:<digits>:<fraction>, as a statement about the text.
  ghost predicate Matches(cfi: string, index: string, fraction: string, x: real) {
    cfi == PREFIX + index + ":" + fraction && index != "" && AllDigits(index) && Denotes(fraction, x)
  }

  lemma Divided(n: real, d: real, x: real)
    requires d > 0.0
    ensures x == n / d <==> x * d == n
  {
    assert n / d * d == n;
  }

  lemma {:induction false} ValueIsFraction(d: string, x: real)
    requires AllDigits(d)
    ensures IsValue(d, x) <==> x == FractionValue(d)
  {
    hide FromDecimal, Pow10;
    Divided(FromDecimal(d) as real, Pow10(|d|) as real, x);
  }

  lemma {:induction false} DecimalsAreDenoted(s: string, d: string, x: real)
    requires WithDecimals(s, d)
    ensures ParseFraction(s) == Some(FractionValue(d))
    ensures IsValue(d, x) <==> x == FractionValue(d)
  {
    hide FractionValue, IsValue;
    ValueIsFraction(d, x);
    assert s[2..] == d && "0." <= s && s[1] == '.';
  }

  lemma {:induction false} ZerosAreDenoted(s: string, z: string)
    requires s == "1." + z && z != "" && AllZeros(z)
    ensures ParseFraction(s) == Some(1.0)
  {
    assert s[2..] == z && s[0] == '1' && "1." <= s;
  }

  lemma {:induction false} FractionIsDenoted(s: string, x: real)
    ensures ParseFraction(s) == Some(x) <==> Denotes(s, x)
  {
    hide FractionValue, IsValue;
    if ParseFraction(s) == Some(x) {
      ParsedIsDenoted(s, x);
    }
    if Denotes(s, x) && s != "0" && s != "1" {
      if d :| WithDecimals(s, d) && IsValue(d, x) {
        DecimalsAreDenoted(s, d, x);
      } else {
        var z :| s == "1." + z && z != "" && AllZeros(z) && x == 1.0;
        ZerosAreDenoted(s, z);
      }
    }
  }

  lemma {:induction false} ParsedIsDenoted(s: string, x: real)
    requires ParseFraction(s) == Some(x)
    ensures Denotes(s, x)
  {
    hide FractionValue, IsValue;
    if s != "0" && s != "1" {
      var d := s[2..];
      assert s == s[..2] + d;
      if "0." <= s && AllDigits(d) {
        assert s[..2] == "0.";
        assert WithDecimals(s, d);
        DecimalsAreDenoted(s, d, x);
      } else {
        assert s[..2] == "1.";
        assert s == "1." + d;
      }
    }
  }

  // A locator is read exactly when its text matches, and what is read is what the text says.
  lemma ParsedIffMatches(locator: Locator)
    ensures ParseLocator(locator).Some? <==> locator.kind == "epub" && exists i, f, x :: Matches(locator.cfi, i, f, x)
    ensures forall i, f, x :: locator.kind == "epub" && Matches(locator.cfi, i, f, x) ==>
              && ParseLocator(locator).value.spineIndex == FromDecimal(i) && ParseLocator(locator).value.within == x
  {
    hide FromDecimal, ParseFraction, Denotes, ParseLocator;
    forall i, f, x | locator.kind == "epub" && Matches(locator.cfi, i, f, x)
      ensures ParseLocator(locator).Some?
      ensures ParseLocator(locator).value.spineIndex == FromDecimal(i) && ParseLocator(locator).value.within == x
    {
      MatchIsParsed(locator, i, f, x);
    }
    if ParseLocator(locator).Some? {
      var i, f, x := ParsedMatches(locator);
    }
  }

  lemma MatchIsParsed(locator: Locator, index: string, fraction: string, x: real)
    requires locator.kind == "epub" && Matches(locator.cfi, index, fraction, x)
    ensures ParseLocator(locator).Some?
    ensures ParseLocator(locator).value.spineIndex == FromDecimal(index) && ParseLocator(locator).value.within == x
  {
    hide FromDecimal, ParseFraction, Denotes;
    var rest := locator.cfi[|PREFIX|..];
    assert rest == index + ":" + fraction;
    FirstIndexOfSeparator(index, ':', fraction);
    assert rest[..|index|] == index && rest[|index| + 1..] == fraction;
    FractionIsDenoted(fraction, x);
    FractionIsProper(fraction);
  }

  lemma ParsedMatches(locator: Locator) returns (index: string, fraction: string, x: real)
    requires ParseLocator(locator).Some?
    ensures locator.kind == "epub" && Matches(locator.cfi, index, fraction, x)
  {
    hide FromDecimal, ParseFraction, Denotes;
    var rest := locator.cfi[|PREFIX|..];
    var k := FirstIndex(rest, ':');
    index, fraction := rest[..k], rest[k + 1..];
    assert locator.cfi == PREFIX + rest && rest == index + ":" + fraction;
    x := ParseFraction(fraction).value;
    FractionIsDenoted(fraction, x);
  }

  lemma {:induction false} FromDecimalFits(s: string)
    requires AllDigits(s)
    ensures FromDecimal(s) < Pow10(|s|)
  {
    if s != "" { FromDecimalFits(s[..|s| - 1]); }
  }

  // The clamp after parsing never changes anything.
  lemma FractionIsProper(s: string)
    requires ParseFraction(s).Some?
    ensures 0.0 <= ParseFraction(s).value <= 1.0
  {
    if s != "0" && "0." <= s && |s| > 2 && AllDigits(s[2..]) {
      var digits := s[2..];
      FromDecimalFits(digits);
      QuotientIsProper(FromDecimal(digits), Pow10(|digits|));
    }
  }

  lemma QuotientIsProper(n: nat, d: nat)
    requires n < d
    ensures 0.0 <= n as real / d as real < 1.0
  {
  }

  // ---- Text round trip ----

  lemma LocatorInWords()
    ensures MakeLocator(2, 0.25, Some(1.5)) == Locator("epub", "baia-spine:2:0.250000", Some(1.0))
  {
    hide Decimal, Padded, Millionths;
    QuarterInMillionths();
    PaddedInWords();
    TwoInWords();
  }

  lemma QuarterInMillionths()
    ensures Millionths(0.25) == 250_000
  {
  }

  lemma TwoInWords()
    ensures Decimal(2) == "2"
  {
  }

  lemma PaddedInWords()
    ensures Padded(250_000, 6) == "250000"
  {
    assert Padded(2, 1) == "2";
    assert Padded(25, 2) == "25";
    assert Padded(250, 3) == "250";
    assert Padded(2_500, 4) == "2500";
    assert Padded(25_000, 5) == "25000";
  }

  // A fraction with exactly six decimals
  lemma SixDecimalsShape(n: nat)
    requires n <= MILLION
    ensures var s := SixDecimals(n); |s| == 8 && s[0] in {'0', '1'} && s[1] == '.' && AllDigits(s[2..])
  {
    assert SixDecimals(n)[2..] == if n == MILLION then "000000" else Padded(n, 6);
  }

  lemma {:induction false} PaddedRoundTrip(n: nat, width: nat)
    requires n < Pow10(width)
    ensures FromDecimal(Padded(n, width)) == n
  {
    if width > 0 {
      PaddedRoundTrip(n / 10, width - 1);
      assert Padded(n, width)[..width - 1] == Padded(n / 10, width - 1);
    }
  }

  lemma SixDecimalsRoundTrip(n: nat)
    requires n <= MILLION
    ensures ParseFraction(SixDecimals(n)) == Some(n as real / MILLION as real)
  {
    hide FromDecimal;
    assert Pow10(3) == 1000;
    assert Pow10(6) == MILLION;
    if n < MILLION {
      PaddedRoundTrip(n, 6);
      assert SixDecimals(n)[2..] == Padded(n, 6);
    } else {
      var s := SixDecimals(n);
      assert s[0] == '1' && s == "1." + "000000" && s[2..] == "000000";
      assert n as real / MILLION as real == 1.0;
    }
  }

  // What is read back from a locator just made: the section exactly, the progression to the
  // nearest millionth.
  lemma LocatorRoundTrip(spineIndex: nat, within: real, overall: Option<real>)
    ensures ParseLocator(MakeLocator(spineIndex, within, overall)) ==
      Some(Position(spineIndex, Millionths(Clamp(within, 0.0, 1.0)) as real / MILLION as real,
                    if overall.None? then None else Some(Clamp(overall.value, 0.0, 1.0))))
  {
    hide FromDecimal, ParseFraction, SixDecimals, Millionths;
    var n := Millionths(Clamp(within, 0.0, 1.0));
    var locator := MakeLocator(spineIndex, within, overall);
    SixDecimalsRoundTrip(n);
    DecimalRoundTrip(spineIndex);
    FractionIsDenoted(SixDecimals(n), n as real / MILLION as real);
    MatchIsParsed(locator, Decimal(spineIndex), SixDecimals(n), n as real / MILLION as real);
  }

  // ---- Pages ----

  // pageIndex / (pageCount - 1)
  function Within(page: nat, count: nat): (x: real)
    requires page < count
    ensures 0.0 <= x <= 1.0
  {
    if count > 1 then page as real / (count - 1) as real else 0.0
  }

  // The page that loadSpine shows at a progression.
  function PageAt(progression: real, count: nat): (page: nat)
    requires count > 0
    ensures page < count
  {
    if count > 1 then
      PageFits(Clamp(progression, 0.0, 1.0), count - 1);
      Scaled(Clamp(progression, 0.0, 1.0), count - 1)
    else 0
  }

  function Scaled(x: real, m: nat): int {
    Round(x * m as real)
  }

  lemma PageFits(x: real, m: nat)
    requires 0.0 <= x <= 1.0
    ensures 0 <= Scaled(x, m) <= m
  {
    ProductIsBounded(x, m as real);
    RoundIsMonotone(0.0, x * m as real);
    RoundIsMonotone(x * m as real, m as real);
  }

  lemma ProductIsBounded(x: real, m: real)
    requires 0.0 <= x <= 1.0 && 0.0 <= m
    ensures 0.0 <= x * m <= m
  {
  }

  // The page shown after a bookmark of `page` was saved and read again.
  function Restored(page: nat, count: nat): (p: nat)
    requires page < count
    ensures p < count
  {
    PageAt(Millionths(Within(page, count)) as real / MILLION as real, count)
  }

  lemma RoundNear(x: real, k: int)
    ensures Round(x) == k <==> k as real - 0.5 <= x < k as real + 0.5
  {
  }

  // a / b * b, spelled out
  lemma Cancel(a: real, b: real)
    requires b != 0.0
    ensures a / b * b == a
  {
  }

  // Without rounding to six decimals, reloading returns to the page.
  lemma ExactReload(page: nat, count: nat)
    requires page < count
    ensures PageAt(Within(page, count), count) == page
  {
    if count > 1 {
      Cancel(page as real, (count - 1) as real);
      RoundNear(page as real, page);
      assert Scaled(Within(page, count), count - 1) == page;
    }
  }

  // An error of half a millionth, scaled to fewer than a million pages.
  lemma ErrorShrinks(d: real, m: real)
    requires -0.5 < d * 1_000_000.0 <= 0.5 && 0.0 < m < 1_000_000.0
    ensures -0.5 < d * m < 0.5
  {
    if d > 0.0 {
      assert 0.0 < d * m < d * 1_000_000.0;
    } else if d < 0.0 {
      assert d * 1_000_000.0 < d * m < 0.0;
    } else {
      assert d * m == 0.0;
    }
  }

  lemma ScaledError(x: real, n: nat, m: nat)
    requires 0 < m <= MILLION && n as real - 0.5 <= x * MILLION as real < n as real + 0.5
    ensures m < MILLION ==> x * m as real - 0.5 < n as real / MILLION as real * m as real < x * m as real + 0.5
    ensures m == MILLION ==> n as real / MILLION as real * m as real == n as real
  {
    var y := n as real / MILLION as real;
    Cancel(n as real, MILLION as real);
    if m < MILLION {
      ErrorShrinks(y - x, m as real);
      Distribute(y, x, m as real);
    }
  }

  lemma Distribute(y: real, x: real, m: real)
    ensures (y - x) * m == y * m - x * m
  {
  }

  lemma PageReturns(page: nat, count: nat)
    requires page < count && count - 1 <= MILLION
    ensures Restored(page, count) == page
  {
    hide Round, Scaled, Millionths;
    if count > 1 {
      var m := count - 1;
      var x := Within(page, count);
      Cancel(page as real, m as real);
      MillionthsAreNear(x);
      QuotientIsProperOrOne(Millionths(x));
      ScaledReturns(x, Millionths(x), m, page);
    }
  }

  lemma MillionthsAreNear(x: real)
    requires 0.0 <= x <= 1.0
    ensures Millionths(x) as real - 0.5 <= x * MILLION as real < Millionths(x) as real + 0.5
  {
    RoundNear(x * MILLION as real, Millionths(x));
  }

  lemma ScaledReturns(x: real, n: nat, m: nat, page: nat)
    requires 0 < m <= MILLION && x * m as real == page as real
    requires n as real - 0.5 <= x * MILLION as real < n as real + 0.5
    ensures Scaled(n as real / MILLION as real, m) == page
  {
    ScaledError(x, n, m);
    RoundNear(n as real / MILLION as real * m as real, page);
    if m == MILLION {
      assert n == page;
    }
  }

  lemma QuotientIsProperOrOne(n: nat)
    requires n <= MILLION
    ensures 0.0 <= n as real / MILLION as real <= 1.0
  {
  }

  // If every page returns, no two pages share a decimal, so page k has at least k millionths.
  lemma {:induction false} DecimalsSpread(k: nat, count: nat)
    requires k < count && forall p :: 0 <= p < count ==> Restored(p, count) == p
    ensures Millionths(Within(k, count)) >= k
  {
    hide PageAt, Millionths;
    if k > 0 {
      DecimalsSpread(k - 1, count);
      DecimalsGrow(k - 1, count);
      assert Restored(k, count) != Restored(k - 1, count);
    }
  }

  lemma DecimalsGrow(k: nat, count: nat)
    requires k + 1 < count
    ensures Millionths(Within(k, count)) <= Millionths(Within(k + 1, count))
  {
    var m := (count - 1) as real;
    assert k as real / m <= (k + 1) as real / m;
    RoundIsMonotone(Within(k, count) * MILLION as real, Within(k + 1, count) * MILLION as real);
  }

  lemma RoundIsMonotone(x: real, y: real)
    requires x <= y
    ensures Round(x) <= Round(y)
  {
  }

  // Six decimals bring every page of a section back exactly when it has at most 1,000,001.
  lemma EveryPageReturnsIff(count: nat)
    requires count > 0
    ensures (forall page :: 0 <= page < count ==> Restored(page, count) == page) <==> count - 1 <= MILLION
  {
    hide Restored;
    if count - 1 <= MILLION {
      forall page | 0 <= page < count ensures Restored(page, count) == page {
        PageReturns(page, count);
      }
    } else if forall page :: 0 <= page < count ==> Restored(page, count) == page {
      DecimalsSpread(count - 1, count);
      assert false;
    }
  }

  // ---- How many pages a section has ----

  function Ceil(x: real): int {
    -((-x).Floor)
  }

  // epubPageCount, for finite widths
  function PageCount(contentWidth: real, pageWidth: real): (n: nat)
    ensures n > 0
  {
    if contentWidth <= 0.0 || pageWidth <= 0.0 then 1
    else
      var n := Ceil((contentWidth - 0.5) / pageWidth);
      if n > 1 then n else 1
  }

  // The least number of pages that leaves at most half a pixel of content uncovered.
  lemma PageCountIsLeast(contentWidth: real, pageWidth: real, n: nat)
    requires contentWidth > 0.0 && pageWidth > 0.0 && n > 0
    ensures n >= PageCount(contentWidth, pageWidth) <==> contentWidth - n as real * pageWidth <= 0.5
  {
    var q := (contentWidth - 0.5) / pageWidth;
    Cancel(contentWidth - 0.5, pageWidth);
    assert n >= Ceil(q) <==> n as real >= q;
    if n as real >= q {
      assert n as real * pageWidth >= q * pageWidth;
    } else {
      assert n as real * pageWidth < q * pageWidth;
    }
  }
}
