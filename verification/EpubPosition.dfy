// Turning the pages of an EPUB: sections in spine order, pages within a section, and the
// place that a bookmark brings back.
module EpubPosition {
  import opened Text
  import opened EpubLocator

  // Where the reader is: spineIndex and pageIndex
  datatype Place = Place(section: nat, page: nat)

  // The page count of every section under one layout
  type Pages = p: seq<nat> | |p| > 0 && forall i :: 0 <= i < |p| ==> p[i] > 0 witness [1]

  // The measured width of every section; no content is narrower than the viewport.
  datatype Layout = Layout(scrollWidths: seq<real>, viewport: real)

  function PagesOf(layout: Layout): (p: Pages)
    requires |layout.scrollWidths| > 0
    ensures |p| == |layout.scrollWidths|
  {
    seq(|layout.scrollWidths|, i requires 0 <= i < |layout.scrollWidths| =>
      var w := layout.scrollWidths[i];
      PageCount(if w > layout.viewport then w else layout.viewport, layout.viewport))
  }

  predicate InBook(pages: Pages, p: Place) {
    p.section < |pages| && p.page < pages[p.section]
  }

  function ClampIndex(index: int, minimum: int, maximum: int): int {
    var low := if index > minimum then index else minimum;
    if low < maximum then low else maximum
  }

  // The place loadSpine ends at
  function Loaded(pages: Pages, index: int, progression: real): (p: Place)
    ensures InBook(pages, p)
  {
    var section := ClampIndex(index, 0, |pages| - 1);
    Place(section, PageAt(progression, pages[section]))
  }

  predicate CanNext(pages: Pages, p: Place)
    requires InBook(pages, p)
  {
    p.section < |pages| - 1 || p.page < pages[p.section] - 1
  }

  predicate CanPrev(p: Place) {
    p.section > 0 || p.page > 0
  }

  function Next(pages: Pages, p: Place): (q: Place)
    requires InBook(pages, p)
    ensures InBook(pages, q)
  {
    if !CanNext(pages, p) then p
    else if p.page < pages[p.section] - 1 then Place(p.section, p.page + 1)
    else Loaded(pages, p.section + 1, 0.0)
  }

  function Prev(pages: Pages, p: Place): (q: Place)
    requires InBook(pages, p)
    ensures InBook(pages, q)
  {
    if !CanPrev(p) then p
    else if p.page > 0 then Place(p.section, p.page - 1)
    else Loaded(pages, p.section - 1, 1.0)
  }

  function Overall(pages: Pages, p: Place): real
    requires InBook(pages, p)
  {
    (p.section as real + Within(p.page, pages[p.section])) / |pages| as real
  }

  function Bookmark(pages: Pages, p: Place): Locator
    requires InBook(pages, p)
  {
    MakeLocator(p.section, Within(p.page, pages[p.section]), Some(Overall(pages, p)))
  }

  // Where a reader opens: at the bookmark when it can be read, at the start otherwise.
  function Opened(pages: Pages, bookmark: Locator): (p: Place)
    ensures InBook(pages, p)
  {
    match ParseLocator(bookmark)
    case None => Loaded(pages, 0, 0.0)
    case Some(r) => Loaded(pages, ClampIndex(r.spineIndex, 0, |pages| - 1), r.within)
  }

  // How a load ends: the section is shown, its source cannot be fetched or prepared, or it
  // turns out to have no body after the section was already switched.
  datatype Loading = Displayed | NoSource | NoContent

  function Landed(from: Place, to: Place, loading: Loading): Place {
    match loading
    case Displayed => to
    case NoSource => from
    case NoContent => Place(to.section, 0)
  }

  class EpubRenderer {
    var layout: Layout              // what the browser would measure now
    var spineIndex: nat
    var pageIndex: nat
    var pageCount: nat              // as measured when the section was loaded
    var busy: bool
    var resizing: Option<real>      // the progression that a pending resize timer will load

    ghost predicate Valid()
      reads this
    {
      spineIndex < |layout.scrollWidths| && pageIndex < pageCount
    }

    function At(): Place
      reads this
    {
      Place(spineIndex, pageIndex)
    }

    // The page counts that turning pages goes by: the shown section's as it was measured, the
    // others' as they would be.
    function PagesShown(): (p: Pages)
      requires Valid()
      reads this
      ensures InBook(p, At())
    {
      PagesOf(layout)[spineIndex := pageCount]
    }

    constructor (layout: Layout, bookmark: Locator)
      requires |layout.scrollWidths| > 0
      ensures Valid() && !busy && resizing == None && this.layout == layout
      ensures At() == Opened(PagesOf(layout), bookmark) && PagesShown() == PagesOf(layout)
    {
      this.layout := layout;
      spineIndex, pageIndex, pageCount, busy, resizing := 0, 0, 1, false, None;
      new;
      var resume := ParseLocator(bookmark);
      if resume.Some? {
        var index := ClampIndex(resume.value.spineIndex, 0, |layout.scrollWidths| - 1);
        LoadSpine(index, resume.value.within, Displayed);
      } else {
        LoadSpine(0, 0.0, Displayed);
      }
    }

    method LoadSpine(index: int, progression: real, loading: Loading)
      requires Valid()
      modifies this`spineIndex, this`pageIndex, this`pageCount, this`busy
      ensures Valid() && busy == old(busy)
      ensures old(busy) ==> At() == old(At()) && pageCount == old(pageCount)
      ensures !old(busy) ==> At() == Landed(old(At()), Loaded(PagesOf(layout), index, progression), loading)
      ensures !old(busy) ==> pageCount == if loading.Displayed? then PagesOf(layout)[spineIndex] else old(pageCount)
      ensures !old(busy) && loading.NoSource? ==> At() == old(At())
      ensures !old(busy) && loading.NoContent? ==> pageIndex == 0
      ensures !old(busy) && !loading.NoSource? ==>
                spineIndex == if index < 0 then 0 else if index < |layout.scrollWidths| then index
                              else |layout.scrollWidths| - 1
    {
      if busy { return; }
      busy := true;
      if loading.NoSource? {
        busy := false;
        return;
      }
      spineIndex := ClampIndex(index, 0, |layout.scrollWidths| - 1);
      pageIndex := 0;
      if loading.NoContent? {
        busy := false;
        return;
      }
      var width := layout.scrollWidths[spineIndex];
      pageCount := PageCount(if width > layout.viewport then width else layout.viewport, layout.viewport);
      pageIndex := PageAt(progression, pageCount);
      busy := false;
    }

    method TurnForward(loading: Loading)
      requires Valid()
      modifies this`spineIndex, this`pageIndex, this`pageCount, this`busy
      ensures Valid() && busy == old(busy)
      ensures var here := old(At()); var next := Next(old(PagesShown()), here);
              At() == if busy then here else if next.section == here.section then next else Landed(here, next, loading)
      ensures spineIndex == old(spineIndex) || !loading.Displayed? ==> pageCount == old(pageCount)
      ensures spineIndex != old(spineIndex) && loading.Displayed? ==> PagesShown() == PagesOf(layout)
    {
      if busy || !(spineIndex < |layout.scrollWidths| - 1 || pageIndex < pageCount - 1) { return; }
      if pageIndex < pageCount - 1 {
        pageIndex := pageIndex + 1;
        return;
      }
      LoadSpine(spineIndex + 1, 0.0, loading);
    }

    method TurnBack(loading: Loading)
      requires Valid()
      modifies this`spineIndex, this`pageIndex, this`pageCount, this`busy
      ensures Valid() && busy == old(busy)
      ensures var here := old(At()); var prev := Prev(old(PagesShown()), here);
              At() == if busy then here else if prev.section == here.section then prev else Landed(here, prev, loading)
      ensures spineIndex == old(spineIndex) || !loading.Displayed? ==> pageCount == old(pageCount)
      ensures spineIndex != old(spineIndex) && loading.Displayed? ==> PagesShown() == PagesOf(layout)
    {
      if busy || !(spineIndex > 0 || pageIndex > 0) { return; }
      if pageIndex > 0 {
        pageIndex := pageIndex - 1;
        return;
      }
      LoadSpine(spineIndex - 1, 1.0, loading);
    }

    // A zoom step that changes the layout to `zoomed`: the progression is used at once.
    method Zoom(zoomed: Layout, loading: Loading)
      requires Valid() && |zoomed.scrollWidths| == |layout.scrollWidths|
      modifies this`layout, this`spineIndex, this`pageIndex, this`pageCount, this`busy
      ensures Valid() && busy == old(busy)
      ensures busy ==> At() == old(At()) && pageCount == old(pageCount) && layout == old(layout)
      ensures !busy ==>
                && layout == zoomed
                && var within := Within(old(pageIndex), old(pageCount));
                   At() == Landed(old(At()), Loaded(PagesOf(zoomed), old(spineIndex), within), loading)
    {
      if busy { return; }
      var within := if pageCount > 1 then pageIndex as real / (pageCount - 1) as real else 0.0;
      layout := zoomed;
      LoadSpine(spineIndex, within, loading);
    }

    // The window gets another size: only the progression is noted, and a timer started. A
    // timer that was already running is replaced.
    method Resize(resized: Layout)
      requires Valid() && |resized.scrollWidths| == |layout.scrollWidths|
      modifies this`layout, this`resizing
      ensures Valid() && layout == resized && resizing == Some(Within(pageIndex, pageCount))
    {
      layout := resized;
      resizing := Some(if pageCount > 1 then pageIndex as real / (pageCount - 1) as real else 0.0);
    }

    // The timer fires: the section shown by then is loaded at the noted progression, unless a
    // load is going on, in which case the relayout is dropped.
    method ResizeTimer(loading: Loading)
      requires Valid()
      modifies this`spineIndex, this`pageIndex, this`pageCount, this`busy, this`resizing
      ensures Valid() && busy == old(busy) && resizing == None
      ensures busy || old(resizing) == None ==> At() == old(At()) && pageCount == old(pageCount)
      ensures !busy && old(resizing) != None ==>
                At() == Landed(old(At()), Loaded(PagesOf(layout), old(spineIndex), old(resizing).value), loading)
    {
      if resizing.None? { return; }
      var within := resizing.value;
      resizing := None;
      LoadSpine(spineIndex, within, loading);
    }

    method MakeBookmark() returns (r: Locator)
      requires Valid()
      ensures r == Bookmark(PagesShown(), At())
    {
      var within := if pageCount > 1 then pageIndex as real / (pageCount - 1) as real else 0.0;
      var sections := |layout.scrollWidths|;
      var overall := (spineIndex as real + within) / (if sections > 1 then sections else 1) as real;
      r := MakeLocator(spineIndex, within, Some(overall));
    }
  }

  // ---- The book as one row of pages ----

  function Sum(pages: seq<nat>): nat {
    if pages == [] then 0 else Sum(pages[..|pages| - 1]) + pages[|pages| - 1]
  }

  lemma SumStep(pages: seq<nat>, i: nat)
    requires i < |pages|
    ensures Sum(pages[..i + 1]) == Sum(pages[..i]) + pages[i]
  {
    assert pages[..i + 1][..i] == pages[..i];
  }

  // The number of pages before this one
  function Flat(pages: Pages, p: Place): nat
    requires InBook(pages, p)
  {
    Sum(pages[..p.section]) + p.page
  }

  predicate Before(p: Place, q: Place) {
    p.section < q.section || (p.section == q.section && p.page < q.page)
  }

  lemma {:induction false} SumGrows(pages: Pages, i: nat, j: nat)
    requires i < j <= |pages|
    ensures Sum(pages[..i]) + pages[i] <= Sum(pages[..j])
  {
    SumStep(pages, j - 1);
    if i < j - 1 { SumGrows(pages, i, j - 1); }
  }

  // Reading order is lexicographic order.
  lemma FlatIsLexicographic(pages: Pages, p: Place, q: Place)
    requires InBook(pages, p) && InBook(pages, q)
    ensures Flat(pages, p) < Flat(pages, q) <==> Before(p, q)
    ensures Flat(pages, p) == Flat(pages, q) <==> p == q
    ensures Flat(pages, p) < Sum(pages)
  {
    hide Sum;
    assert pages[..|pages|] == pages;
    SumGrows(pages, p.section, |pages|);
    if p.section < q.section {
      SumGrows(pages, p.section, q.section);
    } else if q.section < p.section {
      SumGrows(pages, q.section, p.section);
    }
  }

  // ---- Turning pages ----

  lemma LoadedAtTheEnds(pages: Pages, section: nat)
    requires section < |pages|
    ensures Loaded(pages, section, 0.0) == Place(section, 0)
    ensures Loaded(pages, section, 1.0) == Place(section, pages[section] - 1)
  {
    if pages[section] > 1 {
      RoundNear(0.0 * (pages[section] - 1) as real, 0);
      RoundNear(1.0 * (pages[section] - 1) as real, pages[section] - 1);
    }
  }

  // next goes to the very next page, and stays exactly on the last one.
  lemma NextAdvances(pages: Pages, p: Place)
    requires InBook(pages, p)
    ensures CanNext(pages, p) <==> Flat(pages, p) < Sum(pages) - 1
    ensures Flat(pages, Next(pages, p)) == if CanNext(pages, p) then Flat(pages, p) + 1 else Flat(pages, p)
  {
    hide Sum, Loaded;
    assert pages[..|pages|] == pages;
    SumStep(pages, p.section);
    if p.section < |pages| - 1 {
      LoadedAtTheEnds(pages, p.section + 1);
      SumGrows(pages, p.section + 1, |pages|);
    } else {
      assert p.section + 1 == |pages|;
    }
  }

  lemma PrevGoesBack(pages: Pages, p: Place)
    requires InBook(pages, p)
    ensures CanPrev(p) <==> Flat(pages, p) > 0
    ensures Flat(pages, Prev(pages, p)) == if CanPrev(p) then Flat(pages, p) - 1 else Flat(pages, p)
  {
    hide Sum, Loaded;
    if p.section > 0 {
      LoadedAtTheEnds(pages, p.section - 1);
      SumStep(pages, p.section - 1);
      SumGrows(pages, 0, p.section);
    } else {
      assert Sum(pages[..0]) == 0 by { EmptySum(); }
    }
  }

  lemma EmptySum()
    ensures Sum([]) == 0
  {
  }

  // Across section boundaries too, each undoes the other.
  lemma PrevUndoesNext(pages: Pages, p: Place)
    requires InBook(pages, p)
    ensures CanNext(pages, p) ==> CanPrev(Next(pages, p)) && Prev(pages, Next(pages, p)) == p
    ensures CanPrev(p) ==> CanNext(pages, Prev(pages, p)) && Next(pages, Prev(pages, p)) == p
  {
    hide Flat, Sum, Next, Prev, CanNext, CanPrev;
    var n, b := Next(pages, p), Prev(pages, p);
    NextAdvances(pages, p);
    PrevGoesBack(pages, p);
    PrevGoesBack(pages, n);
    NextAdvances(pages, b);
    FlatIsLexicographic(pages, p, p);
    FlatIsLexicographic(pages, Prev(pages, n), p);
    FlatIsLexicographic(pages, Next(pages, b), p);
  }

  // n times next from the first page
  function Walk(pages: Pages, n: nat): (p: Place)
    ensures InBook(pages, p)
  {
    if n == 0 then Place(0, 0) else Next(pages, Walk(pages, n - 1))
  }

  lemma {:induction false} WalkIsFlat(pages: Pages, n: nat)
    ensures Flat(pages, Walk(pages, n)) == if n < Sum(pages) then n else Sum(pages) - 1
  {
    hide Sum, Next, CanNext;
    if n == 0 {
      EmptySum();
      FlatIsLexicographic(pages, Place(0, 0), Place(0, 0));
    } else {
      WalkIsFlat(pages, n - 1);
      NextAdvances(pages, Walk(pages, n - 1));
    }
  }

  // Repeated next from the first page shows every page exactly once, in reading order, and
  // stops exactly where canNext is false.
  lemma EveryPageOnce(pages: Pages, n: nat, p: Place)
    requires InBook(pages, p)
    ensures n < Sum(pages) ==> (Walk(pages, n) == p <==> n == Flat(pages, p))
    ensures CanNext(pages, Walk(pages, n)) <==> n < Sum(pages) - 1
    ensures n >= Sum(pages) - 1 ==> Walk(pages, n) == Place(|pages| - 1, pages[|pages| - 1] - 1)
  {
    hide Sum, Walk, Next, CanNext, Flat;
    WalkIsFlat(pages, n);
    NextAdvances(pages, Walk(pages, n));
    FlatIsLexicographic(pages, Walk(pages, n), p);
    var last := Place(|pages| - 1, pages[|pages| - 1] - 1);
    LastIsFlat(pages, last);
    FlatIsLexicographic(pages, Walk(pages, n), last);
  }

  lemma LastIsFlat(pages: Pages, last: Place)
    requires last == Place(|pages| - 1, pages[|pages| - 1] - 1)
    ensures Flat(pages, last) == Sum(pages) - 1
  {
    assert pages[..|pages|] == pages;
    SumStep(pages, last.section);
  }

  // ---- What is measured, and where a book opens ----

  // Every section gets the least number of pages that leaves at most half a pixel of it, or of
  // the viewport, uncovered.
  lemma PagesAreLeast(layout: Layout, i: nat, n: nat)
    requires i < |layout.scrollWidths| && layout.viewport > 0.0 && n > 0
    ensures n >= PagesOf(layout)[i] <==>
            && layout.scrollWidths[i] - n as real * layout.viewport <= 0.5
            && layout.viewport - n as real * layout.viewport <= 0.5
  {
    hide PageCount;
    var w := layout.scrollWidths[i];
    PageCountIsLeast(if w > layout.viewport then w else layout.viewport, layout.viewport, n);
  }

  // Without a readable bookmark a book opens on its first page; with one in the bookmarked
  // section, or the last if there are fewer, on the page nearest to the progression, of two the
  // later one.
  lemma OpenedWhere(pages: Pages, bookmark: Locator)
    ensures ParseLocator(bookmark).None? ==> Opened(pages, bookmark) == Place(0, 0)
    ensures ParseLocator(bookmark).Some? ==>
              var r, p := ParseLocator(bookmark).value, Opened(pages, bookmark);
              && p.section == (if r.spineIndex < |pages| then r.spineIndex else |pages| - 1)
              && 0.0 <= r.within <= 1.0
              && -0.5 < p.page as real - r.within * (pages[p.section] - 1) as real <= 0.5
  {
    hide ParseFraction, FromDecimal;
    LoadedAtTheEnds(pages, 0);
    if ParseLocator(bookmark).Some? {
      var r, p := ParseLocator(bookmark).value, Opened(pages, bookmark);
      RoundNear(r.within * (pages[p.section] - 1) as real, p.page);
    }
  }

  // ---- Progress ----

  lemma Quotients(x: real, y: real, d: real)
    requires d > 0.0
    ensures x <= y <==> x / d <= y / d
    ensures x < y <==> x / d < y / d
  {
    assert x / d * d == x && y / d * d == y;
  }

  // The overall progression lies between 0 and 1.
  lemma OverallIsAFraction(pages: Pages, p: Place)
    requires InBook(pages, p)
    ensures 0.0 <= Overall(pages, p) <= 1.0
  {
    var s := |pages| as real;
    Quotients(0.0, p.section as real + Within(p.page, pages[p.section]), s);
    Quotients(p.section as real + Within(p.page, pages[p.section]), s, s);
  }

  // The overall progression counts each section alike, however many pages it has: 0 on the
  // first page, 1 on the last one unless that is alone in its section.
  lemma OverallIs(pages: Pages, p: Place)
    requires InBook(pages, p)
    ensures pages[p.section] > 1 ==>
              (Overall(pages, p) * |pages| as real - p.section as real) * (pages[p.section] - 1) as real
              == p.page as real
    ensures pages[p.section] == 1 ==> Overall(pages, p) * |pages| as real == p.section as real
    ensures Overall(pages, Place(0, 0)) == 0.0
    ensures var last := pages[|pages| - 1];
            Overall(pages, Place(|pages| - 1, last - 1)) * |pages| as real
            == (if last > 1 then |pages| else |pages| - 1) as real
  {
    hide Within;
    WithinTimes(p.page, pages[p.section]);
    WithinAtTheEnds(pages[0]);
    WithinAtTheEnds(pages[|pages| - 1]);
    Cancel(p.section as real + Within(p.page, pages[p.section]), |pages| as real);
    Cancel(0.0, |pages| as real);
    var last := pages[|pages| - 1];
    Cancel((|pages| - 1) as real + Within(last - 1, last), |pages| as real);
  }

  lemma WithinTimes(page: nat, count: nat)
    requires page < count
    ensures count > 1 ==> Within(page, count) * (count - 1) as real == page as real
    ensures count == 1 ==> Within(page, count) == 0.0
  {
    if count > 1 { Cancel(page as real, (count - 1) as real); }
  }

  lemma WithinGrows(page: nat, count: nat)
    requires page + 1 < count
    ensures Within(page, count) < Within(page + 1, count)
  {
    Quotients(page as real, (page + 1) as real, (count - 1) as real);
  }

  // Along next it never falls, and it rises except from the end of a section of several
  // pages to the start of the next one.
  lemma OverallGrows(pages: Pages, p: Place)
    requires InBook(pages, p) && CanNext(pages, p)
    ensures Overall(pages, p) <= Overall(pages, Next(pages, p))
    ensures Overall(pages, p) < Overall(pages, Next(pages, p)) <==>
        p.page < pages[p.section] - 1 || pages[p.section] == 1
  {
    hide Within, Loaded;
    var q := Next(pages, p);
    if p.page < pages[p.section] - 1 {
      WithinGrows(p.page, pages[p.section]);
    } else {
      LoadedAtTheEnds(pages, p.section + 1);
      WithinAtTheEnds(pages[p.section]);
      WithinAtTheEnds(pages[p.section + 1]);
    }
    var x := p.section as real + Within(p.page, pages[p.section]);
    var y := q.section as real + Within(q.page, pages[q.section]);
    Quotients(x, y, |pages| as real);
  }

  lemma WithinAtTheEnds(count: nat)
    requires count > 0
    ensures Within(0, count) == 0.0 && Within(count - 1, count) == if count > 1 then 1.0 else 0.0
  {
    if count > 1 {
      var m := (count - 1) as real;
      assert 0.0 / m == 0.0 && m / m == 1.0;
    }
  }

  // ---- Bookmarks ----

  // A bookmark saved on any page of the book and opened under the same layout.
  lemma BookmarkReopens(pages: Pages, p: Place)
    requires InBook(pages, p)
    ensures Opened(pages, Bookmark(pages, p)) == Place(p.section, Restored(p.page, pages[p.section]))
    ensures pages[p.section] - 1 <= MILLION ==> Opened(pages, Bookmark(pages, p)) == p
    ensures ParseLocator(Bookmark(pages, p)).Some?
    ensures ParseLocator(Bookmark(pages, p)).value.overall == Some(Overall(pages, p))
  {
    hide Within, ParseLocator, MakeLocator, Millionths, PageAt, Overall;
    var count := pages[p.section];
    OverallIsAFraction(pages, p);
    LocatorRoundTrip(p.section, Within(p.page, count), Some(Overall(pages, p)));
    if count - 1 <= MILLION { PageReturns(p.page, count); }
  }

  // Every page of the book comes back exactly when no section has more than 1,000,001 pages.
  lemma EveryBookmarkReopensIff(pages: Pages)
    ensures (forall p :: InBook(pages, p) ==> Opened(pages, Bookmark(pages, p)) == p)
       <==> forall i :: 0 <= i < |pages| ==> pages[i] - 1 <= MILLION
  {
    hide Opened, Bookmark, Restored;
    forall p | InBook(pages, p)
      ensures Opened(pages, Bookmark(pages, p)) == Place(p.section, Restored(p.page, pages[p.section]))
      ensures pages[p.section] - 1 <= MILLION ==> Opened(pages, Bookmark(pages, p)) == p
    {
      BookmarkReopens(pages, p);
    }
    if forall p :: InBook(pages, p) ==> Opened(pages, Bookmark(pages, p)) == p {
      forall i | 0 <= i < |pages| ensures pages[i] - 1 <= MILLION {
        forall k | 0 <= k < pages[i] ensures Restored(k, pages[i]) == k {
          assert InBook(pages, Place(i, k));
        }
        EveryPageReturnsIff(pages[i]);
      }
    }
  }

  // ---- Relayout ----

  // A section loaded again at the progression just read, as a zoom does: with as many pages
  // as before on the same page, with another number on the page nearest to it.
  lemma RelayoutKeepsThePlace(before: Pages, after: Pages, p: Place)
    requires |before| == |after| && InBook(before, p)
    ensures var q := Loaded(after, p.section, Within(p.page, before[p.section]));
            && q.section == p.section
            && (after[p.section] == before[p.section] ==> q == p)
            && var x, m := Within(p.page, before[p.section]) * (after[p.section] - 1) as real, q.page as real;
               -0.5 < m - x <= 0.5
  {
    ExactReload(p.page, before[p.section]);
    var x, n := Within(p.page, before[p.section]), after[p.section];
    if n > 1 {
      RoundNear(x * (n - 1) as real, PageAt(x, n));
    }
  }

  // Where a resize noted at p and carried out at q leads.
  function Resized(before: Pages, after: Pages, p: Place, q: Place): Place
    requires InBook(before, p) && q.section < |after|
  {
    Loaded(after, q.section, Within(p.page, before[p.section]))
  }

  // The reader stays exactly when q is the page of its section nearest to the noted
  // progression. Under one layout a page turn within the section is therefore always undone.
  lemma ResizeKeepsThePlaceIff(before: Pages, after: Pages, p: Place, q: Place)
    requires InBook(before, p) && InBook(after, q)
    ensures Resized(before, after, p, q) == q <==>
            var x := Within(p.page, before[p.section]) * (after[q.section] - 1) as real;
            q.page as real - 0.5 <= x < q.page as real + 0.5
    ensures q.section == p.section && after[q.section] == before[p.section] ==> Resized(before, after, p, q) == p
  {
    var x, n := Within(p.page, before[p.section]), after[q.section];
    ExactReload(p.page, before[p.section]);
    if n > 1 {
      RoundNear(x * (n - 1) as real, q.page);
      assert PageAt(x, n) == Round(x * (n - 1) as real);
    }
  }

  // A page turned between a resize and its timer is lost.
  lemma ResizeUndoesAPageTurn(pages: Pages, p: Place)
    requires InBook(pages, p) && p.page + 1 < pages[p.section]
    ensures Next(pages, p) != p && Resized(pages, pages, p, Next(pages, p)) == p
  {
    ResizeKeepsThePlaceIff(pages, pages, p, Next(pages, p));
  }

  // Across a section boundary the progression of the old section lands in the new one: from
  // the last page of a section of several pages on the last page of the next.
  lemma ResizeCarriesTheProgressionOver(pages: Pages, p: Place)
    requires InBook(pages, p) && p.section + 1 < |pages| && pages[p.section] > 1 && p.page == pages[p.section] - 1
    ensures var q := Next(pages, p);
            && q == Place(p.section + 1, 0)
            && Resized(pages, pages, p, q) == Place(q.section, pages[q.section] - 1)
  {
    LoadedAtTheEnds(pages, p.section + 1);
    WithinAtTheEnds(pages[p.section]);
  }
}
