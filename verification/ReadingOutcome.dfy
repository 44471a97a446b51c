// What the deduplication leaves of a book with several copies, read off the tables: which copy
// stays, with which dates, and which bookmark every reader keeps.
module ReadingOutcome {
  import opened Text
  import opened Sequences
  import opened Ranking
  import opened Grouping
  import opened ReadingLibrary
  import opened ReadingMerge
  import opened ReadingGuarantees

  // ---- Equal paths ----

  // Equal characters, or the two cases of one of the 26 letters
  ghost predicate SameLetter(c: char, d: char) {
    c == d || exists k :: 0 <= k < 26 && c in {UPPER_CASE[k], LOWER_CASE[k]} && d in {UPPER_CASE[k], LOWER_CASE[k]}
  }

  ghost predicate SameUpToCase(a: string, b: string) {
    |a| == |b| && forall i :: 0 <= i < |a| ==> SameLetter(a[i], b[i])
  }

  lemma SameLetterIff(c: char, d: char)
    ensures LowerAscii(c) == LowerAscii(d) <==> SameLetter(c, d)
  {
    LettersAreConsecutive();
    if c != d && LowerAscii(c) == LowerAscii(d) {
      var k := if 'A' <= c <= 'Z' then c as int - 'A' as int else d as int - 'A' as int;
      assert c in {UPPER_CASE[k], LOWER_CASE[k]} && d in {UPPER_CASE[k], LOWER_CASE[k]};
    }
  }

  lemma NoCaseIff(a: string, b: string)
    ensures NoCase(a) == NoCase(b) <==> SameUpToCase(a, b)
  {
    hide SameLetter, LowerAscii;
    forall i | 0 <= i < |a| && i < |b| ensures NoCase(a)[i] == NoCase(b)[i] <==> SameLetter(a[i], b[i]) {
      SameLetterIff(a[i], b[i]);
    }
  }

  // ---- The copy that stays ----

  // Item y is x or another copy of the same book.
  ghost predicate AreCopies(lib: Library, x: int, y: int) {
    && x in lib.items && y in lib.items
    && lib.items[x].relPath != "" && SameUpToCase(lib.items[x].relPath, lib.items[y].relPath)
  }

  function LastSeen(item: Item): string {
    if item.lastSeenAt.Some? then item.lastSeenAt.value else ""
  }

  // An available copy comes before a missing one; then the later bookmark decides, the later
  // update, the later scan, the larger id.
  ghost predicate Precedes(lib: Library, parse: string -> int, y: int, z: int)
    requires y in lib.items && z in lib.items
  {
    var a, b := lib.items[y], lib.items[z];
    || (a.available && !b.available)
    || (a.available == b.available && LatestStamp(lib, y, parse) > LatestStamp(lib, z, parse))
    || (a.available == b.available && LatestStamp(lib, y, parse) == LatestStamp(lib, z, parse)
        && (|| parse(a.updatedAt) > parse(b.updatedAt)
            || (parse(a.updatedAt) == parse(b.updatedAt) && parse(LastSeen(a)) > parse(LastSeen(b)))
            || (parse(a.updatedAt) == parse(b.updatedAt) && parse(LastSeen(a)) == parse(LastSeen(b)) && y > z)))
  }

  lemma PrecedesIff(lib: Library, ids: set<int>, parse: string -> int, y: int, z: int)
    requires y in ids && z in ids && y in lib.items && z in lib.items
    ensures var rank := RankItems(lib, ids, parse);
            y in rank && z in rank && (Compare(rank[y], rank[z]) < 0 <==> Precedes(lib, parse, y, z))
  {
    hide LatestStamp, IsLatestStamp;
  }

  lemma CopiesAreMembers(lib: Library, x: int, y: int)
    requires x in lib.items && lib.items[x].relPath != ""
    ensures AreCopies(lib, x, y) <==> y in Members(lib, lib.items[x].relPath)
  {
    hide NoCase, SameUpToCase;
    if y in lib.items { NoCaseIff(lib.items[x].relPath, lib.items[y].relPath); }
  }

  // The group of x, sorted, and what became of it.
  lemma GroupOf(lib: Library, paths: seq<string>, parse: string -> int, x: int) returns (sorted: seq<int>)
    requires AreDuplicated(lib, paths) && x in lib.items && lib.items[x].relPath != ""
    requires |Members(lib, lib.items[x].relPath)| > 1
    ensures sorted != [] && forall k :: 0 <= k < |sorted| ==> sorted[k] in lib.items
    ensures Merged(lib, MergePaths(lib, paths, parse), sorted, parse)
    ensures forall y :: y in sorted <==> AreCopies(lib, x, y)
    ensures forall i, j :: 0 <= i < j < |sorted| ==> Precedes(lib, parse, sorted[i], sorted[j])
  {
    hide MergePaths, Merged, LatestStamp, IsLatestStamp, Members, SortedMembers, Compare, Precedes, AreCopies,
         RankItems;
    var path := lib.items[x].relPath;
    DuplicatesAreMerged(lib, paths, parse, x);
    sorted := SortedMembers(lib, path, parse);
    forall y ensures y in sorted <==> AreCopies(lib, x, y) {
      assert y in sorted <==> y in AsSet(sorted);
      CopiesAreMembers(lib, x, y);
    }
    var rank := RankItems(lib, Members(lib, path), parse);
    MembersAreSorted(lib, path, parse);
    forall i, j | 0 <= i < j < |sorted| ensures Precedes(lib, parse, sorted[i], sorted[j]) {
      assert sorted[i] in AsSet(sorted) && sorted[j] in AsSet(sorted);
      PrecedesIff(lib, Members(lib, path), parse, sorted[i], sorted[j]);
    }
  }

  lemma MembersAreSorted(lib: Library, path: string, parse: string -> int)
    ensures var sorted := SortedMembers(lib, path, parse); var rank := RankItems(lib, Members(lib, path), parse);
            Ranked(sorted, rank) && Sorted(sorted, rank)
  {
    hide Sort, LatestStamp, IsLatestStamp, NoCase, Compare, Members;
    var ids := IdsInOrder(Members(lib, path));
    MembersAreRanked(lib, path, parse, ids);
    SortSorts(ids, RankItems(lib, Members(lib, path), parse));
  }

  ghost predicate HasCopies(lib: Library, x: int) {
    exists z :: z != x && AreCopies(lib, x, z)
  }

  lemma CopiesAreDuplicates(lib: Library, x: int)
    requires HasCopies(lib, x)
    ensures x in lib.items && lib.items[x].relPath != "" && |Members(lib, lib.items[x].relPath)| > 1
  {
    hide NoCase;
    var z :| z != x && AreCopies(lib, x, z);
    CopiesAreMembers(lib, x, z);
    MemberOfOwnPath(lib, x);
    assert {x, z} <= Members(lib, lib.items[x].relPath);
    Fewer({x, z}, Members(lib, lib.items[x].relPath));
  }

  // Of a book with copies exactly one stays, and it precedes every other one.
  lemma TheFirstCopyStays(lib: Library, paths: seq<string>, parse: string -> int, x: int) returns (y: int)
    requires AreDuplicated(lib, paths) && HasCopies(lib, x)
    ensures AreCopies(lib, x, y) && y in MergePaths(lib, paths, parse).items
    ensures forall z :: AreCopies(lib, x, z) && z in MergePaths(lib, paths, parse).items ==> z == y
    ensures forall z :: AreCopies(lib, x, z) && z != y ==> Precedes(lib, parse, y, z)
  {
    hide MergePaths, AreCopies, Precedes, Dated, Pick, Kept;
    CopiesAreDuplicates(lib, x);
    var sorted := GroupOf(lib, paths, parse, x);
    y := sorted[0];
    assert y in sorted;
    forall z | AreCopies(lib, x, z) && z != y ensures Precedes(lib, parse, y, z) {
      var j :| 0 <= j < |sorted| && sorted[j] == z;
    }
  }

  // ---- Its dates ----

  // Its added_at is the least non-empty one among the copies and its updated_at the greatest;
  // it keeps its own where all are empty, and every other column.
  lemma TheDatesSpanAllCopies(lib: Library, paths: seq<string>, parse: string -> int, x: int, y: int)
    requires AreDuplicated(lib, paths) && HasCopies(lib, x)
    requires AreCopies(lib, x, y) && y in MergePaths(lib, paths, parse).items
    ensures var own, row := lib.items[y], MergePaths(lib, paths, parse).items[y];
            && row == own.(addedAt := row.addedAt, updatedAt := row.updatedAt)
            && (forall z :: AreCopies(lib, x, z) && lib.items[z].addedAt != "" ==>
                  row.addedAt != "" && Le(row.addedAt, lib.items[z].addedAt))
            && (forall z :: AreCopies(lib, x, z) && lib.items[z].updatedAt != "" ==>
                  row.updatedAt != "" && Le(lib.items[z].updatedAt, row.updatedAt))
            && (exists z :: AreCopies(lib, x, z) && row.addedAt == lib.items[z].addedAt)
            && (exists z :: AreCopies(lib, x, z) && row.updatedAt == lib.items[z].updatedAt)
  {
    hide MergePaths, AreCopies, Precedes, Pick, Kept, Earliest, Latest;
    CopiesAreDuplicates(lib, x);
    var sorted := GroupOf(lib, paths, parse, x);
    assert y == sorted[0];
    var added, updated := AddedDates(lib, sorted), UpdatedDates(lib, sorted);
    EarliestIsMinimum(added, lib.items[y].addedAt);
    LatestIsMaximum(updated, lib.items[y].updatedAt);
    var row := MergePaths(lib, paths, parse).items[y];
    forall z | AreCopies(lib, x, z)
      ensures lib.items[z].addedAt != "" ==> row.addedAt != "" && Le(row.addedAt, lib.items[z].addedAt)
      ensures lib.items[z].updatedAt != "" ==> row.updatedAt != "" && Le(lib.items[z].updatedAt, row.updatedAt)
    {
      var j :| 0 <= j < |sorted| && sorted[j] == z;
      assert added[j] == lib.items[z].addedAt && updated[j] == lib.items[z].updatedAt;
    }
    DateOfACopy(lib, sorted, added, row.addedAt, lib.items[y].addedAt);
    DateOfACopy(lib, sorted, updated, row.updatedAt, lib.items[y].updatedAt);
    var i :| 0 <= i < |sorted| && added[i] == row.addedAt;
    assert sorted[i] in sorted;
    var j :| 0 <= j < |sorted| && updated[j] == row.updatedAt;
    assert sorted[j] in sorted;
  }

  lemma DateOfACopy(lib: Library, sorted: seq<int>, dates: seq<string>, date: string, own: string)
    requires |dates| == |sorted| > 0 && dates[0] == own && (date in dates || date == own)
    ensures exists i :: 0 <= i < |sorted| && dates[i] == date
  {
  }

  // ---- The bookmarks ----

  ghost predicate Marked(lib: Library, x: int, z: int, profile: string) {
    AreCopies(lib, x, z) && (z, profile) in lib.bookmarks
  }

  // The bookmark of copy z is the latest of the profile by parsed time; of several it is the
  // one on the copy that precedes the others.
  ghost predicate IsPicked(lib: Library, parse: string -> int, x: int, z: int, profile: string) {
    && Marked(lib, x, z, profile)
    && forall w :: Marked(lib, x, w, profile) && w != z ==>
         var mine, other := parse(lib.bookmarks[(z, profile)].updatedAt), parse(lib.bookmarks[(w, profile)].updatedAt);
         other < mine || (other == mine && Precedes(lib, parse, z, w))
  }

  // The first of the latest bookmarks is the picked one.
  lemma {:induction false} PickIsTheFirstLatest(lib: Library, sorted: seq<int>, profile: string, parse: string -> int)
    returns (i: nat)
    requires Pick(lib, sorted, profile, parse).Some?
    ensures i < |sorted| && HasBookmark(lib, sorted[i], profile)
    ensures Pick(lib, sorted, profile, parse).value == lib.bookmarks[(sorted[i], profile)]
    ensures forall j :: 0 <= j < |sorted| && HasBookmark(lib, sorted[j], profile) ==>
              var mine := parse(lib.bookmarks[(sorted[i], profile)].updatedAt);
              var other := parse(lib.bookmarks[(sorted[j], profile)].updatedAt);
              if j < i then other < mine else other <= mine
  {
    PickIsLatest(lib, sorted, profile, parse);
    var last := |sorted| - 1;
    var front := sorted[..last];
    PickIsLatest(lib, front, profile, parse);
    forall j | 0 <= j < last ensures front[j] == sorted[j] {}
    if Pick(lib, front, profile, parse) == Pick(lib, sorted, profile, parse) {
      i := PickIsTheFirstLatest(lib, front, profile, parse);
    } else {
      i := last;
      forall j | 0 <= j < last && HasBookmark(lib, sorted[j], profile)
        ensures parse(lib.bookmarks[(sorted[j], profile)].updatedAt)
             < parse(lib.bookmarks[(sorted[last], profile)].updatedAt)
      {
        assert HasBookmark(lib, front[j], profile);
      }
    }
  }

  // A reader has a bookmark afterwards exactly when some copy had one. It is the picked one,
  // unless the copy that stays had its own and the picked one's time is not the greater text.
  lemma TheBookmarkThatIsKept(lib: Library, paths: seq<string>, parse: string -> int, x: int, y: int, profile: string)
    requires AreDuplicated(lib, paths) && HasCopies(lib, x)
    requires AreCopies(lib, x, y) && y in MergePaths(lib, paths, parse).items
    ensures var r := MergePaths(lib, paths, parse);
            && ((y, profile) in r.bookmarks <==> exists z :: Marked(lib, x, z, profile))
            && ((y, profile) in r.bookmarks ==>
                  exists z :: IsPicked(lib, parse, x, z, profile)
                    && r.bookmarks[(y, profile)] ==
                         if && (y, profile) in lib.bookmarks
                            && Le(lib.bookmarks[(z, profile)].updatedAt, lib.bookmarks[(y, profile)].updatedAt)
                         then lib.bookmarks[(y, profile)] else lib.bookmarks[(z, profile)])
            && forall z :: AreCopies(lib, x, z) && (z, profile) in r.bookmarks ==> z == y
  {
    hide MergePaths, AreCopies, Precedes, Dated, Pick, Le;
    CopiesAreDuplicates(lib, x);
    var sorted := GroupOf(lib, paths, parse, x);
    assert y == sorted[0];
    var r := MergePaths(lib, paths, parse);
    PickIsLatest(lib, sorted, profile, parse);
    if Pick(lib, sorted, profile, parse).Some? {
      var i := PickIsTheFirstLatest(lib, sorted, profile, parse);
      var z := sorted[i];
      assert z in sorted;
      assert Marked(lib, x, z, profile);
      forall w | Marked(lib, x, w, profile) && w != z
        ensures var mine := parse(lib.bookmarks[(z, profile)].updatedAt);
                var other := parse(lib.bookmarks[(w, profile)].updatedAt);
                other < mine || (other == mine && Precedes(lib, parse, z, w))
      {
        var j :| 0 <= j < |sorted| && sorted[j] == w;
        assert HasBookmark(lib, sorted[j], profile);
      }
      assert IsPicked(lib, parse, x, z, profile);
    } else {
      forall z | AreCopies(lib, x, z) ensures (z, profile) !in lib.bookmarks {
        var j :| 0 <= j < |sorted| && sorted[j] == z;
        assert !HasBookmark(lib, sorted[j], profile);
      }
    }
  }
}
