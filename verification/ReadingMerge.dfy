// The deduplication of reading items over all groups: which item and which bookmark is
// kept, what stays untouched, and why a second run finds nothing to do.
module ReadingMerge {
  import opened Text
  import opened Sequences
  import opened Ranking
  import opened Grouping
  import opened ReadingLibrary

  ghost function SortedMembers(lib: Library, path: string, parse: string -> int): (r: seq<int>)
    ensures multiset(r) == multiset(IdsInOrder(Members(lib, path)))
    ensures AsSet(r) == Members(lib, path) && Distinct(r)
    ensures forall k :: 0 <= k < |r| ==> r[k] in lib.items
  {
    var ids := IdsInOrder(Members(lib, path));
    MembersAreRanked(lib, path, parse, ids);
    Sort(ids, RankItems(lib, Members(lib, path), parse))
  }

  lemma MembersAreRanked(lib: Library, path: string, parse: string -> int, ids: seq<int>)
    requires ids == IdsInOrder(Members(lib, path))
    ensures var rank := RankItems(lib, Members(lib, path), parse);
            && Ranked(ids, rank)
            && var r := Sort(ids, rank);
               AsSet(r) == Members(lib, path) && Distinct(r) && forall k :: 0 <= k < |r| ==> r[k] in lib.items
  {
    hide Sort, LatestStamp, IsLatestStamp, NoCase, Compare;
    assert forall k :: 0 <= k < |ids| ==> ids[k] in AsSet(ids);
    var rank := RankItems(lib, Members(lib, path), parse);
    var r := Sort(ids, rank);
    SortSorts(ids, rank);
    SameElements(r, ids);
    assert AsSet(r) == AsSet(ids);
    SortedIsDistinct(r, rank);
    assert forall k :: 0 <= k < |r| ==> r[k] in AsSet(ids);
  }

  ghost function MergePaths(lib: Library, paths: seq<string>, parse: string -> int): Library
    decreases |paths|
  {
    if paths == [] then lib
    else
      var sorted := SortedMembers(lib, paths[0], parse);
      MergePaths(if sorted == [] then lib else MergeGroup(lib, sorted, parse), paths[1..], parse)
  }

  // One path, in any spelling, for every shared non-empty path, in any order.
  ghost predicate AreDuplicated(lib: Library, paths: seq<string>) {
    && (forall i :: 0 <= i < |paths| ==> paths[i] != "" && |Members(lib, paths[i])| > 1)
    && (forall i, j :: 0 <= i < j < |paths| ==> NoCase(paths[i]) != NoCase(paths[j]))
    && (forall x :: x in lib.items && lib.items[x].relPath != "" && |Members(lib, lib.items[x].relPath)| > 1 ==>
          Listed(paths, lib.items[x].relPath))
  }

  ghost predicate Listed(paths: seq<string>, path: string) {
    exists i :: 0 <= i < |paths| && NoCase(paths[i]) == NoCase(path)
  }

  // ---- The bookmark of a profile ----

  ghost predicate HasBookmark(lib: Library, item: int, profile: string) {
    (item, profile) in lib.bookmarks
  }

  // No bookmark of the group was made later, by parsed time, than `b`.
  ghost predicate IsLatestOf(lib: Library, sorted: seq<int>, profile: string, parse: string -> int, b: Bookmark) {
    forall i :: 0 <= i < |sorted| && HasBookmark(lib, sorted[i], profile) ==>
      parse(lib.bookmarks[(sorted[i], profile)].updatedAt) <= parse(b.updatedAt)
  }

  ghost predicate IsOneOf(lib: Library, sorted: seq<int>, profile: string, b: Bookmark) {
    exists i :: 0 <= i < |sorted| && HasBookmark(lib, sorted[i], profile) && lib.bookmarks[(sorted[i], profile)] == b
  }

  lemma {:induction false} PickIsLatest(lib: Library, sorted: seq<int>, profile: string, parse: string -> int)
    ensures var pick := Pick(lib, sorted, profile, parse);
            && (pick.None? <==> forall i :: 0 <= i < |sorted| ==> !HasBookmark(lib, sorted[i], profile))
            && (pick.Some? ==>
                  IsLatestOf(lib, sorted, profile, parse, pick.value) && IsOneOf(lib, sorted, profile, pick.value))
  {
    if sorted != [] {
      var front, last := sorted[..|sorted| - 1], |sorted| - 1;
      PickIsLatest(lib, front, profile, parse);
      forall i | 0 <= i < last ensures front[i] == sorted[i] {}
      var pick := Pick(lib, sorted, profile, parse);
      if pick.Some? {
        if pick == Pick(lib, front, profile, parse) {
          var i :| && 0 <= i < |front| && HasBookmark(lib, front[i], profile)
                   && lib.bookmarks[(front[i], profile)] == pick.value;
          assert HasBookmark(lib, sorted[i], profile);
        } else {
          assert HasBookmark(lib, sorted[last], profile);
        }
      } else {
        assert !HasBookmark(lib, sorted[last], profile);
      }
    }
  }

  lemma ProfilePicked(lib: Library, sorted: seq<int>, p: string, parse: string -> int)
    ensures p in GroupProfiles(lib, sorted) <==> Pick(lib, sorted, p, parse).Some?
  {
    PickIsLatest(lib, sorted, p, parse);
    if Pick(lib, sorted, p, parse).Some? {
      var i :| 0 <= i < |sorted| && HasBookmark(lib, sorted[i], p);
      assert (sorted[i], p) in lib.bookmarks;
    }
    if p in GroupProfiles(lib, sorted) {
      var k :| k in lib.bookmarks && k.0 in sorted && k.1 == p;
      var i :| 0 <= i < |sorted| && sorted[i] == k.0;
      assert HasBookmark(lib, sorted[i], p);
    }
  }

  // Among equally late bookmarks the survivor's own is picked.
  lemma {:induction false} OwnBookmarkWinsTies(lib: Library, sorted: seq<int>, profile: string, parse: string -> int)
    requires sorted != [] && HasBookmark(lib, sorted[0], profile)
    ensures var pick := Pick(lib, sorted, profile, parse); var own := lib.bookmarks[(sorted[0], profile)];
            pick.Some? && (pick.value == own || parse(pick.value.updatedAt) > parse(own.updatedAt))
  {
    if |sorted| > 1 {
      OwnBookmarkWinsTies(lib, sorted[..|sorted| - 1], profile, parse);
    }
  }

  // The survivor's own bookmark is older by parsed time but not smaller as text.
  ghost predicate OwnLooksNewer(lib: Library, sorted: seq<int>, profile: string, parse: string -> int)
    requires sorted != [] && Pick(lib, sorted, profile, parse).Some?
  {
    var pick := Pick(lib, sorted, profile, parse).value;
    && HasBookmark(lib, sorted[0], profile)
    && parse(lib.bookmarks[(sorted[0], profile)].updatedAt) < parse(pick.updatedAt)
    && Le(pick.updatedAt, lib.bookmarks[(sorted[0], profile)].updatedAt)
  }

  // The kept bookmark is one of the group's, and it is the latest exactly when the text
  // comparison of the upsert does not overrule the parsed times.
  lemma KeptIsLatestIff(lib: Library, sorted: seq<int>, profile: string, parse: string -> int)
    requires sorted != [] && Pick(lib, sorted, profile, parse).Some?
    ensures IsOneOf(lib, sorted, profile, Kept(lib, sorted, profile, parse))
    ensures IsLatestOf(lib, sorted, profile, parse, Kept(lib, sorted, profile, parse)) <==>
        !OwnLooksNewer(lib, sorted, profile, parse)
    ensures OwnLooksNewer(lib, sorted, profile, parse) ==>
              Kept(lib, sorted, profile, parse) == lib.bookmarks[(sorted[0], profile)]
  {
    PickIsLatest(lib, sorted, profile, parse);
    if HasBookmark(lib, sorted[0], profile) {
      OwnBookmarkWinsTies(lib, sorted, profile, parse);
    }
    if OwnLooksNewer(lib, sorted, profile, parse) {
      var pick := Pick(lib, sorted, profile, parse).value;
      var i :| 0 <= i < |sorted| && HasBookmark(lib, sorted[i], profile) && lib.bookmarks[(sorted[i], profile)] == pick;
    }
  }

  // When text order and parsed order agree on the group's time stamps nothing is overruled.
  lemma AgreeingOrdersKeepTheLatest(lib: Library, sorted: seq<int>, profile: string, parse: string -> int)
    requires sorted != [] && Pick(lib, sorted, profile, parse).Some?
    requires forall i, j ::
               (&& 0 <= i < |sorted| && 0 <= j < |sorted|
                && HasBookmark(lib, sorted[i], profile) && HasBookmark(lib, sorted[j], profile))
               ==> var a := lib.bookmarks[(sorted[i], profile)].updatedAt;
                   var b := lib.bookmarks[(sorted[j], profile)].updatedAt;
                   parse(a) < parse(b) ==> !Le(b, a)
    ensures IsLatestOf(lib, sorted, profile, parse, Kept(lib, sorted, profile, parse))
  {
    PickIsLatest(lib, sorted, profile, parse);
    var pick := Pick(lib, sorted, profile, parse).value;
    var j :| 0 <= j < |sorted| && HasBookmark(lib, sorted[j], profile) && lib.bookmarks[(sorted[j], profile)] == pick;
    if HasBookmark(lib, sorted[0], profile) {
      assert !OwnLooksNewer(lib, sorted, profile, parse);
    }
    KeptIsLatestIff(lib, sorted, profile, parse);
  }

  // An available copy with the older bookmark, a missing copy with the newer one.
  function MixedLibrary(older: string, newer: string): Library {
    Library(map[1 := Item("a", true, "", "", None, ""), 2 := Item("A", false, "", "", None, "")],
            map[(1, "p") := Bookmark("old", older), (2, "p") := Bookmark("new", newer)])
  }

  lemma MixedMembers(older: string, newer: string)
    ensures Members(MixedLibrary(older, newer), "a") == {1, 2} && Members(MixedLibrary(older, newer), "A") == {1, 2}
  {
    assert NoCase("a") == "a" && NoCase("A") == "a";
  }

  // The available copy outranks the missing one.
  lemma MixedRanks(older: string, newer: string, parse: string -> int)
    ensures {1, 2} <= MixedLibrary(older, newer).items.Keys
    ensures var rank := RankItems(MixedLibrary(older, newer), {1, 2}, parse);
            Ranked([1, 2], rank) && Sorted([1, 2], rank)
  {
    hide LatestStamp, IsLatestStamp;
  }

  lemma MixedOrder(older: string, newer: string, parse: string -> int)
    ensures SortedMembers(MixedLibrary(older, newer), "a", parse) == [1, 2]
  {
    hide NoCase, Members, LatestStamp, IsLatestStamp, Sort, MixedLibrary;
    var lib := MixedLibrary(older, newer);
    MixedMembers(older, newer);
    AscendingIsUnique(IdsInOrder({1, 2}), [1, 2], {1, 2});
    var rank := RankItems(lib, {1, 2}, parse);
    MixedRanks(older, newer, parse);
    SortSorts([1, 2], rank);
    SortedIsUnique(Sort([1, 2], rank), [1, 2], rank);
  }

  lemma MixedPick(older: string, newer: string, parse: string -> int)
    requires parse(older) < parse(newer) && Le(newer, older)
    ensures Pick(MixedLibrary(older, newer), [1, 2], "p", parse) == Some(Bookmark("new", newer))
    ensures Kept(MixedLibrary(older, newer), [1, 2], "p", parse) == Bookmark("old", older)
  {
    hide Le;
    var lib := MixedLibrary(older, newer);
    assert [1, 2][..1] == [1] && [1][..0] == [];
    assert Pick(lib, [1], "p", parse) == Some(Bookmark("old", older));
  }

  lemma MixedIsDuplicated(older: string, newer: string)
    ensures AreDuplicated(MixedLibrary(older, newer), ["a"])
  {
    hide NoCase, Members;
    MixedMembers(older, newer);
    MixedPaths();
    assert NoCase(["a"][0]) == NoCase("a");
  }

  lemma MixedMerge(older: string, newer: string, parse: string -> int)
    requires parse(older) < parse(newer) && Le(newer, older)
    ensures MergeGroup(MixedLibrary(older, newer), [1, 2], parse).bookmarks == map[(1, "p") := Bookmark("old", older)]
  {
    hide Le, Pick, Kept, Dated;
    var lib := MixedLibrary(older, newer);
    MixedPick(older, newer, parse);
    assert GroupProfiles(lib, [1, 2]) == {"p"} by { assert (1, "p") in lib.bookmarks; }
    assert [1, 2][1..] == [2];
    var rows := Upserted(lib, [1, 2], parse, {"p"});
    assert rows == lib.bookmarks[(1, "p") := Bookmark("old", older)];
  }

  // Whenever text order contradicts parsed order, the deduplication can keep the older
  // bookmark and delete the newer one.
  lemma ContradictingOrdersKeepTheOlder(older: string, newer: string, parse: string -> int)
    requires parse(older) < parse(newer) && Le(newer, older)
    ensures AreDuplicated(MixedLibrary(older, newer), ["a"])
    ensures MergePaths(MixedLibrary(older, newer), ["a"], parse).bookmarks == map[(1, "p") := Bookmark("old", older)]
  {
    hide NoCase, Le, Members, MergeGroup, AreDuplicated, MixedLibrary;
    MixedIsDuplicated(older, newer);
    MixedOrder(older, newer, parse);
    MixedMerge(older, newer, parse);
    var r := MergeGroup(MixedLibrary(older, newer), [1, 2], parse);
    assert MergePaths(r, [], parse) == r;
  }

  lemma MixedPaths()
    ensures NoCase("a") == NoCase("A")
  {
    assert NoCase("a") == "a" && NoCase("A") == "a";
  }

  // A bookmark written by the server carries the ISO text, one that was stored with the
  // column's default the text of SQLite. On the same day the second is the smaller text, because
  // the blank sorts before 'T', also where it is the later time. Whether it is depends on the
  // time zone in which the parser reads it.
  const ISO_MIDNIGHT := "2024-01-01T00:00:00.000Z"
  const SQLITE_NOON := "2024-01-01 12:00:00"

  lemma ColumnDefaultContradictsIso(parse: string -> int)
    requires parse(ISO_MIDNIGHT) < parse(SQLITE_NOON)
    ensures MergePaths(MixedLibrary(ISO_MIDNIGHT, SQLITE_NOON), ["a"], parse).bookmarks
            == map[(1, "p") := Bookmark("old", ISO_MIDNIGHT)]
  {
    SamePrefix(SQLITE_NOON, ISO_MIDNIGHT, 10);
    ContradictingOrdersKeepTheOlder(ISO_MIDNIGHT, SQLITE_NOON, parse);
  }

  lemma {:induction false} SamePrefix(a: string, b: string, n: nat)
    requires n < |a| && n < |b| && a[..n] == b[..n] && a[n] < b[n]
    ensures Le(a, b)
  {
    if n > 0 {
      assert a[0] == a[..n][0] == b[..n][0] == b[0];
      assert a[1..][..n - 1] == a[..n][1..] && b[1..][..n - 1] == b[..n][1..];
      SamePrefix(a[1..], b[1..], n - 1);
    }
  }
}
