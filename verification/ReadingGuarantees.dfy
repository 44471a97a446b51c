// The deduplication of all groups: the outcome of every group, everything else untouched,
// no reader loses a book or a bookmark, and a second run finds no duplicates.
module ReadingGuarantees {
  import opened Text
  import opened Sequences
  import opened Ranking
  import opened Grouping
  import opened ReadingLibrary
  import opened ReadingMerge

  // The rows of the items `ids`, and their bookmarks, are the same in both states.
  ghost predicate SameFor(a: Library, b: Library, ids: set<int>) {
    && (forall x :: x in ids ==> (x in a.items <==> x in b.items) && (x in a.items ==> a.items[x] == b.items[x]))
    && (forall k: (int, string) :: k.0 in ids ==>
          (k in a.bookmarks <==> k in b.bookmarks) && (k in a.bookmarks ==> a.bookmarks[k] == b.bookmarks[k]))
  }

  lemma SameForTransitive(a: Library, b: Library, c: Library, ids: set<int>)
    requires SameFor(a, b, ids) && SameFor(b, c, ids)
    ensures SameFor(a, c, ids)
  {
  }

  // ---- What depends only on the rows of one group ----

  lemma SameLatestStamp(a: Library, b: Library, ids: set<int>, x: int, parse: string -> int)
    requires SameFor(a, b, ids) && x in ids
    ensures LatestStamp(a, x, parse) == LatestStamp(b, x, parse)
  {
    forall p ensures p in ProfilesOf(a, x) <==> p in ProfilesOf(b, x) {
      assert (x, p) in a.bookmarks <==> (x, p) in b.bookmarks;
    }
    assert ProfilesOf(a, x) == ProfilesOf(b, x);
    forall p | p in ProfilesOf(a, x) ensures a.bookmarks[(x, p)] == b.bookmarks[(x, p)] {
      assert (x, p) in a.bookmarks;
    }
    assert IsLatestStamp(b, x, parse, LatestStamp(a, x, parse));
    LatestStampIsUnique(b, x, parse, LatestStamp(a, x, parse), LatestStamp(b, x, parse));
  }

  lemma SameSorted(a: Library, b: Library, path: string, parse: string -> int)
    requires Members(a, path) == Members(b, path) && SameFor(a, b, Members(a, path))
    ensures SortedMembers(a, path, parse) == SortedMembers(b, path, parse)
  {
    hide LatestStamp, IsLatestStamp, Members, Sort;
    var ids := Members(a, path);
    forall x | x in ids ensures LatestStamp(a, x, parse) == LatestStamp(b, x, parse) {
      SameLatestStamp(a, b, ids, x, parse);
    }
    assert RankItems(a, ids, parse) == RankItems(b, ids, parse);
  }

  lemma {:induction false} SamePick(a: Library, b: Library, sorted: seq<int>, profile: string, parse: string -> int)
    requires SameFor(a, b, AsSet(sorted))
    ensures Pick(a, sorted, profile, parse) == Pick(b, sorted, profile, parse)
  {
    if sorted != [] {
      var last := sorted[|sorted| - 1];
      assert last in AsSet(sorted);
      assert AsSet(sorted[..|sorted| - 1]) <= AsSet(sorted);
      SamePick(a, b, sorted[..|sorted| - 1], profile, parse);
      assert (last, profile).0 in AsSet(sorted);
    }
  }

  lemma SameKept(a: Library, b: Library, sorted: seq<int>, p: string, parse: string -> int)
    requires SameFor(a, b, AsSet(sorted)) && sorted != [] && Pick(a, sorted, p, parse).Some?
    ensures Pick(b, sorted, p, parse).Some? && Kept(a, sorted, p, parse) == Kept(b, sorted, p, parse)
  {
    hide Pick;
    SamePick(a, b, sorted, p, parse);
    assert sorted[0] in AsSet(sorted);
    assert (sorted[0], p).0 in AsSet(sorted);
  }

  lemma SameDated(a: Library, b: Library, sorted: seq<int>)
    requires SameFor(a, b, AsSet(sorted)) && sorted != []
    requires forall k :: 0 <= k < |sorted| ==> sorted[k] in a.items && sorted[k] in b.items
    ensures Dated(a, sorted) == Dated(b, sorted)
  {
    hide Earliest, Latest;
    forall k | 0 <= k < |sorted| ensures a.items[sorted[k]] == b.items[sorted[k]] {
      var x: int := sorted[k];
      assert x in AsSet(sorted);
    }
    assert AddedDates(a, sorted) == AddedDates(b, sorted);
    assert UpdatedDates(a, sorted) == UpdatedDates(b, sorted);
  }

  // ---- One group ----

  // One item of the group remains, with the group's dates; per profile that had a bookmark
  // in the group it holds the kept one, and no other bookmark of the group is left.
  ghost predicate Merged(lib: Library, r: Library, sorted: seq<int>, parse: string -> int)
    requires sorted != [] && forall k :: 0 <= k < |sorted| ==> sorted[k] in lib.items
  {
    && (forall x :: x in sorted ==> (x in r.items <==> x == sorted[0]))
    && sorted[0] in r.items && r.items[sorted[0]] == Dated(lib, sorted)
    && (forall x, p :: x in sorted && (x, p) in r.bookmarks ==> x == sorted[0])
    && (forall p :: (sorted[0], p) in r.bookmarks <==> Pick(lib, sorted, p, parse).Some?)
    && (forall p :: (sorted[0], p) in r.bookmarks ==> r.bookmarks[(sorted[0], p)] == Kept(lib, sorted, p, parse))
  }

  lemma MergeGroupMerges(lib: Library, sorted: seq<int>, parse: string -> int)
    requires sorted != [] && Distinct(sorted) && forall k :: 0 <= k < |sorted| ==> sorted[k] in lib.items
    ensures Merged(lib, MergeGroup(lib, sorted, parse), sorted, parse)
    ensures forall ids :: ids !! AsSet(sorted) ==> SameFor(lib, MergeGroup(lib, sorted, parse), ids)
  {
    GroupIsMerged(lib, sorted, parse);
    OthersAreUntouched(lib, sorted, parse);
  }

  lemma OthersAreUntouched(lib: Library, sorted: seq<int>, parse: string -> int)
    requires sorted != [] && forall k :: 0 <= k < |sorted| ==> sorted[k] in lib.items
    ensures forall ids :: ids !! AsSet(sorted) ==> SameFor(lib, MergeGroup(lib, sorted, parse), ids)
  {
    hide Pick, Kept, Dated;
    assert sorted[0] in AsSet(sorted);
    assert AsSet(sorted[1..]) <= AsSet(sorted);
  }

  lemma GroupIsMerged(lib: Library, sorted: seq<int>, parse: string -> int)
    requires sorted != [] && Distinct(sorted) && forall k :: 0 <= k < |sorted| ==> sorted[k] in lib.items
    ensures Merged(lib, MergeGroup(lib, sorted, parse), sorted, parse)
  {
    hide Pick, Kept, Dated, GroupProfiles;
    var r := MergeGroup(lib, sorted, parse);
    var rows := Upserted(lib, sorted, parse, GroupProfiles(lib, sorted));
    forall x ensures x in sorted <==> x == sorted[0] || x in sorted[1..] {
      assert sorted == [sorted[0]] + sorted[1..];
    }
    forall p ensures (sorted[0], p) in rows <==> Pick(lib, sorted, p, parse).Some? {
      ProfilePicked(lib, sorted, p, parse);
      if (sorted[0], p) in lib.bookmarks {
        OwnBookmarkWinsTies(lib, sorted, p, parse);
      }
    }
    forall p | (sorted[0], p) in rows ensures rows[(sorted[0], p)] == Kept(lib, sorted, p, parse) {
      ProfilePicked(lib, sorted, p, parse);
    }
    assert sorted[0] !in sorted[1..];
  }

  // ---- All groups ----

  lemma SamePathSameMembers(lib: Library, p: string, q: string)
    ensures NoCase(p) == NoCase(q) ==> Members(lib, p) == Members(lib, q)
  {
  }

  lemma MembersOfOtherPath(lib: Library, p: string, q: string)
    requires NoCase(p) != NoCase(q)
    ensures Members(lib, p) !! Members(lib, q)
  {
  }

  ghost function Step(lib: Library, path: string, parse: string -> int): Library {
    var sorted := SortedMembers(lib, path, parse);
    if sorted == [] then lib else MergeGroup(lib, sorted, parse)
  }

  // A merge removes rows of its own group only and never changes a path.
  lemma StepShrinks(lib: Library, path: string, parse: string -> int)
    ensures var r := Step(lib, path, parse);
            && (forall x :: x in r.items ==> x in lib.items && r.items[x].relPath == lib.items[x].relPath)
            && (forall ids :: ids !! Members(lib, path) ==> SameFor(lib, r, ids))
  {
    var sorted := SortedMembers(lib, path, parse);
    if sorted != [] {
      MergeGroupMerges(lib, sorted, parse);
    }
  }

  lemma {:induction false} MergePathsOutside(lib: Library, paths: seq<string>, ids: set<int>, parse: string -> int)
    requires forall j :: 0 <= j < |paths| ==> ids !! Members(lib, paths[j])
    ensures SameFor(lib, MergePaths(lib, paths, parse), ids)
    decreases |paths|
  {
    hide SameFor;
    if paths == [] {
      SameForItself(lib, ids);
    } else {
      var t := Step(lib, paths[0], parse);
      StepShrinks(lib, paths[0], parse);
      StepIsFirst(lib, paths, parse);
      forall j | 0 <= j < |paths[1..]| ensures ids !! Members(t, paths[1..][j]) {
        assert ids !! Members(lib, paths[j + 1]);
        assert Members(t, paths[1..][j]) <= Members(lib, paths[j + 1]);
      }
      MergePathsOutside(t, paths[1..], ids, parse);
      SameForTransitive(lib, t, MergePaths(t, paths[1..], parse), ids);
    }
  }

  lemma {:induction false} MergePathsShrinks(lib: Library, paths: seq<string>, parse: string -> int)
    ensures var r := MergePaths(lib, paths, parse);
            forall x :: x in r.items ==> x in lib.items && r.items[x].relPath == lib.items[x].relPath
    decreases |paths|
  {
    if paths != [] {
      StepShrinks(lib, paths[0], parse);
      StepIsFirst(lib, paths, parse);
      MergePathsShrinks(Step(lib, paths[0], parse), paths[1..], parse);
    }
  }

  lemma SameForItself(lib: Library, ids: set<int>)
    ensures SameFor(lib, lib, ids)
  {
  }

  lemma StepIsFirst(lib: Library, paths: seq<string>, parse: string -> int)
    requires paths != []
    ensures MergePaths(lib, paths, parse) == MergePaths(Step(lib, paths[0], parse), paths[1..], parse)
  {
  }

  lemma StepFrame(lib: Library, path: string, other: string, parse: string -> int)
    requires NoCase(path) != NoCase(other)
    ensures var r := Step(lib, path, parse);
            && Members(r, other) == Members(lib, other) && SameFor(lib, r, Members(lib, other))
            && SortedMembers(r, other, parse) == SortedMembers(lib, other, parse)
  {
    hide Step, NoCase, SortedMembers;
    var r := Step(lib, path, parse);
    MembersOfOtherPath(lib, path, other);
    StepShrinks(lib, path, parse);
    assert SameFor(lib, r, Members(lib, other));
    forall x ensures x in Members(r, other) <==> x in Members(lib, other) {
      if x in Members(lib, other) { assert x in r.items; }
    }
    SameSorted(lib, r, other, parse);
  }

  // A merged group is not touched again.
  lemma MergedStays(lib: Library, t: Library, r: Library, sorted: seq<int>, parse: string -> int)
    requires sorted != [] && forall k :: 0 <= k < |sorted| ==> sorted[k] in lib.items
    requires Merged(lib, t, sorted, parse) && SameFor(t, r, AsSet(sorted))
    ensures Merged(lib, r, sorted, parse)
  {
    assert sorted[0] in AsSet(sorted);
    forall x | x in sorted ensures x in AsSet(sorted) {}
    forall x, p | x in sorted ensures (x, p) in t.bookmarks <==> (x, p) in r.bookmarks {
      assert (x, p).0 in AsSet(sorted);
    }
    forall p | (sorted[0], p) in r.bookmarks ensures r.bookmarks[(sorted[0], p)] == t.bookmarks[(sorted[0], p)] {
      assert (sorted[0], p).0 in AsSet(sorted);
    }
  }

  lemma MergedFrom(lib: Library, t: Library, r: Library, sorted: seq<int>, parse: string -> int)
    requires sorted != [] && forall k :: 0 <= k < |sorted| ==> sorted[k] in lib.items && sorted[k] in t.items
    requires SameFor(lib, t, AsSet(sorted)) && Merged(t, r, sorted, parse)
    ensures Merged(lib, r, sorted, parse)
  {
    hide Pick, Kept, Dated;
    SameDated(lib, t, sorted);
    forall p ensures Pick(lib, sorted, p, parse) == Pick(t, sorted, p, parse)
      ensures Pick(lib, sorted, p, parse).Some? ==> Kept(lib, sorted, p, parse) == Kept(t, sorted, p, parse)
    {
      SamePick(lib, t, sorted, p, parse);
      if Pick(lib, sorted, p, parse).Some? { SameKept(lib, t, sorted, p, parse); }
    }
  }

  lemma FirstGroupIsMerged(lib: Library, paths: seq<string>, parse: string -> int)
    requires paths != [] && (forall i, j :: 0 <= i < j < |paths| ==> NoCase(paths[i]) != NoCase(paths[j]))
    requires SortedMembers(lib, paths[0], parse) != []
    ensures Merged(lib, MergePaths(lib, paths, parse), SortedMembers(lib, paths[0], parse), parse)
  {
    hide Merged, SameFor;
    var sorted, t := SortedMembers(lib, paths[0], parse), Step(lib, paths[0], parse);
    MergeGroupMerges(lib, sorted, parse);
    StepShrinks(lib, paths[0], parse);
    StepIsFirst(lib, paths, parse);
    forall j | 0 <= j < |paths[1..]| ensures AsSet(sorted) !! Members(t, paths[1..][j]) {
      MembersOfOtherPath(lib, paths[0], paths[j + 1]);
      assert Members(t, paths[1..][j]) <= Members(lib, paths[j + 1]);
    }
    MergePathsOutside(t, paths[1..], AsSet(sorted), parse);
    MergedStays(lib, t, MergePaths(lib, paths, parse), sorted, parse);
  }

  // Every listed group ends as its own merge from the original rows leaves it.
  lemma {:induction false} EveryGroupIsMerged(lib: Library, paths: seq<string>, i: nat, parse: string -> int)
    requires i < |paths| && (forall i, j :: 0 <= i < j < |paths| ==> NoCase(paths[i]) != NoCase(paths[j]))
    requires SortedMembers(lib, paths[i], parse) != []
    ensures Merged(lib, MergePaths(lib, paths, parse), SortedMembers(lib, paths[i], parse), parse)
    decreases |paths|
  {
    hide SameFor, Merged, NoCase;
    if i == 0 {
      FirstGroupIsMerged(lib, paths, parse);
    } else {
      var sorted, t := SortedMembers(lib, paths[i], parse), Step(lib, paths[0], parse);
      StepFrame(lib, paths[0], paths[i], parse);
      StepIsFirst(lib, paths, parse);
      assert paths[1..][i - 1] == paths[i];
      EveryGroupIsMerged(t, paths[1..], i - 1, parse);
      MergedFrom(lib, t, MergePaths(lib, paths, parse), sorted, parse);
    }
  }

  // ---- The whole deduplication ----

  // Items whose path nobody shares, and items without a path, keep row and bookmarks.
  lemma UniqueItemsAreUntouched(lib: Library, paths: seq<string>, parse: string -> int, x: int)
    requires AreDuplicated(lib, paths) && x in lib.items
    requires lib.items[x].relPath == "" || |Members(lib, lib.items[x].relPath)| == 1
    ensures SameFor(lib, MergePaths(lib, paths, parse), {x})
  {
    forall j | 0 <= j < |paths| ensures {x} !! Members(lib, paths[j]) {
      SamePathSameMembers(lib, paths[j], lib.items[x].relPath);
    }
    MergePathsOutside(lib, paths, {x}, parse);
  }

  // Whoever had a bookmark on some copy of a book has exactly one on the remaining copy,
  // and the chosen copy outranks all others whatever order the query returned them in.
  lemma DuplicatesAreMerged(lib: Library, paths: seq<string>, parse: string -> int, x: int)
    requires AreDuplicated(lib, paths) && x in lib.items && lib.items[x].relPath != ""
    requires |Members(lib, lib.items[x].relPath)| > 1
    ensures var sorted := SortedMembers(lib, lib.items[x].relPath, parse);
            var rank := RankItems(lib, Members(lib, lib.items[x].relPath), parse);
            && sorted != [] && Merged(lib, MergePaths(lib, paths, parse), sorted, parse)
            && sorted[0] in rank
            && forall y :: y in Members(lib, lib.items[x].relPath) && y != sorted[0] ==>
                 y in rank && Compare(rank[sorted[0]], rank[y]) < 0
  {
    hide Merged, Members, SortedMembers, LatestStamp, IsLatestStamp, MergePaths, NoCase, RankItems;
    var path := lib.items[x].relPath;
    MemberOfOwnPath(lib, x);
    assert Listed(paths, path);
    var i :| 0 <= i < |paths| && NoCase(paths[i]) == NoCase(path);
    SamePathSameMembers(lib, paths[i], path);
    SamePathSameSorted(lib, paths[i], path, parse);
    EveryGroupIsMerged(lib, paths, i, parse);
    FirstOfGroupIsBest(lib, path, parse);
  }

  lemma MemberOfOwnPath(lib: Library, x: int)
    requires x in lib.items
    ensures x in Members(lib, lib.items[x].relPath)
  {
  }

  lemma SamePathSameSorted(lib: Library, p: string, q: string, parse: string -> int)
    requires Members(lib, p) == Members(lib, q)
    ensures SortedMembers(lib, p, parse) == SortedMembers(lib, q, parse)
  {
    hide Members, Sort, RankItems;
  }

  lemma FirstOfGroupIsBest(lib: Library, path: string, parse: string -> int)
    requires Members(lib, path) != {}
    ensures var sorted := SortedMembers(lib, path, parse); var rank := RankItems(lib, Members(lib, path), parse);
            && sorted != []
            && sorted[0] in rank
            && forall y :: y in Members(lib, path) && y != sorted[0] ==>
                 y in rank && Compare(rank[sorted[0]], rank[y]) < 0
  {
    hide Members, Sort, LatestStamp, IsLatestStamp, Compare;
    var ids := IdsInOrder(Members(lib, path));
    assert AsSet(ids) == Members(lib, path);
    assert ids != [];
    MembersAreRanked(lib, path, parse, ids);
    SurvivorIsTheBest(ids, RankItems(lib, Members(lib, path), parse));
    forall y | y in Members(lib, path) ensures y in ids { assert y in AsSet(ids); }
  }

  lemma GroupKeepsLinks(lib: Library, sorted: seq<int>, parse: string -> int)
    requires Linked(lib) && sorted != [] && Distinct(sorted) && forall k :: 0 <= k < |sorted| ==> sorted[k] in lib.items
    ensures Linked(MergeGroup(lib, sorted, parse))
  {
    hide Pick, Kept, Dated;
    var r := MergeGroup(lib, sorted, parse);
    forall k | k in r.bookmarks ensures k.0 in r.items {
      assert k.0 == sorted[0] || k.0 in lib.items;
    }
  }

  // The foreign key holds: no bookmark is left without its item.
  lemma {:induction false} LinksAreKept(lib: Library, paths: seq<string>, parse: string -> int)
    requires Linked(lib)
    ensures Linked(MergePaths(lib, paths, parse))
    decreases |paths|
  {
    hide Linked, MergeGroup, SortedMembers;
    if paths != [] {
      var sorted := SortedMembers(lib, paths[0], parse);
      if sorted != [] { GroupKeepsLinks(lib, sorted, parse); }
      LinksAreKept(Step(lib, paths[0], parse), paths[1..], parse);
    }
  }

  // One item per case-folded non-empty path remains.
  lemma OneItemPerPath(lib: Library, paths: seq<string>, parse: string -> int, x: int, y: int)
    requires AreDuplicated(lib, paths)
    ensures var r := MergePaths(lib, paths, parse);
            (&& x in r.items && y in r.items && r.items[x].relPath != ""
             && NoCase(r.items[x].relPath) == NoCase(r.items[y].relPath)) ==> x == y
  {
    hide MergePaths, SortedMembers, LatestStamp, IsLatestStamp, NoCase, RankItems, AreDuplicated;
    MergePathsShrinks(lib, paths, parse);
    var r := MergePaths(lib, paths, parse);
    if && x in r.items && y in r.items && r.items[x].relPath != ""
       && NoCase(r.items[x].relPath) == NoCase(r.items[y].relPath)
    {
      var path := lib.items[x].relPath;
      assert x in Members(lib, path) && y in Members(lib, path);
      if |Members(lib, path)| > 1 {
        DuplicatesAreMerged(lib, paths, parse, x);
        var sorted := SortedMembers(lib, path, parse);
        assert x in AsSet(sorted) && y in AsSet(sorted);
      } else {
        assert |Members(lib, path) - {x}| == 0;
      }
    }
  }

  // The unique index on the path, up to case, that is built afterwards.
  ghost predicate PathsDiffer(lib: Library) {
    forall x, y :: x in lib.items && y in lib.items && x != y ==>
      NoCase(lib.items[x].relPath) != NoCase(lib.items[y].relPath)
  }

  ghost predicate OneEmptyPath(lib: Library) {
    forall x, y :: x in lib.items && y in lib.items && x != y ==>
      lib.items[x].relPath != "" || lib.items[y].relPath != ""
  }

  lemma EmptyPathStays(lib: Library, paths: seq<string>, parse: string -> int, x: int)
    requires AreDuplicated(lib, paths)
    ensures var r := MergePaths(lib, paths, parse);
            && (x in r.items ==> x in lib.items && r.items[x].relPath == lib.items[x].relPath)
            && (x in lib.items && lib.items[x].relPath == "" ==> x in r.items)
  {
    hide MergePaths, AreDuplicated;
    MergePathsShrinks(lib, paths, parse);
    if x in lib.items && lib.items[x].relPath == "" {
      UniqueItemsAreUntouched(lib, paths, parse, x);
      assert x in {x};
    }
  }

  // It can be built if and only if at most one item had no path: items without one are never
  // merged, but the index covers them too.
  lemma UniqueIndexCanBeBuiltIff(lib: Library, paths: seq<string>, parse: string -> int)
    requires AreDuplicated(lib, paths)
    ensures PathsDiffer(MergePaths(lib, paths, parse)) <==> OneEmptyPath(lib)
  {
    hide MergePaths, AreDuplicated, NoCase;
    var r := MergePaths(lib, paths, parse);
    forall x
      ensures x in r.items ==> x in lib.items && r.items[x].relPath == lib.items[x].relPath
      ensures x in lib.items && lib.items[x].relPath == "" ==> x in r.items
    {
      EmptyPathStays(lib, paths, parse, x);
    }
    if OneEmptyPath(lib) {
      forall x, y | x in r.items && y in r.items && NoCase(r.items[x].relPath) == NoCase(r.items[y].relPath)
        ensures x == y
      {
        OneItemPerPath(lib, paths, parse, x, y);
        assert r.items[x].relPath == "" <==> NoCase(r.items[x].relPath) == "";
      }
    }
  }

  // A second run finds no duplicated path, so it leaves everything as it is.
  lemma SecondRunChangesNothing(lib: Library, paths: seq<string>, again: seq<string>, parse: string -> int)
    requires AreDuplicated(lib, paths) && AreDuplicated(MergePaths(lib, paths, parse), again)
    ensures again == [] && MergePaths(MergePaths(lib, paths, parse), again, parse) == MergePaths(lib, paths, parse)
  {
    hide MergePaths, NoCase, SortedMembers, LatestStamp;
    var r := MergePaths(lib, paths, parse);
    if again != [] {
      var members := Members(r, again[0]);
      forall x, y | x in members && y in members ensures x == y {
        OneItemPerPath(lib, paths, parse, x, y);
      }
      AtMostOne(members);
    }
    EmptyRun(r, parse);
  }

  lemma EmptyRun(lib: Library, parse: string -> int)
    ensures MergePaths(lib, [], parse) == lib
  {
  }

  lemma AtMostOne(s: set<int>)
    requires forall x, y :: x in s && y in s ==> x == y
    ensures |s| <= 1
  {
    if x :| x in s {
      forall y ensures y in s <==> y in {x} {}
      assert s == {x};
    } else {
      assert |s| == 0 by { forall y ensures y in s <==> y in {} {} }
    }
  }
}
