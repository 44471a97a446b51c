// The reading tables as the deduplication updates them: loops over groups, items,
// bookmarks and losers.
module ReadingStore {
  import opened Text
  import opened Ranking
  import opened Grouping
  import opened ReadingLibrary
  import opened ReadingMerge

  // What latestBookmarkByProfile holds for one profile.
  function Lookup(m: map<string, Bookmark>, p: string): Option<Bookmark> {
    if p in m then Some(m[p]) else None
  }

  lemma PickNext(lib: Library, sorted: seq<int>, i: nat, p: string, parse: string -> int)
    requires i < |sorted|
    ensures var before := Pick(lib, sorted[..i], p, parse); var k := (sorted[i], p);
            Pick(lib, sorted[..i + 1], p, parse) ==
              if && k in lib.bookmarks
                 && (before == None || parse(lib.bookmarks[k].updatedAt) > parse(before.value.updatedAt))
              then Some(lib.bookmarks[k]) else before
  {
    assert sorted[..i + 1][..|sorted[..i + 1]| - 1] == sorted[..i];
  }

  ghost predicate IsShared(lib: Library, x: int) {
    x in lib.items && lib.items[x].relPath != "" && |Members(lib, lib.items[x].relPath)| > 1
  }

  lemma ListedGrows(paths: seq<string>, path: string)
    ensures Listed(paths + [path], path) && forall q :: Listed(paths, q) ==> Listed(paths + [path], q)
    ensures (forall i :: 0 <= i < |paths| ==> NoCase(paths[i]) != NoCase(path)) <==> !Listed(paths, path)
  {
    hide NoCase;
    var more := paths + [path];
    assert NoCase(more[|paths|]) == NoCase(path);
    forall q | Listed(paths, q) ensures Listed(more, q) {
      var i :| 0 <= i < |paths| && NoCase(paths[i]) == NoCase(q);
      assert NoCase(more[i]) == NoCase(q);
    }
  }

  // The paths listed after the rows ids[..n].
  ghost predicate Found(lib: Library, ids: seq<int>, n: nat, paths: seq<string>) {
    && n <= |ids| && (forall k :: 0 <= k < |ids| ==> ids[k] in lib.items)
    && (forall i :: 0 <= i < |paths| ==> paths[i] != "" && |Members(lib, paths[i])| > 1)
    && (forall i, j :: 0 <= i < j < |paths| ==> NoCase(paths[i]) != NoCase(paths[j]))
    && (forall k :: 0 <= k < n && IsShared(lib, ids[k]) ==> Listed(paths, lib.items[ids[k]].relPath))
  }

  lemma NothingFound(lib: Library, ids: seq<int>)
    requires forall k :: 0 <= k < |ids| ==> ids[k] in lib.items
    ensures Found(lib, ids, 0, [])
  {
  }

  lemma FoundMore(lib: Library, ids: seq<int>, n: nat, paths: seq<string>)
    requires Found(lib, ids, n, paths) && n < |ids|
    ensures ids[n] in lib.items
    ensures var path := lib.items[ids[n]].relPath;
            Found(lib, ids, n + 1,
                  if && path != "" && |Members(lib, path)| > 1
                     && (forall i :: 0 <= i < |paths| ==> NoCase(paths[i]) != NoCase(path))
                  then paths + [path] else paths)
  {
    hide NoCase, Members, Listed;
    ListedGrows(paths, lib.items[ids[n]].relPath);
  }

  lemma FoundAll(lib: Library, ids: seq<int>, paths: seq<string>)
    requires Found(lib, ids, |ids|, paths) && Ascending(ids, lib.items.Keys)
    ensures AreDuplicated(lib, paths)
  {
    hide NoCase, Members, Listed;
    forall x | x in lib.items && lib.items[x].relPath != "" && |Members(lib, lib.items[x].relPath)| > 1
      ensures Listed(paths, lib.items[x].relPath)
    {
      var k :| 0 <= k < |ids| && ids[k] == x;
      assert IsShared(lib, ids[k]);
    }
  }

  class ReadingStore {
    var items: map<int, Item>
    var bookmarks: map<(int, string), Bookmark>

    function State(): Library
      reads this
    {
      Library(items, bookmarks)
    }

    // Finds the paths that several items share, up to case.
    method SelectDuplicatedPaths() returns (paths: seq<string>)
      ensures AreDuplicated(State(), paths)
    {
      hide Found, AreDuplicated, NoCase, Members;
      var ids := SelectIds(items.Keys);
      paths := [];
      NothingFound(State(), ids);
      for n := 0 to |ids|
        invariant Found(State(), ids, n, paths)
      {
        FoundMore(State(), ids, n, paths);
        var path := items[ids[n]].relPath;
        if && path != "" && |Members(State(), path)| > 1
           && forall i :: 0 <= i < |paths| ==> NoCase(paths[i]) != NoCase(path)
        {
          paths := paths + [path];
        }
      }
      FoundAll(State(), ids, paths);
    }

    // Finds the latest parsed time among the item's bookmarks.
    method NewestStamp(item: int, parse: string -> int) returns (m: int)
      ensures m == LatestStamp(State(), item, parse)
    {
      m := 0;
      var all := ProfilesOf(State(), item);
      var rest := all;
      while true
        invariant rest <= all && m >= 0
        invariant forall p :: p in all - rest ==> parse(bookmarks[(item, p)].updatedAt) <= m
        invariant m > 0 ==> exists p :: p in all && parse(bookmarks[(item, p)].updatedAt) == m
        decreases rest
      {
        if p :| p in rest {
          var stamp := parse(bookmarks[(item, p)].updatedAt);
          if stamp > m { m := stamp; }
          rest := rest - {p};
        } else {
          break;
        }
      }
      LatestStampIsUnique(State(), item, parse, m, LatestStamp(State(), item, parse));
    }

    // Puts the items of a path in the order in which the first survives.
    method SortGroup(path: string, parse: string -> int) returns (sorted: seq<int>)
      ensures sorted == SortedMembers(State(), path, parse)
    {
      var members := Members(State(), path);
      var ids := SelectIds(members);
      AscendingIsUnique(ids, IdsInOrder(members), members);
      assert AsSet(ids) == members;
      var rank: map<int, Rank> := map[];
      for n := 0 to |ids|
        invariant rank == RankItems(State(), AsSet(ids[..n]), parse)
      {
        hide LatestStamp, RankItems, IsLatestStamp;
        assert ids[n] in AsSet(ids);
        var row := items[ids[n]];
        var stamp := NewestStamp(ids[n], parse);
        rank := rank[ids[n] := Rank(if row.available then 1 else 0, stamp, parse(row.updatedAt),
                                    parse(if row.lastSeenAt.Some? then row.lastSeenAt.value else ""), ids[n])];
        assert ids[..n + 1] == ids[..n] + [ids[n]];
        assert AsSet(ids[..n + 1]) == AsSet(ids[..n]) + {ids[n]};
        RankOneMore(State(), AsSet(ids[..n]), ids[n], parse);
      }
      assert ids[..|ids|] == ids;
      sorted := Sort(ids, rank);
    }

    // The nested loop that fills latestBookmarkByProfile.
    method PickBookmarks(sorted: seq<int>, parse: string -> int) returns (m: map<string, Bookmark>)
      ensures forall p :: Lookup(m, p) == Pick(State(), sorted, p, parse)
    {
      hide Pick;
      m := map[];
      EmptyPick(State(), parse);
      for i := 0 to |sorted|
        invariant forall p :: Lookup(m, p) == Pick(State(), sorted[..i], p, parse)
      {
        var rest := ProfilesOf(State(), sorted[i]);
        forall p
          ensures p !in rest ==> Pick(State(), sorted[..i + 1], p, parse) == Pick(State(), sorted[..i], p, parse)
        {
          PickNext(State(), sorted, i, p, parse);
          if p !in rest { assert (sorted[i], p) !in bookmarks by { NotInProfiles(State(), sorted[i], p); } }
        }
        while true
          invariant rest <= ProfilesOf(State(), sorted[i])
          invariant forall p ::
                      Lookup(m, p) == Pick(State(), if p in rest then sorted[..i] else sorted[..i + 1], p, parse)
          decreases rest
        {
          if p :| p in rest {
            PickNext(State(), sorted, i, p, parse);
            var bookmark := bookmarks[(sorted[i], p)];
            if p !in m || parse(bookmark.updatedAt) > parse(m[p].updatedAt) {
              m := m[p := bookmark];
            }
            rest := rest - {p};
          } else {
            break;
          }
        }
      }
      assert sorted[..|sorted|] == sorted;
    }

    // Upserts the picked bookmarks, profile by profile in any order, on the survivor.
    method UpsertBookmarks(survivor: int, m: map<string, Bookmark>, ghost sorted: seq<int>, ghost parse: string -> int)
      requires sorted != [] && survivor == sorted[0] && forall p :: Lookup(m, p) == Pick(State(), sorted, p, parse)
      modifies this`bookmarks
      ensures bookmarks == Upserted(old(State()), sorted, parse, GroupProfiles(old(State()), sorted))
    {
      hide Pick, Upserted, Upsert, GroupProfiles;
      ghost var before := State();
      var rest := m.Keys;
      NothingUpserted(before, sorted, parse);
      forall p ensures p in m <==> p in GroupProfiles(before, sorted) {
        ProfilePicked(before, sorted, p, parse);
        assert Lookup(m, p) == Pick(before, sorted, p, parse);
      }
      assert m.Keys - rest == {};
      while true
        invariant rest <= m.Keys && items == before.items
        invariant bookmarks == Upserted(before, sorted, parse, m.Keys - rest)
        decreases rest
      {
        if p :| p in rest {
          assert Lookup(m, p) == Pick(before, sorted, p, parse);
          UpsertStep(before, sorted, parse, m.Keys - rest, p);
          assert m.Keys - (rest - {p}) == m.Keys - rest + {p};
          bookmarks := Upsert(bookmarks, (survivor, p), m[p]);
          rest := rest - {p};
        } else {
          break;
        }
      }
      assert m.Keys - rest == GroupProfiles(before, sorted);
    }

    // Deletes the other items of the group, the bookmarks of each before the item itself.
    method DeleteItems(losers: seq<int>)
      modifies this
      ensures items == old(items) - AsSet(losers)
      ensures bookmarks == map k | k in old(bookmarks) && k.0 !in AsSet(losers) :: old(bookmarks)[k]
    {
      for n := 0 to |losers|
        invariant items == old(items) - AsSet(losers[..n])
        invariant bookmarks == map k | k in old(bookmarks) && k.0 !in AsSet(losers[..n]) :: old(bookmarks)[k]
      {
        assert losers[..n + 1] == losers[..n] + [losers[n]];
        assert AsSet(losers[..n + 1]) == AsSet(losers[..n]) + {losers[n]};
        bookmarks := map k | k in bookmarks && k.0 != losers[n] :: bookmarks[k];
        items := items - {losers[n]};
      }
      assert losers[..|losers|] == losers;
    }

    method MergeDuplicates(path: string, parse: string -> int)
      modifies this
      ensures State() == MergePaths(old(State()), [path], parse)
    {
      ghost var before := State();
      var sorted := SortGroup(path, parse);
      if sorted != [] {
        var latest := PickBookmarks(sorted, parse);
        var dated := Dated(State(), sorted);
        UpsertBookmarks(sorted[0], latest, sorted, parse);
        DeleteItems(sorted[1..]);
        items := items[sorted[0] := dated];
        assert State() == MergeGroup(before, sorted, parse);
      }
    }

    // The whole deduplication, for whatever order the query lists the groups in.
    method Deduplicate(parse: string -> int) returns (paths: seq<string>)
      modifies this
      ensures AreDuplicated(old(State()), paths)
      ensures State() == MergePaths(old(State()), paths, parse)
    {
      hide AreDuplicated;
      ghost var before := State();
      paths := SelectDuplicatedPaths();
      for n := 0 to |paths|
        invariant MergePaths(State(), paths[n..], parse) == MergePaths(before, paths, parse)
      {
        assert paths[n..][0] == paths[n] && paths[n..][1..] == paths[n + 1..];
        MergeOneMore(State(), paths[n..], parse);
        MergeDuplicates(paths[n], parse);
      }
      assert paths[|paths|..] == [];
    }
  }

  lemma EmptyPick(lib: Library, parse: string -> int)
    ensures forall p :: Pick(lib, [], p, parse) == None
  {
  }

  lemma NotInProfiles(lib: Library, x: int, p: string)
    requires p !in ProfilesOf(lib, x)
    ensures (x, p) !in lib.bookmarks
  {
  }

  lemma UpsertStep(lib: Library, sorted: seq<int>, parse: string -> int, done: set<string>, p: string)
    requires sorted != [] && p !in done && Pick(lib, sorted, p, parse).Some?
    ensures Upsert(Upserted(lib, sorted, parse, done), (sorted[0], p), Pick(lib, sorted, p, parse).value)
            == Upserted(lib, sorted, parse, done + {p})
  {
    hide Pick;
  }

  lemma RankOneMore(lib: Library, done: set<int>, x: int, parse: string -> int)
    requires x in lib.items
    ensures RankItems(lib, done + {x}, parse) == RankItems(lib, done, parse)[x :=
              Rank(if lib.items[x].available then 1 else 0, LatestStamp(lib, x, parse), parse(lib.items[x].updatedAt),
                   parse(if lib.items[x].lastSeenAt.Some? then lib.items[x].lastSeenAt.value else ""), x)]
  {
  }

  lemma NothingUpserted(lib: Library, sorted: seq<int>, parse: string -> int)
    requires sorted != []
    ensures Upserted(lib, sorted, parse, {}) == lib.bookmarks
  {
  }

  lemma MergeOneMore(lib: Library, paths: seq<string>, parse: string -> int)
    requires paths != []
    ensures MergePaths(lib, paths, parse) == MergePaths(MergePaths(lib, [paths[0]], parse), paths[1..], parse)
  {
  }
}
