// Which row of a group of duplicate tracks is kept: of favourites and playlists the one of the
// first track that has one, of the listening history the fold of all of them, track by track.
module MusicRows {
  import opened Text
  import opened Sequences
  import opened Ranking
  import opened Grouping
  import opened MusicTables
  import opened MusicKeeping
  import T = MusicTracks
  import TT = MusicTrackTheorems

  // ---- Rows of one cell, folded ----

  function Row<X(==), V>(rows: map<(int, X), V>, owner: int, x: X): Option<V> {
    if (owner, x) in rows then Some(rows[(owner, x)]) else None
  }

  function Join<V>(a: Option<V>, b: Option<V>, combine: (V, V) -> V): Option<V> {
    if a.Some? && b.Some? then Some(combine(a.value, b.value)) else if a.Some? then a else b
  }

  // `row`, joined with the rows of the owners one after the other
  function Joined<X(==), V>(row: Option<V>, rows: map<(int, X), V>, owners: seq<int>, x: X, combine: (V, V) -> V)
    : Option<V>
    decreases |owners|
  {
    if owners == [] then row
    else Joined(Join(row, Row(rows, owners[0], x), combine), rows, owners[1..], x, combine)
  }

  function KeepFirst<V>(a: V, b: V): V { a }

  ghost predicate SameRow<X(!new), V>(a: map<(int, X), V>, b: map<(int, X), V>, owner: int) {
    forall x :: Row(a, owner, x) == Row(b, owner, x)
  }

  // The survivor's rows are joined with those of the losers; all other owners keep theirs.
  ghost predicate Folds<X(!new), V>(a: map<(int, X), V>, b: map<(int, X), V>, survivor: int, losers: seq<int>,
                                    combine: (V, V) -> V) {
    && (forall x :: Row(b, survivor, x) == Joined(Row(a, survivor, x), a, losers, x, combine))
    && (forall owner :: owner != survivor && owner !in losers ==> SameRow(a, b, owner))
  }

  lemma {:induction false} SameRowsJoinAlike<X(!new), V>(a: map<(int, X), V>, b: map<(int, X), V>, row: Option<V>,
                                                         owners: seq<int>, x: X, combine: (V, V) -> V)
    requires forall i :: 0 <= i < |owners| ==> SameRow(a, b, owners[i])
    ensures Joined(row, a, owners, x, combine) == Joined(row, b, owners, x, combine)
    decreases |owners|
  {
    hide SameRow;
    if owners != [] {
      assert Row(a, owners[0], x) == Row(b, owners[0], x) by { OneRow(a, b, owners[0], x); }
      forall i | 0 <= i < |owners[1..]| ensures SameRow(a, b, owners[1..][i]) { assert SameRow(a, b, owners[i + 1]); }
      SameRowsJoinAlike(a, b, Join(row, Row(a, owners[0], x), combine), owners[1..], x, combine);
    }
  }

  lemma OneRow<X(!new), V>(a: map<(int, X), V>, b: map<(int, X), V>, owner: int, x: X)
    requires SameRow(a, b, owner)
    ensures Row(a, owner, x) == Row(b, owner, x)
  {
  }

  lemma FoldsOneMore<X(!new), V>(a: map<(int, X), V>, b: map<(int, X), V>, c: map<(int, X), V>, survivor: int,
                                 losers: seq<int>, combine: (V, V) -> V)
    requires losers != [] && Distinct(losers) && survivor !in losers
    requires Folds(a, b, survivor, losers[..1], combine) && Folds(b, c, survivor, losers[1..], combine)
    ensures Folds(a, c, survivor, losers, combine)
  {
    hide SameRow;
    var rest := losers[1..];
    assert losers[..1] == [losers[0]] && [losers[0]][1..] == [];
    forall i | 0 <= i < |rest| ensures SameRow(a, b, rest[i]) {
      assert rest[i] == losers[i + 1] && rest[i] in losers;
      assert rest[i] !in losers[..1];
    }
    forall x ensures Row(c, survivor, x) == Joined(Row(a, survivor, x), a, losers, x, combine) {
      JoinedOne(Row(a, survivor, x), a, losers[0], x, combine);
      SameRowsJoinAlike(a, b, Row(b, survivor, x), rest, x, combine);
    }
    forall owner | owner != survivor && owner !in losers ensures SameRow(a, c, owner) {
      assert owner !in losers[..1] && owner !in rest;
      SameRowTransitive(a, b, c, owner);
    }
  }

  lemma JoinedOne<X, V>(row: Option<V>, rows: map<(int, X), V>, owner: int, x: X, combine: (V, V) -> V)
    ensures Joined(row, rows, [owner], x, combine) == Join(row, Row(rows, owner, x), combine)
  {
    assert [owner][1..] == [];
  }

  lemma SameRowTransitive<X(!new), V>(a: map<(int, X), V>, b: map<(int, X), V>, c: map<(int, X), V>, owner: int)
    requires SameRow(a, b, owner) && SameRow(b, c, owner)
    ensures SameRow(a, c, owner)
  {
    forall x ensures Row(a, owner, x) == Row(c, owner, x) {
      OneRow(a, b, owner, x);
      OneRow(b, c, owner, x);
    }
  }

  lemma TakeOverFolds<X(!new), V>(rows: map<(int, X), V>, survivor: int, loser: int)
    requires survivor != loser
    ensures Folds(rows, TakeOver(rows, survivor, loser), survivor, [loser], KeepFirst)
  {
    var r := TakeOver(rows, survivor, loser);
    forall x ensures Row(r, survivor, x) == Joined(Row(rows, survivor, x), rows, [loser], x, KeepFirst) {
      assert x in RowsOf(rows, loser) <==> (loser, x) in rows;
      JoinedOne(Row(rows, survivor, x), rows, loser, x, KeepFirst);
    }
  }

  lemma FoldHistoryFolds(rows: map<(int, string), History>, survivor: int, loser: int)
    requires survivor != loser
    ensures Folds(rows, FoldHistory(rows, survivor, loser), survivor, [loser], MergeHistory)
  {
    var r := FoldHistory(rows, survivor, loser);
    forall x ensures Row(r, survivor, x) == Joined(Row(rows, survivor, x), rows, [loser], x, MergeHistory) {
      assert x in RowsOf(rows, loser) <==> (loser, x) in rows;
      JoinedOne(Row(rows, survivor, x), rows, loser, x, MergeHistory);
    }
    forall owner | owner != survivor && owner != loser ensures SameRow(rows, r, owner) {
      assert forall x :: (owner, x) in r <==> (owner, x) in rows;
    }
  }

  // ---- One group ----

  // The three tables whose rows are taken over
  ghost predicate GroupFolds(s: Tables, r: Tables, survivor: int, losers: seq<int>) {
    && Folds(s.favorites, r.favorites, survivor, losers, KeepFirst)
    && Folds(s.playlistTracks, r.playlistTracks, survivor, losers, KeepFirst)
    && Folds(s.history, r.history, survivor, losers, MergeHistory)
  }

  ghost predicate SameRows(s: Tables, r: Tables, owner: int) {
    && SameRow(s.favorites, r.favorites, owner)
    && SameRow(s.playlistTracks, r.playlistTracks, owner)
    && SameRow(s.history, r.history, owner)
  }

  lemma LoserFolds(s: Tables, survivor: int, loser: int)
    requires survivor != loser
    ensures GroupFolds(s, T.MergeLoser(s, survivor, loser), survivor, [loser])
  {
    hide Folds, TakeOver, FoldHistory;
    TakeOverFolds(s.favorites, survivor, loser);
    TakeOverFolds(s.playlistTracks, survivor, loser);
    FoldHistoryFolds(s.history, survivor, loser);
  }

  lemma NothingFolds(s: Tables, survivor: int)
    ensures GroupFolds(s, s, survivor, [])
  {
  }

  lemma {:induction false} LosersFold(s: Tables, survivor: int, losers: seq<int>)
    requires Distinct(losers) && survivor !in losers
    ensures GroupFolds(s, T.MergeLosers(s, survivor, losers), survivor, losers)
    decreases |losers|
  {
    hide Folds, T.MergeLoser;
    if losers == [] {
      NothingFolds(s, survivor);
    } else {
      var t := T.MergeLoser(s, survivor, losers[0]);
      LoserFolds(s, survivor, losers[0]);
      LosersFold(t, survivor, losers[1..]);
      var r := T.MergeLosers(t, survivor, losers[1..]);
      assert losers[..1] == [losers[0]];
      FoldsOneMore(s.favorites, t.favorites, r.favorites, survivor, losers, KeepFirst);
      FoldsOneMore(s.playlistTracks, t.playlistTracks, r.playlistTracks, survivor, losers, KeepFirst);
      FoldsOneMore(s.history, t.history, r.history, survivor, losers, MergeHistory);
    }
  }

  lemma MergedGroupFolds(s: Tables, group: seq<int>, plan: T.TrackPlan)
    requires T.GroupPlanned(group, plan) && T.MergeGroup(s, group, plan).Some?
    ensures var sorted := Sort(group, plan.rank);
            sorted != [] && GroupFolds(s, T.MergeGroup(s, group, plan).value, sorted[0], sorted[1..])
  {
    hide GroupFolds, Sort, T.MergeLosers;
    var sorted := Sort(group, plan.rank);
    TT.BestIsFirst(group, plan.rank);
    SortSorts(group, plan.rank);
    SortedIsDistinct(sorted, plan.rank);
    LosersFold(s, sorted[0], sorted[1..]);
    SamePathSameRows(s, T.MergeLosers(s, sorted[0], sorted[1..]), sorted[0], sorted[1..], plan.path[sorted[0]]);
  }

  lemma SamePathSameRows(s: Tables, t: Tables, survivor: int, losers: seq<int>, path: string)
    requires GroupFolds(s, t, survivor, losers)
    ensures GroupFolds(s, T.SetTrackPath(t, survivor, path), survivor, losers)
  {
    hide Folds;
  }

  // ---- All groups ----

  lemma SameRowsTransitive(a: Tables, b: Tables, c: Tables, owner: int)
    requires SameRows(a, b, owner) && SameRows(b, c, owner)
    ensures SameRows(a, c, owner)
  {
    SameRowTransitive(a.favorites, b.favorites, c.favorites, owner);
    SameRowTransitive(a.playlistTracks, b.playlistTracks, c.playlistTracks, owner);
    SameRowTransitive(a.history, b.history, c.history, owner);
  }

  lemma OutsidersKeepRows(s: Tables, group: seq<int>, plan: T.TrackPlan, owner: int)
    requires T.GroupPlanned(group, plan) && T.MergeGroup(s, group, plan).Some? && owner !in group
    ensures SameRows(s, T.MergeGroup(s, group, plan).value, owner)
  {
    hide Sort, T.MergeGroup, SameRow, Joined;
    var sorted := Sort(group, plan.rank);
    SameElements(sorted, group);
    MergedGroupFolds(s, group, plan);
    assert owner != sorted[0] && owner !in sorted[1..];
  }

  lemma {:induction false} OtherGroupsKeepRows(s: Tables, groups: seq<seq<int>>, plan: T.TrackPlan, owner: int)
    requires T.Planned(groups, plan) && T.MergeGroups(s, groups, plan).Some?
    requires forall i :: 0 <= i < |groups| ==> owner !in groups[i]
    ensures SameRows(s, T.MergeGroups(s, groups, plan).value, owner)
    decreases |groups|
  {
    hide SameRows, T.MergeGroup, T.GroupPlanned;
    if groups == [] {
      TablesKeepRows(s, owner);
    } else {
      assert T.GroupPlanned(groups[0], plan);
      OutsidersKeepRows(s, groups[0], plan, owner);
      var t := T.MergeGroup(s, groups[0], plan).value;
      forall i | 0 <= i < |groups[1..]| ensures owner !in groups[1..][i] { assert owner !in groups[i + 1]; }
      OtherGroupsKeepRows(t, groups[1..], plan, owner);
      SameRowsTransitive(s, t, T.MergeGroups(t, groups[1..], plan).value, owner);
    }
  }

  lemma TablesKeepRows(s: Tables, owner: int)
    ensures SameRows(s, s, owner)
  {
  }

  // What the first of `order` ends with.
  ghost predicate JoinsRows<X(!new), V>(a: map<(int, X), V>, b: map<(int, X), V>, order: seq<int>,
                                        combine: (V, V) -> V)
    requires order != []
  {
    forall x :: Row(b, order[0], x) == Joined(Row(a, order[0], x), a, order[1..], x, combine)
  }

  ghost predicate JoinsTables(s: Tables, r: Tables, order: seq<int>)
    requires order != []
  {
    && JoinsRows(s.favorites, r.favorites, order, KeepFirst)
    && JoinsRows(s.playlistTracks, r.playlistTracks, order, KeepFirst)
    && JoinsRows(s.history, r.history, order, MergeHistory)
  }

  lemma FirstGroupJoins(s: Tables, t: Tables, r: Tables, order: seq<int>)
    requires order != [] && GroupFolds(s, t, order[0], order[1..]) && SameRows(t, r, order[0])
    ensures JoinsTables(s, r, order)
  {
    hide Joined;
    forall x ensures Row(r.favorites, order[0], x) == Row(t.favorites, order[0], x) {
      OneRow(t.favorites, r.favorites, order[0], x);
    }
    forall x ensures Row(r.playlistTracks, order[0], x) == Row(t.playlistTracks, order[0], x) {
      OneRow(t.playlistTracks, r.playlistTracks, order[0], x);
    }
    forall x ensures Row(r.history, order[0], x) == Row(t.history, order[0], x) {
      OneRow(t.history, r.history, order[0], x);
    }
  }

  lemma SameRowsJoin<X(!new), V>(s: map<(int, X), V>, t: map<(int, X), V>, r: map<(int, X), V>, order: seq<int>,
                                 combine: (V, V) -> V)
    requires order != [] && JoinsRows(t, r, order, combine)
    requires forall i :: 0 <= i < |order| ==> SameRow(s, t, order[i])
    ensures JoinsRows(s, r, order, combine)
  {
    hide SameRow, Joined;
    forall x ensures Row(r, order[0], x) == Joined(Row(s, order[0], x), s, order[1..], x, combine) {
      OneRow(s, t, order[0], x);
      forall i | 0 <= i < |order[1..]| ensures SameRow(s, t, order[1..][i]) { assert SameRow(s, t, order[i + 1]); }
      SameRowsJoinAlike(s, t, Row(s, order[0], x), order[1..], x, combine);
    }
  }

  lemma LaterGroupJoins(s: Tables, t: Tables, r: Tables, order: seq<int>)
    requires order != [] && JoinsTables(t, r, order)
    requires forall i :: 0 <= i < |order| ==> SameRows(s, t, order[i])
    ensures JoinsTables(s, r, order)
  {
    hide SameRow, JoinsRows;
    forall i | 0 <= i < |order|
      ensures SameRow(s.favorites, t.favorites, order[i]) && SameRow(s.playlistTracks, t.playlistTracks, order[i])
      ensures SameRow(s.history, t.history, order[i])
    {
      assert SameRows(s, t, order[i]);
    }
    SameRowsJoin(s.favorites, t.favorites, r.favorites, order, KeepFirst);
    SameRowsJoin(s.playlistTracks, t.playlistTracks, r.playlistTracks, order, KeepFirst);
    SameRowsJoin(s.history, t.history, r.history, order, MergeHistory);
  }

  // The best track of every group ends with the rows of its group joined, as they were before
  // the migration, whatever the other groups did.
  lemma {:induction false} EveryGroupJoins(s: Tables, groups: seq<seq<int>>, plan: T.TrackPlan, key: Folding, i: nat)
    requires Constraints(s) && TT.Ready(s, groups, plan, key) && T.Planned(groups, plan)
    requires T.MergeGroups(s, groups, plan).Some? && i < |groups|
    ensures T.GroupPlanned(groups[i], plan)
    ensures var sorted := Sort(groups[i], plan.rank);
            sorted != [] && JoinsTables(s, T.MergeGroups(s, groups, plan).value, sorted)
    decreases |groups|
  {
    hide Constraints, Keeps, SameRows, JoinsTables, GroupFolds, Sort, T.MergeGroup, TT.GroupReady, TT.SameCatalog,
         T.GroupPlanned;
    GroupIsSorted(s, groups, plan, key, i);
    FirstOfAllGroups(s, groups, plan, key);
    var sorted := Sort(groups[i], plan.rank);
    var t := T.MergeGroup(s, groups[0], plan).value;
    if i == 0 {
      MergedGroupFolds(s, groups[0], plan);
      forall j | 0 <= j < |groups[1..]| ensures sorted[0] !in groups[1..][j] {
        TT.GroupsAreDisjoint(s, groups, plan, key, 0, j + 1);
      }
      OtherGroupsKeepRows(t, groups[1..], plan, sorted[0]);
      FirstGroupJoins(s, t, T.MergeGroups(s, groups, plan).value, sorted);
    } else {
      assert groups[1..][i - 1] == groups[i];
      EveryGroupJoins(t, groups[1..], plan, key, i - 1);
      TT.GroupsAreDisjoint(s, groups, plan, key, 0, i);
      forall k | 0 <= k < |sorted| ensures SameRows(s, t, sorted[k]) {
        OutsidersKeepRows(s, groups[0], plan, sorted[k]);
      }
      LaterGroupJoins(s, t, T.MergeGroups(s, groups, plan).value, sorted);
    }
  }

  lemma GroupIsSorted(s: Tables, groups: seq<seq<int>>, plan: T.TrackPlan, key: Folding, i: nat)
    requires TT.Ready(s, groups, plan, key) && T.Planned(groups, plan) && i < |groups|
    ensures T.GroupPlanned(groups[i], plan) && forall k :: 0 <= k < |groups[i]| ==> groups[i][k] in plan.rank
    ensures var sorted := Sort(groups[i], plan.rank);
            sorted != [] && forall k :: 0 <= k < |sorted| ==> sorted[k] in groups[i]
  {
    hide Sort;
    assert T.GroupPlanned(groups[i], plan);
    SameElements(Sort(groups[i], plan.rank), groups[i]);
  }

  lemma FirstOfAllGroups(s: Tables, groups: seq<seq<int>>, plan: T.TrackPlan, key: Folding)
    requires Constraints(s) && TT.Ready(s, groups, plan, key) && T.Planned(groups, plan)
    requires T.MergeGroups(s, groups, plan).Some? && groups != []
    ensures T.GroupPlanned(groups[0], plan) && T.MergeGroup(s, groups[0], plan).Some? && T.Planned(groups[1..], plan)
    ensures var t := T.MergeGroup(s, groups[0], plan).value;
            && Constraints(t) && TT.Ready(t, groups[1..], plan, key)
            && T.MergeGroups(t, groups[1..], plan) == T.MergeGroups(s, groups, plan)
  {
    hide Constraints, Keeps, TT.SameCatalog, T.MergeGroup, T.Best;
    assert TT.GroupReady(s, groups[0], plan, key);
    TT.MergeGroupKeeps(s, groups[0], plan, key);
    var t := T.MergeGroup(s, groups[0], plan).value;
    TT.RestIsReady(s, groups, plan, key, t);
  }

  // ---- What joining means ----

  ghost predicate Has<X(!new), V>(rows: map<(int, X), V>, order: seq<int>, i: int, x: X) {
    0 <= i < |order| && (order[i], x) in rows
  }

  // Kept is the row of the first owner that has one.
  ghost predicate IsFirst<X(!new), V>(rows: map<(int, X), V>, order: seq<int>, i: int, x: X) {
    Has(rows, order, i, x) && forall k :: 0 <= k < i ==> !Has(rows, order, k, x)
  }

  lemma {:induction false} FirstIsKept<X(!new), V>(rows: map<(int, X), V>, order: seq<int>, x: X)
    requires order != []
    ensures var row := Joined(Row(rows, order[0], x), rows, order[1..], x, KeepFirst);
            && (row.None? <==> forall i :: !Has(rows, order, i, x))
            && forall i :: IsFirst(rows, order, i, x) ==> row == Some(rows[(order[i], x)])
    decreases |order|
  {
    if Row(rows, order[0], x).Some? {
      FirstStays(rows, Row(rows, order[0], x), order[1..], x);
      assert Has(rows, order, 0, x);
    } else if |order| == 1 {
      assert Joined(Row(rows, order[0], x), rows, order[1..], x, KeepFirst) == None;
    } else {
      FirstIsKept(rows, order[1..], x);
      forall i ensures i > 0 ==> (Has(rows, order, i, x) <==> Has(rows, order[1..], i - 1, x)) {}
      assert !Has(rows, order, 0, x);
      forall i | IsFirst(rows, order, i, x) ensures i > 0 && IsFirst(rows, order[1..], i - 1, x) {
        assert i > 0;
        forall k | 0 <= k < i - 1 ensures !Has(rows, order[1..], k, x) { assert !Has(rows, order, k + 1, x); }
      }
      forall i | Has(rows, order[1..], i, x) ensures Has(rows, order, i + 1, x) {}
    }
  }

  lemma {:induction false} FirstStays<X(!new), V>(rows: map<(int, X), V>, row: Option<V>, owners: seq<int>, x: X)
    requires row.Some?
    ensures Joined(row, rows, owners, x, KeepFirst) == row
    decreases |owners|
  {
    if owners != [] { FirstStays(rows, row, owners[1..], x); }
  }

  // ---- The history of a group ----

  // Of the first n owners' rows row i has the greatest time stamp, and of equal ones it is the last.
  ghost predicate IsLastLatest(rows: map<(int, string), History>, order: seq<int>, n: nat, i: int, p: string) {
    && i < n && Has(rows, order, i, p)
    && forall k :: k < n && Has(rows, order, k, p) ==>
         && (k < i ==> Le(rows[(order[k], p)].updatedAt, rows[(order[i], p)].updatedAt))
         && (k > i ==> !Le(rows[(order[i], p)].updatedAt, rows[(order[k], p)].updatedAt))
  }

  ghost predicate IsLastPlayed(rows: map<(int, string), History>, order: seq<int>, n: nat, i: int, p: string) {
    && i < n && Has(rows, order, i, p)
    && forall k :: k < n && Has(rows, order, k, p) ==>
         && (k < i ==> Le(Coalesce(rows[(order[k], p)].playedAt), Coalesce(rows[(order[i], p)].playedAt)))
         && (k > i ==> !Le(Coalesce(rows[(order[i], p)].playedAt), Coalesce(rows[(order[k], p)].playedAt)))
  }

  // Position, duration and time stamp of `row` come from the last of the latest rows among the
  // first n, its last_played_at from the last of the greatest.
  ghost predicate PointsInto(rows: map<(int, string), History>, order: seq<int>, n: nat, p: string, row: History) {
    && (exists i :: IsLastLatest(rows, order, n, i, p) && SamePoint(rows[(order[i], p)], row))
    && (exists i :: IsLastPlayed(rows, order, n, i, p) && rows[(order[i], p)].playedAt == row.playedAt)
  }

  // The fold over the first n owners, from the front
  function Prefix(rows: map<(int, string), History>, order: seq<int>, n: nat, p: string): Option<History>
    requires n <= |order|
  {
    if n == 0 then None else Join(Prefix(rows, order, n - 1, p), Row(rows, order[n - 1], p), MergeHistory)
  }

  lemma {:induction false} PrefixIsJoined(rows: map<(int, string), History>, order: seq<int>, n: nat, p: string)
    requires n <= |order|
    ensures Joined(Prefix(rows, order, n, p), rows, order[n..], p, MergeHistory) == Prefix(rows, order, |order|, p)
    decreases |order| - n
  {
    hide MergeHistory;
    if n < |order| {
      assert order[n..][0] == order[n] && order[n..][1..] == order[n + 1..];
      PrefixIsJoined(rows, order, n + 1, p);
    }
  }

  lemma LatestMovesOn(rows: map<(int, string), History>, order: seq<int>, n: nat, i: nat, p: string)
    requires IsLastLatest(rows, order, n, i, p) && Has(rows, order, n, p)
    ensures IsLastLatest(rows, order, n + 1,
              if Le(rows[(order[i], p)].updatedAt, rows[(order[n], p)].updatedAt) then n else i, p)
  {
    hide Le;
    var last := rows[(order[n], p)].updatedAt;
    forall k | k < n && Has(rows, order, k, p) && Le(rows[(order[i], p)].updatedAt, last)
      ensures Le(rows[(order[k], p)].updatedAt, last)
    {
      LeTotal(rows[(order[i], p)].updatedAt, rows[(order[k], p)].updatedAt);
      if k != i { LeTransitive(rows[(order[k], p)].updatedAt, rows[(order[i], p)].updatedAt, last); }
    }
  }

  lemma PlayedMovesOn(rows: map<(int, string), History>, order: seq<int>, n: nat, i: nat, p: string)
    requires IsLastPlayed(rows, order, n, i, p) && Has(rows, order, n, p)
    ensures IsLastPlayed(rows, order, n + 1,
              if Le(Coalesce(rows[(order[i], p)].playedAt), Coalesce(rows[(order[n], p)].playedAt)) then n else i, p)
  {
    hide Le;
    var last := Coalesce(rows[(order[n], p)].playedAt);
    forall k | k < n && Has(rows, order, k, p) && Le(Coalesce(rows[(order[i], p)].playedAt), last)
      ensures Le(Coalesce(rows[(order[k], p)].playedAt), last)
    {
      LeTotal(Coalesce(rows[(order[i], p)].playedAt), Coalesce(rows[(order[k], p)].playedAt));
      if k != i {
        LeTransitive(Coalesce(rows[(order[k], p)].playedAt), Coalesce(rows[(order[i], p)].playedAt), last);
      }
    }
  }

  lemma PointsMoveOn(rows: map<(int, string), History>, order: seq<int>, n: nat, p: string, row: History)
    requires Has(rows, order, n, p) && PointsInto(rows, order, n, p, row)
    ensures PointsInto(rows, order, n + 1, p, MergeHistory(row, rows[(order[n], p)]))
  {
    hide Le;
    var next := rows[(order[n], p)];
    var i :| IsLastLatest(rows, order, n, i, p) && SamePoint(rows[(order[i], p)], row);
    LatestMovesOn(rows, order, n, i, p);
    var j :| IsLastPlayed(rows, order, n, j, p) && rows[(order[j], p)].playedAt == row.playedAt;
    PlayedMovesOn(rows, order, n, j, p);
    hide IsLastLatest, IsLastPlayed;
    var i' := if Le(row.updatedAt, next.updatedAt) then n else i;
    assert IsLastLatest(rows, order, n + 1, i', p);
    var j' := if Le(Coalesce(row.playedAt), Coalesce(next.playedAt)) then n else j;
    assert IsLastPlayed(rows, order, n + 1, j', p);
  }

  lemma PointsStay(rows: map<(int, string), History>, order: seq<int>, n: nat, p: string, row: History)
    requires !Has(rows, order, n, p) && PointsInto(rows, order, n, p, row)
    ensures PointsInto(rows, order, n + 1, p, row)
  {
    hide IsLastLatest, IsLastPlayed;
    OneMoreWithout(rows, order, n, p);
  }

  lemma OneMoreWithout(rows: map<(int, string), History>, order: seq<int>, n: nat, p: string)
    requires !Has(rows, order, n, p)
    ensures forall i :: IsLastLatest(rows, order, n, i, p) <==> IsLastLatest(rows, order, n + 1, i, p)
    ensures forall i :: IsLastPlayed(rows, order, n, i, p) <==> IsLastPlayed(rows, order, n + 1, i, p)
  {
    hide Le, Coalesce;
    forall i ensures IsLastLatest(rows, order, n, i, p) <==> IsLastLatest(rows, order, n + 1, i, p) {
      forall k ensures k < n && Has(rows, order, k, p) <==> k < n + 1 && Has(rows, order, k, p) {}
    }
    forall i ensures IsLastPlayed(rows, order, n, i, p) <==> IsLastPlayed(rows, order, n + 1, i, p) {
      forall k ensures k < n && Has(rows, order, k, p) <==> k < n + 1 && Has(rows, order, k, p) {}
    }
  }

  lemma FirstPoint(rows: map<(int, string), History>, order: seq<int>, n: nat, p: string)
    requires Has(rows, order, n, p) && forall k :: k < n ==> !Has(rows, order, k, p)
    ensures PointsInto(rows, order, n + 1, p, rows[(order[n], p)])
  {
    hide Le;
    assert IsLastLatest(rows, order, n + 1, n, p);
    assert IsLastPlayed(rows, order, n + 1, n, p);
  }

  lemma {:induction false} PrefixPoints(rows: map<(int, string), History>, order: seq<int>, n: nat, p: string)
    requires n <= |order|
    ensures Prefix(rows, order, n, p).None? <==> forall k :: k < n ==> !Has(rows, order, k, p)
    ensures Prefix(rows, order, n, p).Some? ==> PointsInto(rows, order, n, p, Prefix(rows, order, n, p).value)
  {
    hide PointsInto, MergeHistory;
    if n > 0 {
      var m := n - 1;
      PrefixPoints(rows, order, m, p);
      if !Has(rows, order, m, p) {
        if Prefix(rows, order, m, p).Some? { PointsStay(rows, order, m, p, Prefix(rows, order, m, p).value); }
      } else if Prefix(rows, order, m, p).Some? {
        PointsMoveOn(rows, order, m, p, Prefix(rows, order, m, p).value);
      } else {
        FirstPoint(rows, order, m, p);
      }
    }
  }

  // The joined history row of a group: there is one exactly if some track had one.
  lemma LastLatestIsKept(rows: map<(int, string), History>, order: seq<int>, p: string)
    requires order != []
    ensures var row := Joined(Row(rows, order[0], p), rows, order[1..], p, MergeHistory);
            && (row.None? <==> forall i :: !Has(rows, order, i, p))
            && (row.Some? ==> PointsInto(rows, order, |order|, p, row.value))
  {
    hide MergeHistory, PointsInto;
    PrefixIsJoined(rows, order, 1, p);
    PrefixPoints(rows, order, |order|, p);
    assert Prefix(rows, order, 1, p) == Row(rows, order[0], p);
  }
}
