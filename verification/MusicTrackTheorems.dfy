// Folding all track groups loses no user data, keeps every constraint, leaves one track
// per folded path, and fails exactly on a path clash that can be seen beforehand.
module MusicTrackTheorems {
  import opened Text
  import opened Sequences
  import opened Ranking
  import opened Grouping
  import opened PathClash
  import opened MusicTables
  import opened MusicKeeping
  import opened MusicTracks

  // Everything the track merge does not write.
  ghost predicate SameCatalog(s: Tables, r: Tables) {
    && r.albums == s.albums && r.artists == s.artists && r.albumArtists == s.albumArtists
    && (forall t :: t in r.tracks ==> t in s.tracks && r.tracks[t].album == s.tracks[t].album)
  }

  lemma DroppedTrackIsRepresented(tracks: map<int, Track>, survivor: int, loser: int, key: Folding)
    requires survivor in tracks && survivor != loser && key(survivor) == key(loser)
    requires loser in tracks && tracks[loser].available ==> tracks[survivor].available
    ensures TracksKept(tracks, tracks - {loser}, key)
  {
    forall t | t in tracks ensures Represented(tracks - {loser}, t, tracks[t].available, key) {
      var u := if t == loser then survivor else t;
      assert u in tracks - {loser};
    }
  }

  lemma ArtistLinksFollow(s: Tables, loser: int)
    requires Constraints(s)
    ensures Without(s.trackArtists, loser)
        == map k | k in s.trackArtists && k.0 in s.tracks - {loser} :: s.trackArtists[k]
  {
  }

  lemma MergeLoserKeeps(s: Tables, survivor: int, loser: int, key: Folding)
    requires Constraints(s) && survivor in s.tracks && loser in s.tracks && survivor != loser
    requires key(survivor) == key(loser)
    requires s.tracks[loser].available ==> s.tracks[survivor].available
    ensures Constraints(MergeLoser(s, survivor, loser))
    ensures Keeps(s, MergeLoser(s, survivor, loser), key)
  {
    hide Constraints, RowsKept, HistoryKept, TracksKept, TakeOver, FoldHistory, Without, RunScript;
    EveryStatementIsAccepted(s, survivor, loser);
    StatementsAddUp(s, survivor, loser);
    DroppedTrackIsRepresented(s.tracks, survivor, loser, key);
    TakeOverKeeps(s.favorites, survivor, loser, (s.tracks - {loser}).Keys, key);
    TakeOverKeeps(s.playlistTracks, survivor, loser, (s.tracks - {loser}).Keys, key);
    FoldHistoryKeeps(s.history, survivor, loser, key);
    ArtistLinksFollow(s, loser);
  }

  // A survivor that outranks its losers is available whenever one of them is.
  ghost predicate Foldable(s: Tables, survivor: int, losers: seq<int>, key: Folding) {
    && survivor in s.tracks && survivor !in losers && Distinct(losers)
    && forall k :: 0 <= k < |losers| ==>
         && losers[k] in s.tracks && key(losers[k]) == key(survivor)
         && (s.tracks[losers[k]].available ==> s.tracks[survivor].available)
  }

  lemma OneTrackIsGone(s: Tables, survivor: int, loser: int)
    ensures var r := MergeLoser(s, survivor, loser);
            r.tracks == s.tracks - {loser} && SameCatalog(s, r)
  {
  }

  lemma {:induction false} MergeLosersKeeps(s: Tables, survivor: int, losers: seq<int>, key: Folding)
    requires Constraints(s) && Foldable(s, survivor, losers, key)
    ensures var r := MergeLosers(s, survivor, losers);
            && Constraints(r) && Keeps(s, r, key) && SameCatalog(s, r)
            && r.tracks == s.tracks - AsSet(losers)
    decreases |losers|
  {
    hide Keeps, Constraints, MergeLoser;
    if losers == [] {
      KeepsItself(s, key);
    } else {
      var t := MergeLoser(s, survivor, losers[0]);
      OneTrackIsGone(s, survivor, losers[0]);
      MergeLoserKeeps(s, survivor, losers[0], key);
      MergeLosersKeeps(t, survivor, losers[1..], key);
      KeepsTransitive(s, t, MergeLosers(s, survivor, losers), key);
      assert AsSet(losers) == {losers[0]} + AsSet(losers[1..]);
    }
  }

  lemma NewPathIsKept(tracks: map<int, Track>, track: int, row: Track, key: Folding)
    requires track in tracks && row.available == tracks[track].available
    requires row.updatedAt == tracks[track].updatedAt && row.other == tracks[track].other
    ensures TracksKept(tracks, tracks[track := row], key)
  {
    forall t | t in tracks ensures Represented(tracks[track := row], t, tracks[t].available, key) {
      assert t in tracks[track := row];
    }
  }

  lemma SetPathKeeps(s: Tables, track: int, path: string, key: Folding)
    requires Constraints(s)
    ensures Keeps(s, SetTrackPath(s, track, path), key)
  {
    hide Constraints, RowsKept, HistoryKept, TracksKept;
    KeepsItself(s, key);
    if track in s.tracks {
      NewPathIsKept(s.tracks, track, s.tracks[track].(filePath := path, relPath := path), key);
      assert SetTrackPath(s, track, path).tracks.Keys == s.tracks.Keys;
    }
  }

  // ---- One group ----

  // The rows of the group are still there, and their ranks begin with availability.
  ghost predicate GroupReady(s: Tables, group: seq<int>, plan: TrackPlan, key: Folding) {
    && GroupPlanned(group, plan)
    && forall k :: 0 <= k < |group| ==>
         && group[k] in s.tracks && key(group[k]) == key(group[0])
         && plan.rank[group[k]].first == (if s.tracks[group[k]].available then 1 else 0)
  }

  lemma BestIsFirst(group: seq<int>, rank: map<int, Rank>)
    requires group != [] && forall k :: 0 <= k < |group| ==> group[k] in rank
    ensures Sort(group, rank) != [] && Best(group, rank) == Sort(group, rank)[0]
  {
    SameElements(Sort(group, rank), group);
  }

  lemma SortedGroupIsFoldable(s: Tables, group: seq<int>, plan: TrackPlan, key: Folding)
    requires GroupReady(s, group, plan, key)
    ensures var sorted := Sort(group, plan.rank);
            && sorted != [] && sorted[0] == Best(group, plan.rank)
            && Foldable(s, sorted[0], sorted[1..], key)
            && AsSet(sorted[1..]) == AsSet(group) - {sorted[0]}
  {
    hide Sort;
    var sorted := Sort(group, plan.rank);
    SameElements(sorted, group);
    SortSorts(group, plan.rank);
    BestIsFirst(group, plan.rank);
    forall k | 0 <= k < |sorted| ensures sorted[k] in s.tracks && key(sorted[k]) == key(group[0])
      && plan.rank[sorted[k]].first == (if s.tracks[sorted[k]].available then 1 else 0)
    {
      var i :| 0 <= i < |group| && group[i] == sorted[k];
    }
    forall k | 0 <= k < |sorted[1..]|
      ensures s.tracks[sorted[1..][k]].available ==> s.tracks[sorted[0]].available
    {
      assert Compare(plan.rank[sorted[0]], plan.rank[sorted[k + 1]]) < 0;
    }
    assert sorted == [sorted[0]] + sorted[1..];
  }

  lemma GroupMerges(s: Tables, group: seq<int>, plan: TrackPlan, key: Folding)
    requires Constraints(s) && GroupReady(s, group, plan, key)
    ensures var b := Best(group, plan.rank); var r := MergeLosers(s, b, Losers(group, plan));
            && Constraints(r) && Keeps(s, r, key) && SameCatalog(s, r)
            && b in group && r.tracks == s.tracks - (AsSet(group) - {b})
  {
    hide Keeps, Constraints, SameCatalog;
    SortedGroupIsFoldable(s, group, plan, key);
    MergeLosersKeeps(s, Best(group, plan.rank), Losers(group, plan), key);
  }

  lemma MergeGroupKeeps(s: Tables, group: seq<int>, plan: TrackPlan, key: Folding)
    requires Constraints(s) && GroupReady(s, group, plan, key)
    ensures var b := Best(group, plan.rank); var p := plan.path[b];
            && (MergeGroup(s, group, plan).Some? <==>
                 forall u :: u in s.tracks && u !in group ==> s.tracks[u].filePath != p)
            && (MergeGroup(s, group, plan).Some? ==>
                 var r := MergeGroup(s, group, plan).value;
                 && Constraints(r) && Keeps(s, r, key) && SameCatalog(s, r)
                 && r.tracks == (s.tracks - (AsSet(group) - {b}))[b := s.tracks[b].(filePath := p, relPath := p)])
  {
    hide Keeps, Constraints, MergeLosers, Sort;
    var b := Best(group, plan.rank);
    GroupMerges(s, group, plan, key);
    var merged := MergeLosers(s, b, Losers(group, plan));
    assert forall u :: u in merged.tracks && u != b <==> u in s.tracks && u !in group;
    if PathIsFree(merged.tracks, b, plan.path[b]) {
      SetTrackPathKeepsConstraints(merged, b, plan.path[b]);
      SetPathKeeps(merged, b, plan.path[b], key);
      KeepsTransitive(s, merged, SetTrackPath(merged, b, plan.path[b]), key);
    }
  }

  // ---- All groups ----

  ghost predicate Ready(s: Tables, groups: seq<seq<int>>, plan: TrackPlan, key: Folding) {
    && (forall i :: 0 <= i < |groups| ==> GroupReady(s, groups[i], plan, key))
    && (forall i, j :: 0 <= i < j < |groups| ==> key(groups[i][0]) != key(groups[j][0]))
  }

  lemma ReadyIsPlanned(s: Tables, groups: seq<seq<int>>, plan: TrackPlan, key: Folding)
    requires Ready(s, groups, plan, key)
    ensures Planned(groups, plan)
  {
    forall i | 0 <= i < |groups| ensures GroupPlanned(groups[i], plan) {
      assert GroupReady(s, groups[i], plan, key);
    }
  }

  lemma ReadyMembersKey(s: Tables, groups: seq<seq<int>>, plan: TrackPlan, key: Folding, i: int, x: int)
    requires Ready(s, groups, plan, key) && 0 <= i < |groups| && x in groups[i]
    ensures x in s.tracks && key(x) == key(groups[i][0])
  {
    assert GroupReady(s, groups[i], plan, key);
    var k :| 0 <= k < |groups[i]| && groups[i][k] == x;
  }

  lemma GroupsAreDisjoint(s: Tables, groups: seq<seq<int>>, plan: TrackPlan, key: Folding, i: int, j: int)
    requires Ready(s, groups, plan, key) && 0 <= i < j < |groups|
    ensures forall x :: x in groups[i] ==> x !in groups[j]
  {
    forall x | x in groups[i] ensures x !in groups[j] {
      ReadyMembersKey(s, groups, plan, key, i, x);
      assert GroupReady(s, groups[j], plan, key);
    }
  }

  // After one group the remaining groups are still untouched.
  lemma RestIsReady(s: Tables, groups: seq<seq<int>>, plan: TrackPlan, key: Folding, r: Tables)
    requires groups != [] && Ready(s, groups, plan, key)
    requires r.tracks.Keys >= s.tracks.Keys - AsSet(groups[0])
    requires forall u :: u in s.tracks && u !in groups[0] ==> r.tracks[u] == s.tracks[u]
    ensures Ready(r, groups[1..], plan, key)
  {
    forall i | 0 <= i < |groups[1..]| ensures GroupReady(r, groups[1..][i], plan, key) {
      var g := groups[i + 1];
      assert GroupReady(s, g, plan, key);
      GroupsAreDisjoint(s, groups, plan, key, 0, i + 1);
      forall k | 0 <= k < |g| ensures g[k] in r.tracks && r.tracks[g[k]] == s.tracks[g[k]] {
        assert g[k] !in groups[0];
      }
    }
  }

  lemma {:induction false} MergeGroupsKeeps(s: Tables, groups: seq<seq<int>>, plan: TrackPlan, key: Folding)
    requires Constraints(s) && Ready(s, groups, plan, key) && Planned(groups, plan)
    ensures MergeGroups(s, groups, plan).Some? ==>
              var r := MergeGroups(s, groups, plan).value;
              Constraints(r) && Keeps(s, r, key) && SameCatalog(s, r)
    decreases |groups|
  {
    if groups == [] {
      KeepsItself(s, key);
    } else {
      assert GroupReady(s, groups[0], plan, key);
      MergeGroupKeeps(s, groups[0], plan, key);
      if MergeGroup(s, groups[0], plan).Some? {
        var t := MergeGroup(s, groups[0], plan).value;
        RestIsReady(s, groups, plan, key, t);
        MergeGroupsKeeps(t, groups[1..], plan, key);
        if MergeGroups(t, groups[1..], plan).Some? {
          KeepsTransitive(s, t, MergeGroups(t, groups[1..], plan).value, key);
        }
      }
    }
  }

  // ---- What remains ----

  // t is the best track of some group
  ghost predicate Wins(groups: seq<seq<int>>, plan: TrackPlan, t: int)
    requires Planned(groups, plan)
  {
    groups != [] && (t == Best(groups[0], plan.rank) || Wins(groups[1..], plan, t))
  }

  // t is in some group but not its best track
  ghost predicate Loses(groups: seq<seq<int>>, plan: TrackPlan, t: int)
    requires Planned(groups, plan)
  {
    groups != [] && ((t in groups[0] && t != Best(groups[0], plan.rank)) || Loses(groups[1..], plan, t))
  }

  lemma {:induction false} InNoGroup(groups: seq<seq<int>>, plan: TrackPlan, t: int)
    requires Planned(groups, plan) && forall i :: 0 <= i < |groups| ==> t !in groups[i]
    ensures !Wins(groups, plan, t) && !Loses(groups, plan, t)
  {
    if groups != [] {
      assert GroupPlanned(groups[0], plan);
      assert t !in groups[0];
      forall i | 0 <= i < |groups[1..]| ensures t !in groups[1..][i] { assert t !in groups[i + 1]; }
      InNoGroup(groups[1..], plan, t);
    }
  }

  lemma NotInLaterGroups(s: Tables, groups: seq<seq<int>>, plan: TrackPlan, key: Folding, t: int)
    requires Ready(s, groups, plan, key) && Planned(groups, plan) && groups != [] && t in groups[0]
    ensures !Wins(groups[1..], plan, t) && !Loses(groups[1..], plan, t)
  {
    forall i | 0 <= i < |groups[1..]| ensures t !in groups[1..][i] {
      GroupsAreDisjoint(s, groups, plan, key, 0, i + 1);
    }
    InNoGroup(groups[1..], plan, t);
  }

  // A track stays exactly when it loses in no group; winners get their new path.
  lemma {:induction false} WinnersStay(s: Tables, groups: seq<seq<int>>, plan: TrackPlan, key: Folding, t: int)
    requires Constraints(s) && Ready(s, groups, plan, key) && Planned(groups, plan)
    requires MergeGroups(s, groups, plan).Some?
    ensures var r := MergeGroups(s, groups, plan).value;
            && (t in r.tracks <==> t in s.tracks && !Loses(groups, plan, t))
            && (t in r.tracks ==> r.tracks[t] == if Wins(groups, plan, t) && t in plan.path
                                                 then s.tracks[t].(filePath := plan.path[t], relPath := plan.path[t])
                                                 else s.tracks[t])
    decreases |groups|
  {
    hide Constraints, Keeps;
    if groups != [] {
      assert GroupReady(s, groups[0], plan, key);
      MergeGroupKeeps(s, groups[0], plan, key);
      var r := MergeGroup(s, groups[0], plan).value;
      RestIsReady(s, groups, plan, key, r);
      WinnersStay(r, groups[1..], plan, key, t);
      if t in groups[0] { NotInLaterGroups(s, groups, plan, key, t); }
    }
  }

  // ---- When it fails ----

  ghost function Winners(groups: seq<seq<int>>, plan: TrackPlan): (w: seq<int>)
    requires Planned(groups, plan)
    ensures |w| == |groups| && forall i :: 0 <= i < |groups| ==> w[i] == Best(groups[i], plan.rank) && w[i] in plan.path
  {
    seq(|groups|, i requires 0 <= i < |groups| =>
      assert GroupPlanned(groups[i], plan); Best(groups[i], plan.rank))
  }

  ghost function NewPaths(groups: seq<seq<int>>, plan: TrackPlan): (p: seq<string>)
    requires Planned(groups, plan)
    ensures |p| == |groups| && forall i :: 0 <= i < |groups| ==> p[i] == plan.path[Best(groups[i], plan.rank)]
  {
    var w := Winners(groups, plan);
    seq(|groups|, i requires 0 <= i < |groups| => plan.path[w[i]])
  }

  ghost function StoredPaths(tracks: map<int, Track>): map<int, string> {
    map t | t in tracks :: tracks[t].filePath
  }

  lemma PlanTails(groups: seq<seq<int>>, plan: TrackPlan)
    requires groups != [] && Planned(groups, plan) && Planned(groups[1..], plan)
    ensures Winners(groups[1..], plan) == Winners(groups, plan)[1..]
    ensures NewPaths(groups[1..], plan) == NewPaths(groups, plan)[1..]
  {
    forall i | 0 <= i < |groups[1..]| ensures groups[1..][i] == groups[i + 1] {}
  }

  lemma MovedPath(tracks: map<int, Track>, group: seq<int>, b: int, p: string)
    requires b in tracks && b in group
    ensures StoredPaths((tracks - (AsSet(group) - {b}))[b := tracks[b].(filePath := p, relPath := p)])
            == PathClash.Moved(StoredPaths(tracks), group, b, p)
  {
  }

  lemma {:induction false} MergeFollowsPaths(s: Tables, groups: seq<seq<int>>, plan: TrackPlan, key: Folding)
    requires Constraints(s) && Ready(s, groups, plan, key) && Planned(groups, plan)
    requires Shaped(groups, Winners(groups, plan), NewPaths(groups, plan))
    ensures MergeGroups(s, groups, plan).Some?
            <==> AllAccepted(StoredPaths(s.tracks), groups, Winners(groups, plan), NewPaths(groups, plan))
    decreases |groups|
  {
    hide Constraints, Keeps, SameCatalog, MergeGroup, Best, PathClash.Moved, Winners, NewPaths;
    if groups != [] {
      assert GroupReady(s, groups[0], plan, key);
      MergeGroupKeeps(s, groups[0], plan, key);
      if MergeGroup(s, groups[0], plan).Some? {
        var r := MergeGroup(s, groups[0], plan).value;
        RestIsReady(s, groups, plan, key, r);
        PlanTails(groups, plan);
        MovedPath(s.tracks, groups[0], Winners(groups, plan)[0], NewPaths(groups, plan)[0]);
        MergeFollowsPaths(r, groups[1..], plan, key);
      }
    }
  }

  // The merge goes through if and only if no survivor's new path is stored by a track
  // that is still to be handled.
  lemma MergeSucceedsIff(s: Tables, groups: seq<seq<int>>, plan: TrackPlan, key: Folding)
    requires Constraints(s) && Ready(s, groups, plan, key) && Planned(groups, plan)
    requires forall i, j :: 0 <= i < j < |groups| ==> NewPaths(groups, plan)[i] != NewPaths(groups, plan)[j]
    ensures MergeGroups(s, groups, plan).Some? <==> PathsAreFree(StoredPaths(s.tracks), groups, NewPaths(groups, plan))
  {
    hide Constraints;
    forall i | 0 <= i < |groups| ensures Winners(groups, plan)[i] in groups[i] {
      assert GroupPlanned(groups[i], plan);
    }
    MergeFollowsPaths(s, groups, plan, key);
    AcceptedIffFree(StoredPaths(s.tracks), groups, Winners(groups, plan), NewPaths(groups, plan));
  }
}
