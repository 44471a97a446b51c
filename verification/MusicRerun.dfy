// When the migration succeeds, what becomes of albums and artists, and why running it
// again changes nothing.
module MusicRerun {
  import opened Text
  import opened Ranking
  import opened Grouping
  import opened PathClash
  import opened MusicTables
  import opened MusicKeeping
  import T = MusicTracks
  import TT = MusicTrackTheorems
  import opened MusicAlbums
  import A = MusicAlbumMerge
  import AT = MusicAlbumTheorems
  import opened MusicMigration
  import opened MusicGuarantees

  // ---- Success ----

  ghost predicate TrackPathsFree(s: Tables, rules: Rules)
    requires TracksPortable(s.tracks, rules)
  {
    TrackGroupsReady(s, rules);
    PathsAreFree(TT.StoredPaths(s.tracks), TrackGroups(s.tracks, rules),
      TT.NewPaths(TrackGroups(s.tracks, rules), TrackPlan(s.tracks, rules)))
  }

  // `tracks` are the tracks that remain: album survivors are chosen by their number.
  ghost predicate AlbumPathsFree(albums: map<int, Album>, tracks: map<int, Track>, s: Tables, rules: Rules)
    requires AlbumsPortable(albums, rules)
  {
    AlbumGroupsReady(s, albums, rules);
    PathsAreFree(AT.StoredPaths(albums), AlbumGroups(albums, rules),
                 AT.NewPaths(tracks, AlbumGroups(albums, rules), AlbumPlan(albums, rules)))
  }

  lemma TrackMergeSucceedsIff(s: Tables, rules: Rules)
    requires Constraints(s) && TracksPortable(s.tracks, rules)
    ensures MergeTracks(s, rules).Some? <==> TrackPathsFree(s, rules)
  {
    hide Constraints, TrackGroups;
    var plan, key, groups := TrackPlan(s.tracks, rules), TrackKey(s, rules), TrackGroups(s.tracks, rules);
    TrackGroupsReady(s, rules);
    var news := TT.NewPaths(groups, plan);
    forall i | 0 <= i < |groups| ensures rules.fold(news[i]) == key(groups[i][0]) {
      assert TT.GroupReady(s, groups[i], plan, key);
      var b := T.Best(groups[i], plan.rank);
      var k :| 0 <= k < |groups[i]| && groups[i][k] == b;
    }
    TT.MergeSucceedsIff(s, groups, plan, key);
  }

  lemma AlbumMergeSucceedsIff(t: Tables, rules: Rules)
    requires Constraints(t) && AlbumsPortable(t.albums, rules)
    ensures MergeAlbums(t, t.albums, rules).Some? <==> AlbumPathsFree(t.albums, t.tracks, t, rules)
  {
    hide Constraints, AlbumGroups, A.SortAlbums;
    var plan, key, groups := AlbumPlan(t.albums, rules), AlbumKey(t, rules), AlbumGroups(t.albums, rules);
    AlbumGroupsReady(t, t.albums, rules);
    var news := AT.NewPaths(t.tracks, groups, plan);
    forall i | 0 <= i < |groups| ensures rules.fold(news[i]) == key(groups[i][0]) {
      assert AT.GroupReady(t, groups[i], plan, key);
      var b := A.SortAlbums(t.tracks, groups[i], plan)[0];
      var k :| 0 <= k < |groups[i]| && groups[i][k] == b;
    }
    AT.MergeSucceedsIff(t, groups, plan, key);
  }

  // The tracks that lose in no group, as they are before the merge.
  ghost function Staying(s: Tables, rules: Rules): map<int, Track>
    requires TracksPortable(s.tracks, rules)
  {
    TrackGroupsReady(s, rules);
    map t | t in s.tracks && !TT.Loses(TrackGroups(s.tracks, rules), TrackPlan(s.tracks, rules), t) :: s.tracks[t]
  }

  // Album survivors depend only on which tracks are left, and in which albums.
  ghost predicate SameAlbums(a: map<int, Track>, b: map<int, Track>) {
    a.Keys == b.Keys && forall t :: t in a ==> a[t].album == b[t].album
  }

  lemma StayingTrack(s: Tables, rules: Rules, x: int)
    requires Constraints(s) && TracksPortable(s.tracks, rules) && MergeTracks(s, rules).Some?
    ensures var t := MergeTracks(s, rules).value.tracks;
            && (x in t <==> x in Staying(s, rules))
            && (x in t ==> t[x].album == Staying(s, rules)[x].album)
  {
    hide Constraints, TrackGroups, TrackPlan, Key, TT.Loses, TT.Wins, TT.Ready, T.Planned, T.MergeGroups;
    TrackGroupsReady(s, rules);
    TT.WinnersStay(s, TrackGroups(s.tracks, rules), TrackPlan(s.tracks, rules), TrackKey(s, rules), x);
  }

  lemma StayingTracksRemain(s: Tables, rules: Rules)
    requires Constraints(s) && TracksPortable(s.tracks, rules) && MergeTracks(s, rules).Some?
    ensures SameAlbums(MergeTracks(s, rules).value.tracks, Staying(s, rules))
  {
    hide Constraints, MergeTracks, Staying;
    forall x
      ensures x in MergeTracks(s, rules).value.tracks <==> x in Staying(s, rules)
      ensures x in Staying(s, rules) ==> MergeTracks(s, rules).value.tracks[x].album == Staying(s, rules)[x].album
    {
      StayingTrack(s, rules, x);
    }
  }

  lemma SameAlbumsSameOrder(a: map<int, Track>, b: map<int, Track>, group: seq<int>, plan: A.AlbumPlan)
    requires A.GroupPlanned(group, plan) && SameAlbums(a, b)
    ensures A.SortAlbums(a, group, plan) == A.SortAlbums(b, group, plan)
  {
    forall album ensures A.TrackCount(a, album) == A.TrackCount(b, album) {
      forall t ensures t in a && a[t].album == album <==> t in b && b[t].album == album {
        assert t in a.Keys <==> t in b.Keys;
      }
      assert (set t | t in a && a[t].album == album) == (set t | t in b && b[t].album == album);
    }
    assert A.RankAlbums(a, group, plan) == A.RankAlbums(b, group, plan);
  }

  lemma SameAlbumsSamePathsFree(albums: map<int, Album>, a: map<int, Track>, b: map<int, Track>, s: Tables,
                                rules: Rules)
    requires AlbumsPortable(albums, rules) && SameAlbums(a, b)
    ensures AlbumPathsFree(albums, a, s, rules) <==> AlbumPathsFree(albums, b, s, rules)
  {
    hide AlbumGroups, AlbumPlan, A.SortAlbums, PathsAreFree;
    AlbumGroupsReady(s, albums, rules);
    var groups, plan := AlbumGroups(albums, rules), AlbumPlan(albums, rules);
    forall i | 0 <= i < |groups| ensures AT.NewPaths(a, groups, plan)[i] == AT.NewPaths(b, groups, plan)[i] {
      assert A.GroupPlanned(groups[i], plan);
      SameAlbumsSameOrder(a, b, groups[i], plan);
    }
    assert AT.NewPaths(a, groups, plan) == AT.NewPaths(b, groups, plan);
  }

  // The migration commits if and only if every path can be normalised and no new path of a
  // group is stored by a row that is still to be handled; otherwise it rolls back. All of it
  // can be seen in the tables before the migration.
  lemma MigrationSucceedsIff(s: Tables, rules: Rules)
    requires Constraints(s)
    ensures Migrate(s, rules).Some? <==>
              && Portable(s, rules)
              && TrackPathsFree(s, rules)
              && AlbumPathsFree(s.albums, Staying(s, rules), s, rules)
  {
    hide Constraints, TrackPathsFree, AlbumPathsFree, SameAlbums, Staying;
    if Portable(s, rules) {
      TrackMergeSucceedsIff(s, rules);
      if MergeTracks(s, rules).Some? {
        TrackStage(s, rules);
        var t := MergeTracks(s, rules).value;
        AlbumMergeSucceedsIff(t, rules);
        SameAlbumPathsFree(s, t, rules);
        StayingTracksRemain(s, rules);
        SameAlbumsSamePathsFree(s.albums, t.tracks, Staying(s, rules), s, rules);
      }
    }
  }

  lemma SameAlbumPathsFree(s: Tables, t: Tables, rules: Rules)
    requires t.albums == s.albums && AlbumsPortable(s.albums, rules)
    ensures AlbumPathsFree(t.albums, t.tracks, t, rules) == AlbumPathsFree(s.albums, t.tracks, s, rules)
  {
  }

  // ---- A migration that rolls back ----

  // Track 1 is about to get the path that track 2 still stores.
  const BLOCKED := Tables(
    map[1 := Track(1, "/x/Musica/a.mp3", "Musica/a.mp3", true, "", ""),
        2 := Track(1, "Musica/a.mp3", "Musica/b.mp3", true, "", "")],
    map[1 := Album("Musica/x", "Musica/x", "", None, "")],
    {}, {}, map[], map[], map[], map[], map[], map[])

  // What is used of the normalisers: a relative path is kept as it is.
  ghost predicate KeepsRelative(rules: Rules) {
    && (forall file :: rules.trackPath("Musica/a.mp3", file) == Some("Musica/a.mp3"))
    && (forall file :: rules.trackPath("Musica/b.mp3", file) == Some("Musica/b.mp3"))
    && (forall directory :: rules.albumPath("Musica/x", directory) == Some("Musica/x"))
    && rules.fold("Musica/a.mp3") != rules.fold("Musica/b.mp3")
  }

  lemma {:induction false} TwoGroups(x: int, y: int, key: int -> string)
    requires key(x) != key(y)
    ensures Values(GroupBy([x, y], key)) == [[x], [y]]
  {
    assert [x, y][..1] == [x] && [x][..0] == [];
    var one := Groups([key(x)], map[key(x) := [x]]);
    assert GroupBy([x], key) == Add(GroupBy([], key), key(x), x) == one;
    assert GroupBy([x, y], key) == Add(one, key(y), y);
  }

  lemma BlockedGroups(rules: Rules)
    requires KeepsRelative(rules)
    ensures TrackGroups(BLOCKED.tracks, rules) == [[1], [2]]
  {
    hide GroupBy;
    var key := Key(TrackPlan(BLOCKED.tracks, rules).path, rules);
    assert BLOCKED.tracks.Keys == {1, 2};
    AscendingIsUnique(IdsInOrder({1, 2}), [1, 2], {1, 2});
    TwoGroups(1, 2, key);
  }

  lemma BlockedTrack(rules: Rules)
    requires KeepsRelative(rules) && TracksPortable(BLOCKED.tracks, rules)
    ensures !TrackPathsFree(BLOCKED, rules)
  {
    hide TrackGroups, T.Best, T.MergeGroup;
    TrackGroupsReady(BLOCKED, rules);
    BlockedGroups(rules);
    var groups, plan := TrackGroups(BLOCKED.tracks, rules), TrackPlan(BLOCKED.tracks, rules);
    var news, stored := TT.NewPaths(groups, plan), TT.StoredPaths(BLOCKED.tracks);
    assert T.Best([1], plan.rank) in [1];
    assert news[0] == "Musica/a.mp3" && stored[2] == "Musica/a.mp3";
    NotYetHandled(groups);
    assert !FreeAt(stored, groups, news, 0);
  }

  lemma NotYetHandled(groups: seq<seq<int>>)
    requires groups == [[1], [2]]
    ensures !InSome(groups[..1], 2)
  {
  }

  // The constraints hold and every path can be normalised, and yet the UPDATE of track 1 is
  // refused.
  lemma StoredPathBlocksTheMigration(rules: Rules)
    requires KeepsRelative(rules)
    ensures Constraints(BLOCKED) && Portable(BLOCKED, rules)
    ensures !TrackPathsFree(BLOCKED, rules) && Migrate(BLOCKED, rules) == None
  {
    hide Migrate, Staying, AlbumPathsFree, TrackPathsFree;
    BlockedTrack(rules);
    MigrationSucceedsIff(BLOCKED, rules);
  }

  // ---- Albums and artists ----

  // Of every album group one album remains: the one with the most tracks after the track
  // merge. It lists the group's artists in order of first appearance, survivor first, and
  // every remaining track of the group belongs to it.
  lemma AlbumsAreMerged(s: Tables, rules: Rules, i: nat)
    requires Constraints(s) && Migrate(s, rules).Some?
    ensures Portable(s, rules)
    ensures A.Planned(AlbumGroups(s.albums, rules), AlbumPlan(s.albums, rules))
    ensures i < |AlbumGroups(s.albums, rules)| ==>
            var r := Migrate(s, rules).value; var group := AlbumGroups(s.albums, rules)[i];
            var sorted := A.SortAlbums(Staying(s, rules), group, AlbumPlan(s.albums, rules));
            && (forall a :: a in group ==> (a in r.albums <==> a == sorted[0]))
            && ArtistList(r.albumArtists, sorted[0]) == FirstOccurrences(AT.ListsOf(s.albumArtists, sorted))
            && (forall x :: x in r.tracks ==>
                  x in s.tracks && (s.tracks[x].album in group ==> r.tracks[x].album == sorted[0]))
  {
    hide Constraints, Keeps, AlbumGroups, AlbumPlan, MergeTracks, MergeAlbums, A.SortAlbums, ArtistList,
         FirstOccurrences, AT.ListsOf, Staying, SameAlbums;
    var t, u, r := MigrateStages(s, rules);
    AlbumOutcome(t, rules, i);
    StayingTracksRemain(s, rules);
    if i < |AlbumGroups(s.albums, rules)| {
      SameAlbumsSameOrder(t.tracks, Staying(s, rules), AlbumGroups(s.albums, rules)[i], AlbumPlan(s.albums, rules));
    }
  }

  // An artist remains exactly when some album or track still refers to it.
  lemma ArtistsAreCollected(s: Tables, rules: Rules, artist: int)
    requires Constraints(s) && Migrate(s, rules).Some?
    ensures artist in Migrate(s, rules).value.artists <==> A.Referenced(Migrate(s, rules).value, artist)
  {
    hide Keeps, Migrate, MergeTracks, MergeAlbums;
    var t, u, r := MigrateStages(s, rules);
    assert A.Referenced(r, artist) <==> A.Referenced(u, artist);
  }

  // ---- A second run ----

  ghost predicate Idempotent(normalise: (string, string) -> Option<string>) {
    forall a, b :: normalise(a, b).Some? ==> normalise(normalise(a, b).value, normalise(a, b).value) == normalise(a, b)
  }

  // Each track is alone in its group and already carries its path.
  ghost predicate TrackSettled(s: Tables, group: seq<int>, plan: T.TrackPlan) {
    && |group| == 1 && T.GroupPlanned(group, plan) && group[0] in s.tracks
    && s.tracks[group[0]].filePath == s.tracks[group[0]].relPath == plan.path[group[0]]
  }

  lemma {:induction false} SettledTracksStay(s: Tables, groups: seq<seq<int>>, plan: T.TrackPlan)
    requires Constraints(s) && T.Planned(groups, plan)
    requires forall i :: 0 <= i < |groups| ==> TrackSettled(s, groups[i], plan)
    ensures T.MergeGroups(s, groups, plan) == Some(s)
    decreases |groups|
  {
    if groups != [] {
      assert TrackSettled(s, groups[0], plan);
      assert Sort(groups[0], plan.rank) == groups[0];
      var x := groups[0][0];
      assert s.tracks[x := s.tracks[x].(filePath := plan.path[x], relPath := plan.path[x])] == s.tracks;
      assert T.MergeGroup(s, groups[0], plan) == Some(s);
      forall i | 0 <= i < |groups[1..]|
        ensures TrackSettled(s, groups[1..][i], plan)
      {
        assert TrackSettled(s, groups[i + 1], plan);
      }
      SettledTracksStay(s, groups[1..], plan);
    }
  }

  ghost predicate AlbumSettled(s: Tables, group: seq<int>, plan: A.AlbumPlan) {
    && |group| == 1 && A.GroupPlanned(group, plan) && group[0] in s.albums
    && s.albums[group[0]] == AT.Renewed(s.albums[group[0]], plan.path[group[0]])
  }

  lemma {:induction false} SettledAlbumsStay(s: Tables, groups: seq<seq<int>>, plan: A.AlbumPlan)
    requires Constraints(s) && A.Planned(groups, plan)
    requires forall i :: 0 <= i < |groups| ==> AlbumSettled(s, groups[i], plan)
    ensures A.MergeGroups(s, groups, plan) == Some(s)
    decreases |groups|
  {
    if groups != [] {
      assert AlbumSettled(s, groups[0], plan);
      var sorted := A.SortAlbums(s.tracks, groups[0], plan);
      SameElements(sorted, groups[0]);
      assert sorted == groups[0];
      var a := groups[0][0];
      assert s.albums[a := AT.Renewed(s.albums[a], plan.path[a])] == s.albums;
      assert A.MergeGroup(s, groups[0], plan) == Some(s);
      forall i | 0 <= i < |groups[1..]|
        ensures AlbumSettled(s, groups[1..][i], plan)
      {
        assert AlbumSettled(s, groups[i + 1], plan);
      }
      SettledAlbumsStay(s, groups[1..], plan);
    }
  }

  lemma AloneInGroup(groups: seq<seq<int>>, ids: set<int>, key: int -> string, i: nat)
    requires Partition(groups, ids, key) && i < |groups|
    requires forall x, y :: x in ids && y in ids && key(x) == key(y) ==> x == y
    ensures |groups[i]| == 1 && groups[i][0] in ids
  {
    PartitionGroup(groups, ids, key, i);
    assert groups[i][|groups[i]| - 1] == groups[i][0];
  }

  lemma TracksAreSettled(s: Tables, rules: Rules)
    requires Constraints(s) && Migrate(s, rules).Some? && Idempotent(rules.trackPath)
    ensures var r := Migrate(s, rules).value; TracksPortable(r.tracks, rules) && MergeTracks(r, rules) == Some(r)
  {
    hide Constraints, Keeps, Migrate, Partition, TrackGroups;
    var r := Migrate(s, rules).value;
    MigrationKeeps(s, rules);
    forall x | x in r.tracks
      ensures r.tracks[x].filePath == r.tracks[x].relPath
      ensures rules.trackPath(r.tracks[x].relPath, r.tracks[x].filePath) == Some(r.tracks[x].relPath)
    {
      FinalTrack(s, rules, x);
    }
    var plan, key, groups := TrackPlan(r.tracks, rules), TrackKey(r, rules), TrackGroups(r.tracks, rules);
    TrackGroupsReady(r, rules);
    TrackGroupsPartition(r.tracks, rules);
    FoldedPathsAreDistinct(s, rules);
    forall x, y | x in r.tracks && y in r.tracks && key(x) == key(y) ensures x == y {
      assert FoldedTrack(r, rules, x) == FoldedTrack(r, rules, y);
    }
    forall i | 0 <= i < |groups| ensures TrackSettled(r, groups[i], plan) {
      AloneInGroup(groups, r.tracks.Keys, key, i);
      assert TT.GroupReady(r, groups[i], plan, key);
    }
    SettledTracksStay(r, groups, plan);
  }

  lemma AlbumsAreSettled(s: Tables, rules: Rules)
    requires Constraints(s) && Migrate(s, rules).Some? && Idempotent(rules.albumPath)
    ensures var r := Migrate(s, rules).value;
            AlbumsPortable(r.albums, rules) && MergeAlbums(r, r.albums, rules) == Some(r)
  {
    hide Constraints, Keeps, Migrate, Partition, AlbumGroups;
    var r := Migrate(s, rules).value;
    MigrationKeeps(s, rules);
    forall a | a in r.albums
      ensures r.albums[a] == AT.Renewed(r.albums[a], r.albums[a].relPath)
      ensures rules.albumPath(r.albums[a].relPath, r.albums[a].directoryPath) == Some(r.albums[a].relPath)
    {
      FinalAlbum(s, rules, a);
    }
    var plan, key, groups := AlbumPlan(r.albums, rules), AlbumKey(r, rules), AlbumGroups(r.albums, rules);
    AlbumGroupsReady(r, r.albums, rules);
    AlbumGroupsPartition(r.albums, rules);
    FoldedPathsAreDistinct(s, rules);
    forall x, y | x in r.albums && y in r.albums && key(x) == key(y) ensures x == y {
      assert FoldedAlbum(r, rules, x) == FoldedAlbum(r, rules, y);
    }
    forall i | 0 <= i < |groups| ensures AlbumSettled(r, groups[i], plan) {
      AloneInGroup(groups, r.albums.Keys, key, i);
      assert AT.GroupReady(r, groups[i], plan, key);
    }
    SettledAlbumsStay(r, groups, plan);
  }

  lemma CleanUpIsDone(s: Tables, rules: Rules)
    requires Constraints(s) && Migrate(s, rules).Some?
    ensures var r := Migrate(s, rules).value; CleanUp(r) == r
  {
    hide Constraints, Keeps, Migrate;
    var r := Migrate(s, rules).value;
    forall a | a in r.albums ensures r.albums[a].cover == None { FinalAlbum(s, rules, a); }
    assert A.ClearCovers(r).albums == r.albums;
    forall artist | artist in r.artists ensures A.Referenced(r, artist) { ArtistsAreCollected(s, rules, artist); }
    assert A.CollectArtists(r).artists == r.artists;
  }

  // A run over migrated tables commits and changes nothing, so it may be repeated when the
  // process stopped before the schema version was raised.
  lemma SecondRunChangesNothing(s: Tables, rules: Rules)
    requires Constraints(s) && Migrate(s, rules).Some?
    requires Idempotent(rules.trackPath) && Idempotent(rules.albumPath)
    ensures Migrate(Migrate(s, rules).value, rules) == Migrate(s, rules)
  {
    hide Constraints, Idempotent, MergeTracks, MergeAlbums, CleanUp, TracksPortable, AlbumsPortable;
    TracksAreSettled(s, rules);
    AlbumsAreSettled(s, rules);
    CleanUpIsDone(s, rules);
  }
}
