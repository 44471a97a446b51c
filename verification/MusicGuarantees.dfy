// What a successful migration of the music tables guarantees.
module MusicGuarantees {
  import opened Text
  import opened Sequences
  import opened Ranking
  import opened Grouping
  import opened MusicTables
  import opened MusicKeeping
  import T = MusicTracks
  import TT = MusicTrackTheorems
  import opened MusicAlbums
  import A = MusicAlbumMerge
  import AT = MusicAlbumTheorems
  import opened MusicMigration

  // The folded normalised paths of the rows as they were before the migration.
  ghost function TrackKey(s: Tables, rules: Rules): Folding {
    Key(TrackPlan(s.tracks, rules).path, rules)
  }

  ghost function AlbumKey(s: Tables, rules: Rules): Folding {
    Key(AlbumPlan(s.albums, rules).path, rules)
  }

  // ---- The stages ----

  lemma TrackStage(s: Tables, rules: Rules)
    requires Constraints(s) && Portable(s, rules) && MergeTracks(s, rules).Some?
    ensures var t := MergeTracks(s, rules).value;
            Constraints(t) && Keeps(s, t, TrackKey(s, rules)) && TT.SameCatalog(s, t)
  {
    TrackGroupsReady(s, rules);
    TT.MergeGroupsKeeps(s, TrackGroups(s.tracks, rules), TrackPlan(s.tracks, rules), TrackKey(s, rules));
  }

  lemma AlbumStage(t: Tables, rules: Rules)
    requires Constraints(t) && AlbumsPortable(t.albums, rules) && MergeAlbums(t, t.albums, rules).Some?
    ensures var u := MergeAlbums(t, t.albums, rules).value;
            Constraints(u) && AT.KeepsAlbums(t, u, AlbumKey(t, rules))
  {
    AlbumGroupsReady(t, t.albums, rules);
    AT.MergeGroupsKeeps(t, AlbumGroups(t.albums, rules), AlbumPlan(t.albums, rules), AlbumKey(t, rules));
  }

  // Every row the album half and the clean-up may change, seen from the user's tables.
  ghost predicate SameForUsers(t: Tables, r: Tables) {
    && r.favorites == t.favorites && r.history == t.history && r.playlistTracks == t.playlistTracks
    && r.sessions == t.sessions && r.trackArtists == t.trackArtists && r.playlists == t.playlists
    && r.tracks.Keys == t.tracks.Keys
    && forall x :: x in t.tracks ==> r.tracks[x] == t.tracks[x].(album := r.tracks[x].album)
  }

  lemma MigrateStages(s: Tables, rules: Rules) returns (t: Tables, u: Tables, r: Tables)
    requires Constraints(s) && Migrate(s, rules).Some?
    ensures Portable(s, rules) && MergeTracks(s, rules) == Some(t) && t.albums == s.albums
    ensures MergeAlbums(t, s.albums, rules) == Some(u) && r == CleanUp(u) && Migrate(s, rules) == Some(r)
    ensures Constraints(t) && Keeps(s, t, TrackKey(s, rules)) && TT.SameCatalog(s, t)
    ensures Constraints(u) && AT.KeepsAlbums(t, u, AlbumKey(s, rules))
    ensures Constraints(r) && SameForUsers(t, r)
  {
    hide Constraints, Keeps;
    t := MergeTracks(s, rules).value;
    TrackStage(s, rules);
    u := MergeAlbums(t, s.albums, rules).value;
    AlbumStage(t, rules);
    r := CleanUp(u);
    A.CleanupKeepsConstraints(u);
  }

  lemma SameForUsersKeepsTracks(s: map<int, Track>, t: map<int, Track>, r: map<int, Track>, key: Folding)
    requires TracksKept(s, t, key) && r.Keys == t.Keys && forall x :: x in t ==> r[x] == t[x].(album := r[x].album)
    ensures TracksKept(s, r, key)
  {
    forall x | x in s ensures Represented(r, x, s[x].available, key) {
      assert Represented(t, x, s[x].available, key);
      var y :| y in t && key(y) == key(x) && (s[x].available ==> t[y].available);
      assert y in r;
    }
  }

  lemma SameForUsersKeeps(s: Tables, t: Tables, r: Tables, key: Folding)
    requires Keeps(s, t, key) && SameForUsers(t, r)
    ensures Keeps(s, r, key)
  {
    hide RowsKept, HistoryKept, SessionsKept, TracksKept;
    SameForUsersKeepsTracks(s.tracks, t.tracks, r.tracks, key);
    assert forall x :: x in r.tracks <==> x in t.tracks;
  }

  // The constraints hold at the end, and no user data is lost (see MusicKeeping.Keeps).
  lemma MigrationKeeps(s: Tables, rules: Rules)
    requires Constraints(s) && Migrate(s, rules).Some?
    ensures Constraints(Migrate(s, rules).value)
    ensures Keeps(s, Migrate(s, rules).value, TrackKey(s, rules))
  {
    hide Constraints, Keeps, Migrate;
    var t, u, r := MigrateStages(s, rules);
    SameForUsersKeeps(s, t, r, TrackKey(s, rules));
  }

  // ---- One track, one album per folded path ----

  lemma {:induction false} WinnerIndex(groups: seq<seq<int>>, plan: T.TrackPlan, x: int) returns (i: nat)
    requires T.Planned(groups, plan) && TT.Wins(groups, plan, x)
    ensures i < |groups| && x == T.Best(groups[i], plan.rank)
  {
    hide T.Best, T.GroupPlanned, Ranked;
    BestIsDefined(groups, plan);
    if x == T.Best(groups[0], plan.rank) {
      i := 0;
    } else {
      var j := WinnerIndex(groups[1..], plan, x);
      assert groups[1..][j] == groups[j + 1];
      i := j + 1;
    }
  }

  lemma BestIsDefined(groups: seq<seq<int>>, plan: T.TrackPlan)
    requires T.Planned(groups, plan)
    ensures forall i :: 0 <= i < |groups| ==>
              groups[i] != [] && forall k :: 0 <= k < |groups[i]| ==> groups[i][k] in plan.rank
  {
    hide Distinct;
  }

  lemma {:induction false} MemberWinsOrLoses(groups: seq<seq<int>>, plan: T.TrackPlan, x: int)
    requires T.Planned(groups, plan) && InSome(groups, x)
    ensures TT.Wins(groups, plan, x) || TT.Loses(groups, plan, x)
  {
    var i :| 0 <= i < |groups| && x in groups[i];
    if x !in groups[0] {
      assert x in groups[1..][i - 1];
      MemberWinsOrLoses(groups[1..], plan, x);
    }
  }

  // A remaining track is the best of its group and carries its normalised path.
  lemma RemainingTrack(s: Tables, rules: Rules, x: int) returns (i: nat)
    requires Constraints(s) && TracksPortable(s.tracks, rules) && MergeTracks(s, rules).Some?
    requires x in MergeTracks(s, rules).value.tracks
    ensures T.Planned(TrackGroups(s.tracks, rules), TrackPlan(s.tracks, rules))
    ensures x in s.tracks && x in TrackPlan(s.tracks, rules).path
    ensures var p := TrackPlan(s.tracks, rules).path[x];
            MergeTracks(s, rules).value.tracks[x] == s.tracks[x].(filePath := p, relPath := p)
    ensures var groups := TrackGroups(s.tracks, rules);
            i < |groups| && x == T.Best(groups[i], TrackPlan(s.tracks, rules).rank) && x in groups[i]
  {
    hide Constraints, TrackGroups, Partition, TrackPlan, TT.Wins, TT.Loses;
    var plan, key, groups := TrackPlan(s.tracks, rules), TrackKey(s, rules), TrackGroups(s.tracks, rules);
    TrackGroupsReady(s, rules);
    TrackGroupsPartition(s.tracks, rules);
    TT.WinnersStay(s, groups, plan, key, x);
    PartitionCovers(groups, s.tracks.Keys, key, x);
    MemberWinsOrLoses(groups, plan, x);
    i := WinnerIndex(groups, plan, x);
    assert T.GroupPlanned(groups[i], plan);
    var k :| 0 <= k < |groups[i]| && groups[i][k] == x;
  }

  lemma PartitionCovers(groups: seq<seq<int>>, ids: set<int>, key: int -> string, x: int)
    requires Partition(groups, ids, key) && x in ids
    ensures InSome(groups, x)
  {
  }

  // The folded paths of the remaining tracks are pairwise distinct.
  lemma OneTrackPerPath(s: Tables, rules: Rules, x: int, y: int)
    requires Constraints(s) && TracksPortable(s.tracks, rules) && MergeTracks(s, rules).Some?
    requires x in MergeTracks(s, rules).value.tracks && y in MergeTracks(s, rules).value.tracks
    requires TrackKey(s, rules)(x) == TrackKey(s, rules)(y)
    ensures x == y
  {
    hide Constraints, TrackGroups, Partition, TrackPlan, MergeTracks, Key;
    var key, groups := TrackKey(s, rules), TrackGroups(s.tracks, rules);
    var i := RemainingTrack(s, rules, x);
    var j := RemainingTrack(s, rules, y);
    TrackGroupsPartition(s.tracks, rules);
    SameKeySameGroup(groups, s.tracks.Keys, key, i, j, x, y);
  }

  lemma SameKeySameGroup(groups: seq<seq<int>>, ids: set<int>, key: int -> string, i: nat, j: nat, x: int, y: int)
    requires Partition(groups, ids, key) && i < |groups| && j < |groups| && x in groups[i] && y in groups[j]
    requires key(x) == key(y)
    ensures i == j
  {
  }

  // What the album half makes of every album group.
  lemma AlbumOutcome(t: Tables, rules: Rules, i: nat)
    requires Constraints(t) && AlbumsPortable(t.albums, rules) && MergeAlbums(t, t.albums, rules).Some?
    ensures A.Planned(AlbumGroups(t.albums, rules), AlbumPlan(t.albums, rules))
    ensures i < |AlbumGroups(t.albums, rules)| ==>
              AT.GroupOutcome(t, MergeAlbums(t, t.albums, rules).value, AlbumGroups(t.albums, rules)[i],
                AlbumPlan(t.albums, rules))
  {
    hide Constraints;
    AlbumGroupsReady(t, t.albums, rules);
    if i < |AlbumGroups(t.albums, rules)| {
      AT.EveryGroupOutcome(t, AlbumGroups(t.albums, rules), AlbumPlan(t.albums, rules), AlbumKey(t, rules), i);
    }
  }

  lemma RemainingAlbum(t: Tables, rules: Rules, a: int) returns (i: nat)
    requires Constraints(t) && AlbumsPortable(t.albums, rules) && MergeAlbums(t, t.albums, rules).Some?
    requires a in MergeAlbums(t, t.albums, rules).value.albums
    ensures a in t.albums && a in AlbumPlan(t.albums, rules).path
    ensures MergeAlbums(t, t.albums, rules).value.albums[a]
        == AT.Renewed(t.albums[a], AlbumPlan(t.albums, rules).path[a])
    ensures i < |AlbumGroups(t.albums, rules)| && a in AlbumGroups(t.albums, rules)[i]
    ensures forall b :: b in AlbumGroups(t.albums, rules)[i] && b in MergeAlbums(t, t.albums, rules).value.albums
              ==> b == a
  {
    hide Constraints, AlbumGroups, AlbumPlan, Partition, MergeAlbums, ArtistList, FirstOccurrences;
    var groups := AlbumGroups(t.albums, rules);
    AlbumStage(t, rules);
    AlbumGroupsPartition(t.albums, rules);
    PartitionCovers(groups, t.albums.Keys, AlbumKey(t, rules), a);
    var n :| 0 <= n < |groups| && a in groups[n];
    i := n;
    AlbumOutcome(t, rules, i);
  }

  lemma OneAlbumPerPath(t: Tables, rules: Rules, a: int, b: int)
    requires Constraints(t) && AlbumsPortable(t.albums, rules) && MergeAlbums(t, t.albums, rules).Some?
    requires a in MergeAlbums(t, t.albums, rules).value.albums && b in MergeAlbums(t, t.albums, rules).value.albums
    requires AlbumKey(t, rules)(a) == AlbumKey(t, rules)(b)
    ensures a == b
  {
    hide Constraints, AlbumGroups, AlbumPlan, Partition, MergeAlbums, Key;
    var i := RemainingAlbum(t, rules, a);
    var j := RemainingAlbum(t, rules, b);
    AlbumGroupsPartition(t.albums, rules);
    SameKeySameGroup(AlbumGroups(t.albums, rules), t.albums.Keys, AlbumKey(t, rules), i, j, a, b);
  }

  // ---- Final paths ----

  ghost function FoldedTrack(r: Tables, rules: Rules, x: int): string
    requires x in r.tracks
  {
    rules.fold(r.tracks[x].relPath)
  }

  ghost function FoldedAlbum(r: Tables, rules: Rules, a: int): string
    requires a in r.albums
  {
    rules.fold(r.albums[a].relPath)
  }

  // Both path columns of a remaining track hold its normalised path.
  lemma FinalTrack(s: Tables, rules: Rules, x: int)
    requires Constraints(s) && Migrate(s, rules).Some?
    ensures var r := Migrate(s, rules).value;
            x in r.tracks ==>
            && x in s.tracks && x in TrackPlan(s.tracks, rules).path
            && r.tracks[x].filePath == r.tracks[x].relPath == TrackPlan(s.tracks, rules).path[x]
            && FoldedTrack(r, rules, x) == TrackKey(s, rules)(x)
  {
    hide Constraints, Keeps, TrackPlan, Migrate, MergeTracks;
    var t, u, r := MigrateStages(s, rules);
    if x in r.tracks {
      var i := RemainingTrack(s, rules, x);
    }
  }

  lemma FinalAlbum(s: Tables, rules: Rules, a: int)
    requires Constraints(s) && Migrate(s, rules).Some?
    ensures var r := Migrate(s, rules).value;
            a in r.albums ==>
            && a in s.albums && a in AlbumPlan(s.albums, rules).path
            && r.albums[a] == AT.Renewed(s.albums[a], AlbumPlan(s.albums, rules).path[a])
            && FoldedAlbum(r, rules, a) == AlbumKey(s, rules)(a)
  {
    hide Constraints, Keeps, AlbumPlan, Migrate, MergeTracks, MergeAlbums;
    var t, u, r := MigrateStages(s, rules);
    if a in r.albums {
      var i := RemainingAlbum(t, rules, a);
    }
  }

  // After the migration no two tracks and no two albums share a folded path.
  lemma FoldedPathsAreDistinct(s: Tables, rules: Rules)
    requires Constraints(s) && Migrate(s, rules).Some?
    ensures var r := Migrate(s, rules).value;
            && (forall x, y :: x in r.tracks && y in r.tracks ==>
                  FoldedTrack(r, rules, x) == FoldedTrack(r, rules, y) ==> x == y)
            && (forall a, b :: a in r.albums && b in r.albums ==>
                  FoldedAlbum(r, rules, a) == FoldedAlbum(r, rules, b) ==> a == b)
  {
    hide Constraints, Keeps, TrackPlan, AlbumPlan, Migrate, MergeTracks, MergeAlbums, FoldedTrack, FoldedAlbum, Key;
    var t, u, r := MigrateStages(s, rules);
    forall x, y | x in r.tracks && y in r.tracks && FoldedTrack(r, rules, x) == FoldedTrack(r, rules, y)
      ensures x == y
    {
      FinalTrack(s, rules, x);
      FinalTrack(s, rules, y);
      OneTrackPerPath(s, rules, x, y);
    }
    forall a, b | a in r.albums && b in r.albums && FoldedAlbum(r, rules, a) == FoldedAlbum(r, rules, b)
      ensures a == b
    {
      FinalAlbum(s, rules, a);
      FinalAlbum(s, rules, b);
      OneAlbumPerPath(t, rules, a, b);
    }
  }

  // A folding is coarser than NOCASE when paths that NOCASE identifies fold alike.
  ghost predicate CoarserThan(fold: string -> string, noCase: string -> string) {
    forall p, q :: noCase(p) == noCase(q) ==> fold(p) == fold(q)
  }

  // The NOCASE unique indexes built afterwards cannot fail.
  lemma UniqueIndexesCanBeBuilt(s: Tables, rules: Rules, noCase: string -> string)
    requires Constraints(s) && Migrate(s, rules).Some? && CoarserThan(rules.fold, noCase)
    ensures var r := Migrate(s, rules).value;
            && (forall x, y :: x in r.tracks && y in r.tracks && x != y ==>
                  noCase(r.tracks[x].relPath) != noCase(r.tracks[y].relPath))
            && (forall a, b :: a in r.albums && b in r.albums && a != b ==>
                  && noCase(r.albums[a].relPath) != noCase(r.albums[b].relPath)
                  && noCase(r.albums[a].directoryPath) != noCase(r.albums[b].directoryPath))
  {
    hide Constraints, Migrate;
    var r := Migrate(s, rules).value;
    FoldedPathsAreDistinct(s, rules);
    forall a | a in r.albums ensures r.albums[a].directoryPath == r.albums[a].relPath {
      FinalAlbum(s, rules, a);
    }
    forall x, y | x in r.tracks && y in r.tracks && x != y
      ensures noCase(r.tracks[x].relPath) != noCase(r.tracks[y].relPath)
    {
      assert FoldedTrack(r, rules, x) != FoldedTrack(r, rules, y);
    }
    forall a, b | a in r.albums && b in r.albums && a != b
      ensures noCase(r.albums[a].relPath) != noCase(r.albums[b].relPath)
    {
      assert FoldedAlbum(r, rules, a) != FoldedAlbum(r, rules, b);
    }
  }
}
