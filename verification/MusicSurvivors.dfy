// Which of several duplicates stays, read off the tables before the migration: the track that
// is available and newest, the album with the most tracks left; and with which rows.
module MusicSurvivors {
  import opened Text
  import opened Sequences
  import opened Ranking
  import opened Grouping
  import opened MusicTables
  import opened MusicKeeping
  import T = MusicTracks
  import TT = MusicTrackTheorems
  import opened MusicAlbums
  import A = MusicAlbumMerge
  import AT = MusicAlbumTheorems
  import opened MusicMigration
  import opened MusicGuarantees
  import opened MusicRerun
  import opened MusicRows
  import opened MusicArtistPositions

  // ---- Duplicate tracks ----

  function TrackPath(s: Tables, rules: Rules, x: int): Option<string>
    requires x in s.tracks
  {
    rules.trackPath(s.tracks[x].relPath, s.tracks[x].filePath)
  }

  // The normalised paths of two tracks, or of one with itself, fold alike.
  ghost predicate AreDuplicates(s: Tables, rules: Rules, y: int, z: int) {
    && y in s.tracks && z in s.tracks
    && TrackPath(s, rules, y).Some? && TrackPath(s, rules, z).Some?
    && rules.fold(TrackPath(s, rules, y).value) == rules.fold(TrackPath(s, rules, z).value)
  }

  // An available track comes before a missing one; then the later update decides, then the
  // larger id.
  ghost predicate Preferred(s: Tables, rules: Rules, y: int, z: int)
    requires y in s.tracks && z in s.tracks
  {
    var a, b := s.tracks[y], s.tracks[z];
    || (a.available && !b.available)
    || (a.available == b.available && rules.parse(a.updatedAt) > rules.parse(b.updatedAt))
    || (a.available == b.available && rules.parse(a.updatedAt) == rules.parse(b.updatedAt) && y > z)
  }

  lemma TrackKeyIs(s: Tables, rules: Rules, x: int)
    requires x in s.tracks && TrackPath(s, rules, x).Some?
    ensures TrackKey(s, rules)(x) == rules.fold(TrackPath(s, rules, x).value)
    ensures x in TrackPlan(s.tracks, rules).path
    ensures TrackPlan(s.tracks, rules).path[x] == TrackPath(s, rules, x).value
  {
  }

  lemma PreferredIff(s: Tables, rules: Rules, y: int, z: int)
    requires y in s.tracks && z in s.tracks
    ensures var rank := TrackPlan(s.tracks, rules).rank;
            y in rank && z in rank && (Compare(rank[y], rank[z]) < 0 <==> Preferred(s, rules, y, z))
  {
  }

  // The duplicates of z in order of preference, and the group they are.
  ghost predicate IsOrderOf(s: Tables, rules: Rules, z: int, order: seq<int>) {
    && order != []
    && (forall y :: y in order <==> AreDuplicates(s, rules, y, z))
    && (forall i :: 0 <= i < |order| ==> order[i] in s.tracks)
    && forall i, j :: 0 <= i < j < |order| ==> Preferred(s, rules, order[i], order[j])
  }

  lemma InGroupIff(s: Tables, rules: Rules, i: nat, y: int, z: int)
    requires TracksPortable(s.tracks, rules) && i < |TrackGroups(s.tracks, rules)|
    requires z in TrackGroups(s.tracks, rules)[i]
    ensures y in TrackGroups(s.tracks, rules)[i] <==> AreDuplicates(s, rules, y, z)
  {
    hide TrackGroups, Partition, TrackKey;
    var groups, key := TrackGroups(s.tracks, rules), TrackKey(s, rules);
    TrackGroupsPartition(s.tracks, rules);
    assert Partition(groups, s.tracks.Keys, key) by { SameFolding(s, rules); }
    MemberKey(groups, s.tracks.Keys, key, i, z);
    TrackKeyIs(s, rules, z);
    if y in s.tracks {
      TrackKeyIs(s, rules, y);
      PartitionCovers(groups, s.tracks.Keys, key, y);
      var j :| 0 <= j < |groups| && y in groups[j];
      MemberKey(groups, s.tracks.Keys, key, j, y);
      if key(y) == key(z) { SameKeySameGroup(groups, s.tracks.Keys, key, j, i, y, z); }
    }
    if y in groups[i] { MemberKey(groups, s.tracks.Keys, key, i, y); }
  }

  lemma SameFolding(s: Tables, rules: Rules)
    ensures TrackKey(s, rules) == Key(TrackPlan(s.tracks, rules).path, rules)
  {
  }

  lemma MemberKey(groups: seq<seq<int>>, ids: set<int>, key: int -> string, i: nat, x: int)
    requires Partition(groups, ids, key) && i < |groups| && x in groups[i]
    ensures x in ids && key(x) == key(groups[i][0])
  {
  }

  lemma GroupOfTrack(s: Tables, rules: Rules, z: int) returns (i: nat, order: seq<int>)
    requires TracksPortable(s.tracks, rules) && z in s.tracks
    ensures i < |TrackGroups(s.tracks, rules)| && z in TrackGroups(s.tracks, rules)[i]
    ensures T.GroupPlanned(TrackGroups(s.tracks, rules)[i], TrackPlan(s.tracks, rules))
    ensures order == Sort(TrackGroups(s.tracks, rules)[i], TrackPlan(s.tracks, rules).rank)
    ensures IsOrderOf(s, rules, z, order)
  {
    hide TrackGroups, Partition, TrackKey, Key, AreDuplicates, Preferred, Compare, Sort, TrackPlan, TracksPortable;
    var groups, plan := TrackGroups(s.tracks, rules), TrackPlan(s.tracks, rules);
    TrackGroupsPartition(s.tracks, rules);
    PartitionCovers(groups, s.tracks.Keys, Key(plan.path, rules), z);
    i :| 0 <= i < |groups| && z in groups[i];
    TrackGroupsReady(s, rules);
    assert T.GroupPlanned(groups[i], plan);
    order := Sort(groups[i], plan.rank);
    SameElements(order, groups[i]);
    SortSorts(groups[i], plan.rank);
    forall y ensures y in order <==> AreDuplicates(s, rules, y, z) { InGroupIff(s, rules, i, y, z); }
    forall k | 0 <= k < |order| ensures order[k] in s.tracks {
      DuplicatesAreTracks(s, rules, order[k], z);
    }
    forall k, l | 0 <= k < l < |order| ensures Preferred(s, rules, order[k], order[l]) {
      PreferredIff(s, rules, order[k], order[l]);
    }
  }

  lemma DuplicatesAreTracks(s: Tables, rules: Rules, y: int, z: int)
    requires AreDuplicates(s, rules, y, z)
    ensures y in s.tracks && z in s.tracks
  {
  }

  // ---- The track that stays ----

  // Of the duplicates exactly the first remains.
  lemma FirstOfOrderStays(s: Tables, rules: Rules, z: int) returns (order: seq<int>)
    requires Constraints(s) && Migrate(s, rules).Some? && z in s.tracks
    ensures IsOrderOf(s, rules, z, order)
    ensures var r := Migrate(s, rules).value;
            && (forall y :: y in order && y in r.tracks ==> y == order[0]) && order[0] in r.tracks
            && JoinsTables(s, r, order)
  {
    hide Constraints, Keeps, Migrate, MergeTracks, MergeAlbums, TrackGroups, TrackPlan, TrackKey, Partition, Sort,
         AreDuplicates, Preferred, JoinsTables, TT.Ready, CleanUp, TracksPortable;
    var t, u, r := MigrateStages(s, rules);
    var i;
    i, order := GroupOfTrack(s, rules, z);
    var groups, plan := TrackGroups(s.tracks, rules), TrackPlan(s.tracks, rules);
    SameElements(order, groups[i]);
    TT.BestIsFirst(groups[i], plan.rank);
    forall y | y in order && y in r.tracks ensures y == order[0] {
      assert y in t.tracks;
      var j := RemainingTrack(s, rules, y);
      OneGroupOnly(s, rules, i, j, y);
    }
    var y := SomeDuplicateRemains(s, rules, z);
    assert y in order;
    JoinsOfGroup(s, rules, i);
    SameRowsForUsers(s, t, r, order);
  }

  lemma OneGroupOnly(s: Tables, rules: Rules, i: nat, j: nat, x: int)
    requires i < |TrackGroups(s.tracks, rules)| && j < |TrackGroups(s.tracks, rules)|
    requires x in TrackGroups(s.tracks, rules)[i] && x in TrackGroups(s.tracks, rules)[j]
    ensures i == j
  {
    hide TrackGroups, Partition;
    TrackGroupsPartition(s.tracks, rules);
    SameKeySameGroup(TrackGroups(s.tracks, rules), s.tracks.Keys, Key(TrackPlan(s.tracks, rules).path, rules),
      i, j, x, x);
  }

  lemma SomeDuplicateRemains(s: Tables, rules: Rules, z: int) returns (y: int)
    requires Constraints(s) && Migrate(s, rules).Some? && z in s.tracks
    ensures y in Migrate(s, rules).value.tracks && AreDuplicates(s, rules, y, z)
  {
    hide Constraints, Migrate, HistoryKept, RowsKept, SessionsKept, TrackKey, TrackPlan;
    MigrationKeeps(s, rules);
    var r, key := Migrate(s, rules).value, TrackKey(s, rules);
    assert Represented(r.tracks, z, s.tracks[z].available, key);
    y :| y in r.tracks && key(y) == key(z);
    assert y in s.tracks;
    AllPathsArePortable(s, rules, y);
    AllPathsArePortable(s, rules, z);
    TrackKeyIs(s, rules, y);
    TrackKeyIs(s, rules, z);
  }

  lemma AllPathsArePortable(s: Tables, rules: Rules, x: int)
    requires Migrate(s, rules).Some? && x in s.tracks
    ensures TrackPath(s, rules, x).Some?
  {
  }

  lemma JoinsOfGroup(s: Tables, rules: Rules, i: nat)
    requires Constraints(s) && TracksPortable(s.tracks, rules) && MergeTracks(s, rules).Some?
    requires i < |TrackGroups(s.tracks, rules)|
    ensures T.GroupPlanned(TrackGroups(s.tracks, rules)[i], TrackPlan(s.tracks, rules))
    ensures var order := Sort(TrackGroups(s.tracks, rules)[i], TrackPlan(s.tracks, rules).rank);
            order != [] && JoinsTables(s, MergeTracks(s, rules).value, order)
  {
    hide Constraints, TrackGroups, TrackPlan, Sort, JoinsTables, TT.Ready, T.MergeGroups;
    TrackGroupsReady(s, rules);
    EveryGroupJoins(s, TrackGroups(s.tracks, rules), TrackPlan(s.tracks, rules), TrackKey(s, rules), i);
  }

  lemma SameRowsForUsers(s: Tables, t: Tables, r: Tables, order: seq<int>)
    requires order != [] && JoinsTables(s, t, order) && SameForUsers(t, r)
    ensures JoinsTables(s, r, order)
  {
    hide JoinsRows;
  }

  // Of every track's duplicates one stays: it is available if any is, of those the one updated
  // last, of those the one with the largest id. It takes its own normalised path and keeps its
  // other columns.
  lemma TheNewestTrackStays(s: Tables, rules: Rules, z: int) returns (y: int)
    requires Constraints(s) && Migrate(s, rules).Some? && z in s.tracks
    ensures y in Migrate(s, rules).value.tracks && AreDuplicates(s, rules, y, z)
    ensures forall x :: x in Migrate(s, rules).value.tracks && AreDuplicates(s, rules, x, z) ==> x == y
    ensures forall x :: AreDuplicates(s, rules, x, z) && x != y ==> Preferred(s, rules, y, x)
    ensures var row, path := Migrate(s, rules).value.tracks[y], TrackPath(s, rules, y).value;
            row == s.tracks[y].(album := row.album, filePath := path, relPath := path)
  {
    hide Constraints, Migrate, AreDuplicates, Preferred, JoinsTables;
    var order := FirstOfOrderStays(s, rules, z);
    y := order[0];
    assert y in order;
    forall x | AreDuplicates(s, rules, x, z) && x != y ensures Preferred(s, rules, y, x) {
      var j :| 0 <= j < |order| && order[j] == x;
    }
    FinalRow(s, rules, y);
  }

  lemma FinalRow(s: Tables, rules: Rules, y: int)
    requires Constraints(s) && Migrate(s, rules).Some? && y in Migrate(s, rules).value.tracks
    ensures y in s.tracks && TrackPath(s, rules, y).Some?
    ensures var row, path := Migrate(s, rules).value.tracks[y], TrackPath(s, rules, y).value;
            row == s.tracks[y].(album := row.album, filePath := path, relPath := path)
  {
    hide Constraints, Keeps, TrackPlan, Migrate, MergeTracks, TrackPath, TracksPortable;
    var t, u, r := MigrateStages(s, rules);
    var i := RemainingTrack(s, rules, y);
    AllPathsArePortable(s, rules, y);
    TrackKeyIs(s, rules, y);
  }

  // ---- The rows that stay ----

  // A favourite, or a place in a playlist, is kept from the most preferred duplicate that has
  // one.
  lemma PreferredRowsAreKept(s: Tables, rules: Rules, z: int) returns (order: seq<int>)
    requires Constraints(s) && Migrate(s, rules).Some? && z in s.tracks
    ensures IsOrderOf(s, rules, z, order) && order[0] in Migrate(s, rules).value.tracks
    ensures var r := Migrate(s, rules).value;
            && (forall p :: (order[0], p) in r.favorites <==> exists i :: Has(s.favorites, order, i, p))
            && (forall p, i :: IsFirst(s.favorites, order, i, p) ==>
                  (order[0], p) in r.favorites && r.favorites[(order[0], p)] == s.favorites[(order[i], p)])
    ensures var r := Migrate(s, rules).value;
            && (forall l :: (order[0], l) in r.playlistTracks <==> exists i :: Has(s.playlistTracks, order, i, l))
            && (forall l, i :: IsFirst(s.playlistTracks, order, i, l) ==>
                  && (order[0], l) in r.playlistTracks
                  && r.playlistTracks[(order[0], l)] == s.playlistTracks[(order[i], l)])
  {
    hide Constraints, Migrate, AreDuplicates, Preferred, Joined;
    order := FirstOfOrderStays(s, rules, z);
    var r := Migrate(s, rules).value;
    FirstRowsAreKept(s.favorites, r.favorites, order);
    FirstRowsAreKept(s.playlistTracks, r.playlistTracks, order);
  }

  lemma FirstRowsAreKept<X(!new), V>(rows: map<(int, X), V>, r: map<(int, X), V>, order: seq<int>)
    requires order != [] && JoinsRows(rows, r, order, KeepFirst)
    ensures forall x :: (order[0], x) in r <==> exists i :: Has(rows, order, i, x)
    ensures forall x, i :: IsFirst(rows, order, i, x) ==>
              (order[0], x) in r && r[(order[0], x)] == rows[(order[i], x)]
  {
    hide Joined;
    forall x
      ensures (order[0], x) in r <==> exists i :: Has(rows, order, i, x)
      ensures forall i :: IsFirst(rows, order, i, x) ==> Row(r, order[0], x) == Some(rows[(order[i], x)])
    {
      assert Row(r, order[0], x) == Joined(Row(rows, order[0], x), rows, order[1..], x, KeepFirst);
      FirstIsKept(rows, order, x);
    }
    forall x, i | IsFirst(rows, order, i, x) ensures (order[0], x) in r && r[(order[0], x)] == rows[(order[i], x)] {
      assert Row(r, order[0], x) == Some(rows[(order[i], x)]);
    }
  }

  // Position and duration come from the latest history row, last_played_at from the greatest;
  // where several are equal the least preferred duplicate decides.
  lemma LatestHistoryIsKept(s: Tables, rules: Rules, z: int) returns (order: seq<int>)
    requires Constraints(s) && Migrate(s, rules).Some? && z in s.tracks
    ensures IsOrderOf(s, rules, z, order) && order[0] in Migrate(s, rules).value.tracks
    ensures var r := Migrate(s, rules).value;
            && (forall p :: (order[0], p) in r.history <==> exists i :: Has(s.history, order, i, p))
            && (forall p :: (order[0], p) in r.history ==>
                  PointsInto(s.history, order, |order|, p, r.history[(order[0], p)]))
  {
    hide Constraints, Migrate, AreDuplicates, Preferred, Joined, MergeHistory, PointsInto;
    order := FirstOfOrderStays(s, rules, z);
    var r := Migrate(s, rules).value;
    assert JoinsRows(s.history, r.history, order, MergeHistory);
    forall p
      ensures (order[0], p) in r.history <==> exists i :: Has(s.history, order, i, p)
      ensures (order[0], p) in r.history ==>
          PointsInto(s.history, order, |order|, p, r.history[(order[0], p)])
    {
      assert Row(r.history, order[0], p)
          == Joined(Row(s.history, order[0], p), s.history, order[1..], p, MergeHistory);
      LastLatestIsKept(s.history, order, p);
    }
  }

  // ---- Duplicate albums ----

  function AlbumPath(s: Tables, rules: Rules, a: int): Option<string>
    requires a in s.albums
  {
    rules.albumPath(s.albums[a].relPath, s.albums[a].directoryPath)
  }

  ghost predicate AreSameAlbum(s: Tables, rules: Rules, a: int, b: int) {
    && a in s.albums && b in s.albums
    && AlbumPath(s, rules, a).Some? && AlbumPath(s, rules, b).Some?
    && rules.fold(AlbumPath(s, rules, a).value) == rules.fold(AlbumPath(s, rules, b).value)
  }

  // How many of the album's tracks remain.
  function TracksLeft(s: Tables, r: Tables, a: int): nat {
    |set t | t in r.tracks && t in s.tracks && s.tracks[t].album == a|
  }

  // The album with more tracks left comes first; then the later update decides, then the
  // larger id.
  ghost predicate PreferredAlbum(s: Tables, r: Tables, rules: Rules, a: int, b: int)
    requires a in s.albums && b in s.albums
  {
    || TracksLeft(s, r, a) > TracksLeft(s, r, b)
    || (TracksLeft(s, r, a) == TracksLeft(s, r, b)
        && (|| rules.parse(s.albums[a].updatedAt) > rules.parse(s.albums[b].updatedAt)
            || (rules.parse(s.albums[a].updatedAt) == rules.parse(s.albums[b].updatedAt) && a > b)))
  }

  ghost predicate IsAlbumOrderOf(s: Tables, r: Tables, rules: Rules, b: int, order: seq<int>) {
    && order != []
    && (forall a :: a in order <==> AreSameAlbum(s, rules, a, b))
    && (forall i :: 0 <= i < |order| ==> order[i] in s.albums)
    && forall i, j :: 0 <= i < j < |order| ==> PreferredAlbum(s, r, rules, order[i], order[j])
  }

  lemma AlbumKeyIs(s: Tables, rules: Rules, a: int)
    requires a in s.albums && AlbumPath(s, rules, a).Some?
    ensures AlbumKey(s, rules)(a) == rules.fold(AlbumPath(s, rules, a).value)
    ensures a in AlbumPlan(s.albums, rules).path
    ensures AlbumPlan(s.albums, rules).path[a] == AlbumPath(s, rules, a).value
  {
  }

  lemma InAlbumGroupIff(s: Tables, rules: Rules, i: nat, a: int, b: int)
    requires AlbumsPortable(s.albums, rules) && i < |AlbumGroups(s.albums, rules)|
    requires b in AlbumGroups(s.albums, rules)[i]
    ensures a in AlbumGroups(s.albums, rules)[i] <==> AreSameAlbum(s, rules, a, b)
  {
    hide AlbumGroups, Partition, AlbumKey;
    var groups, key := AlbumGroups(s.albums, rules), AlbumKey(s, rules);
    AlbumGroupsPartition(s.albums, rules);
    assert Partition(groups, s.albums.Keys, key) by { SameAlbumFolding(s, rules); }
    MemberKey(groups, s.albums.Keys, key, i, b);
    AlbumKeyIs(s, rules, b);
    if a in s.albums {
      AlbumKeyIs(s, rules, a);
      PartitionCovers(groups, s.albums.Keys, key, a);
      var j :| 0 <= j < |groups| && a in groups[j];
      MemberKey(groups, s.albums.Keys, key, j, a);
      if key(a) == key(b) { SameKeySameGroup(groups, s.albums.Keys, key, j, i, a, b); }
    }
    if a in groups[i] { MemberKey(groups, s.albums.Keys, key, i, a); }
  }

  lemma SameAlbumFolding(s: Tables, rules: Rules)
    ensures AlbumKey(s, rules) == Key(AlbumPlan(s.albums, rules).path, rules)
  {
  }

  // The tracks that are counted are those that remain.
  lemma StayingAreLeft(s: Tables, rules: Rules, a: int)
    requires Constraints(s) && Migrate(s, rules).Some?
    ensures TracksPortable(s.tracks, rules)
    ensures A.TrackCount(Staying(s, rules), a) == TracksLeft(s, Migrate(s, rules).value, a)
  {
    hide Constraints, Keeps, Migrate, MergeTracks, MergeAlbums, CleanUp, Staying, A.TrackCount, TracksLeft;
    var t, u, r := MigrateStages(s, rules);
    StayingTracksRemain(s, rules);
    StayingIsPart(s, rules);
    SameCount(s, r, Staying(s, rules), a);
  }

  lemma StayingIsPart(s: Tables, rules: Rules)
    requires TracksPortable(s.tracks, rules)
    ensures forall x :: x in Staying(s, rules) ==> x in s.tracks && Staying(s, rules)[x] == s.tracks[x]
  {
    hide TT.Loses, TracksPortable, TrackGroups, TrackPlan;
  }

  lemma SameCount(s: Tables, r: Tables, staying: map<int, Track>, a: int)
    requires staying.Keys == r.tracks.Keys && forall x :: x in staying ==> x in s.tracks && staying[x] == s.tracks[x]
    ensures A.TrackCount(staying, a) == TracksLeft(s, r, a)
  {
    forall x ensures x in staying <==> x in r.tracks { assert x in staying.Keys <==> x in r.tracks.Keys; }
    var left, counted := set t | t in r.tracks && t in s.tracks && s.tracks[t].album == a,
                         set t | t in staying && staying[t].album == a;
    forall x ensures x in left <==> x in counted {}
    assert left == counted;
  }

  lemma PreferredAlbumIff(s: Tables, rules: Rules, group: seq<int>, a: int, b: int)
    requires Constraints(s) && Migrate(s, rules).Some? && A.GroupPlanned(group, AlbumPlan(s.albums, rules))
    requires a in group && b in group && a in s.albums && b in s.albums
    ensures TracksPortable(s.tracks, rules)
    ensures var rank := A.RankAlbums(Staying(s, rules), group, AlbumPlan(s.albums, rules));
            a in rank && b in rank
            && (Compare(rank[a], rank[b]) < 0 <==> PreferredAlbum(s, Migrate(s, rules).value, rules, a, b))
  {
    hide Constraints, Migrate, Staying, A.TrackCount, TracksLeft;
    StayingAreLeft(s, rules, a);
    StayingAreLeft(s, rules, b);
    InGroup(group, AlbumPlan(s.albums, rules), a);
    InGroup(group, AlbumPlan(s.albums, rules), b);
  }

  lemma InGroup(group: seq<int>, plan: A.AlbumPlan, a: int)
    requires A.GroupPlanned(group, plan) && a in group
    ensures a in plan.path && a in plan.stamp
  {
  }

  lemma GroupOfAlbum(s: Tables, rules: Rules, b: int) returns (i: nat, order: seq<int>)
    requires Constraints(s) && Migrate(s, rules).Some? && b in s.albums
    ensures Portable(s, rules)
    ensures i < |AlbumGroups(s.albums, rules)| && b in AlbumGroups(s.albums, rules)[i]
    ensures A.GroupPlanned(AlbumGroups(s.albums, rules)[i], AlbumPlan(s.albums, rules))
    ensures order == A.SortAlbums(Staying(s, rules), AlbumGroups(s.albums, rules)[i], AlbumPlan(s.albums, rules))
    ensures IsAlbumOrderOf(s, Migrate(s, rules).value, rules, b, order)
  {
    hide Constraints, Migrate, AlbumGroups, AlbumPlan, Partition, Staying, AreSameAlbum, PreferredAlbum, Compare, Sort,
         A.RankAlbums, Key;
    PortableTables(s, rules);
    var groups, plan := AlbumGroups(s.albums, rules), AlbumPlan(s.albums, rules);
    AlbumGroupsPartition(s.albums, rules);
    PartitionCovers(groups, s.albums.Keys, Key(plan.path, rules), b);
    i :| 0 <= i < |groups| && b in groups[i];
    AlbumGroupsReady(s, s.albums, rules);
    assert A.GroupPlanned(groups[i], plan);
    var rank := A.RankAlbums(Staying(s, rules), groups[i], plan);
    order := A.SortAlbums(Staying(s, rules), groups[i], plan);
    SameElements(order, groups[i]);
    SortSorts(groups[i], rank);
    forall a ensures a in order <==> AreSameAlbum(s, rules, a, b) { InAlbumGroupIff(s, rules, i, a, b); }
    forall k | 0 <= k < |order| ensures order[k] in s.albums {
      SameAlbumsAreAlbums(s, rules, order[k], b);
    }
    forall k, l | 0 <= k < l < |order|
      ensures PreferredAlbum(s, Migrate(s, rules).value, rules, order[k], order[l])
    {
      PreferredAlbumIff(s, rules, groups[i], order[k], order[l]);
    }
  }

  lemma PortableTables(s: Tables, rules: Rules)
    requires Migrate(s, rules).Some?
    ensures Portable(s, rules)
  {
  }

  lemma SameAlbumsAreAlbums(s: Tables, rules: Rules, a: int, b: int)
    requires AreSameAlbum(s, rules, a, b)
    ensures a in s.albums && b in s.albums
  {
  }

  // Of every album's duplicates the fullest one stays, as just ordered, under its own
  // normalised path and without a cover. Its artists are those of all duplicates in that order,
  // each where it comes first, its own at their positions and the others behind them without a
  // gap; and it holds all remaining tracks of the duplicates.
  lemma TheFullestAlbumStays(s: Tables, rules: Rules, b: int) returns (order: seq<int>)
    requires Constraints(s) && Migrate(s, rules).Some? && b in s.albums
    ensures IsAlbumOrderOf(s, Migrate(s, rules).value, rules, b, order)
    ensures var r := Migrate(s, rules).value;
            && order[0] in r.albums && (forall a :: a in order && a in r.albums ==> a == order[0])
            && AlbumPath(s, rules, order[0]).Some?
            && var path := AlbumPath(s, rules, order[0]).value;
               r.albums[order[0]] == s.albums[order[0]].(directoryPath := path, relPath := path, cover := None)
    ensures var r := Migrate(s, rules).value;
            && ArtistList(r.albumArtists, order[0]) == FirstOccurrences(AT.ListsOf(s.albumArtists, order))
            && ArtistsFollow(s, r, order[0])
            && forall x :: x in r.tracks ==>
                 x in s.tracks && (s.tracks[x].album in order ==> r.tracks[x].album == order[0])
  {
    hide Constraints, Migrate, AlbumGroups, AlbumPlan, A.SortAlbums, ArtistList, FirstOccurrences, AT.ListsOf, Staying,
         AreSameAlbum, PreferredAlbum, AlbumKey, AT.Renewed, AlbumsPortable, ArtistsFollow;
    var i;
    i, order := GroupOfAlbum(s, rules, b);
    AlbumsAreMerged(s, rules, i);
    ArtistsOfGroup(s, rules, i);
    var group := AlbumGroups(s.albums, rules)[i];
    SameElements(order, group);
    assert order[0] in group;
    forall a | a in order ensures a in group {}
    FinalAlbum(s, rules, order[0]);
    FinalAlbumRow(s, rules, order[0]);
  }

  lemma ArtistsOfGroup(s: Tables, rules: Rules, i: nat)
    requires Constraints(s) && Migrate(s, rules).Some?
    ensures Portable(s, rules) && A.Planned(AlbumGroups(s.albums, rules), AlbumPlan(s.albums, rules))
    ensures i < |AlbumGroups(s.albums, rules)| ==>
              var group, plan := AlbumGroups(s.albums, rules)[i], AlbumPlan(s.albums, rules);
              var sorted := A.SortAlbums(Staying(s, rules), group, plan);
              ArtistsFollow(s, Migrate(s, rules).value, sorted[0])
  {
    hide Constraints, Keeps, AlbumGroups, AlbumPlan, MergeTracks, A.SortAlbums, ArtistList, Staying, SameAlbums,
         Follows, A.MergeGroups, AT.Ready, AT.KeepsAlbums;
    var t, u, r := MigrateStages(s, rules);
    AlbumGroupsReady(t, s.albums, rules);
    StayingTracksRemain(s, rules);
    var groups, plan := AlbumGroups(s.albums, rules), AlbumPlan(s.albums, rules);
    if i < |groups| {
      EveryGroupFollows(t, groups, plan, Key(plan.path, rules), i);
      SameAlbumsSameOrder(t.tracks, Staying(s, rules), groups[i], plan);
    }
  }

  lemma FinalAlbumRow(s: Tables, rules: Rules, a: int)
    requires Portable(s, rules) && a in s.albums && a in AlbumPlan(s.albums, rules).path
    ensures AlbumPath(s, rules, a).Some?
    ensures var path := AlbumPath(s, rules, a).value;
            AT.Renewed(s.albums[a], AlbumPlan(s.albums, rules).path[a])
            == s.albums[a].(directoryPath := path, relPath := path, cover := None)
  {
  }

  // ---- First occurrences ----

  // The elements of the first n places, each once, in the order of their first places
  ghost predicate AreFirsts(l: seq<int>, n: nat, r: seq<int>)
    requires n <= |l|
  {
    && Distinct(r) && (forall x :: x in r <==> x in l[..n])
    && forall i, j :: 0 <= i < j < |r| ==> FirstIndex(l, r[i]) < FirstIndex(l, r[j])
  }

  lemma FirstOccurrencesAre(l: seq<int>)
    ensures AreFirsts(l, |l|, FirstOccurrences(l)) && l[..|l|] == l
  {
    assert l[..0] == [] && l[0..] == l;
    FirstSoFar(l, [], 0);
  }

  lemma AppendNewStep(l: seq<int>, more: seq<int>)
    requires more != []
    ensures AppendNew(l, more) == AppendNew(if more[0] in l then l else l + [more[0]], more[1..])
  {
  }

  lemma OneMoreFirst(l: seq<int>, r: seq<int>, n: nat)
    requires n < |l| && AreFirsts(l, n, r)
    ensures AreFirsts(l, n + 1, if l[n] in r then r else r + [l[n]])
  {
    hide FirstIndex;
    var y: int := l[n];
    forall x ensures x in l[..n + 1] <==> x in l[..n] || x == y { OneMoreElement(l, n, x); }
    if y !in r {
      NewIsFirst(l, n);
      forall i | 0 <= i < |r| ensures FirstIndex(l, r[i]) < n {
        var x: int := r[i];
        assert x in r && x in l[..n];
        EarlierIsFirst(l, n, x);
      }
    }
  }

  lemma OneMoreElement(l: seq<int>, n: nat, x: int)
    requires n < |l|
    ensures x in l[..n + 1] <==> x in l[..n] || x == l[n]
  {
    assert l[..n + 1] == l[..n] + [l[n]];
  }

  lemma EarlierIsFirst(l: seq<int>, n: nat, x: int)
    requires n <= |l| && x in l[..n]
    ensures FirstIndex(l, x) < n
  {
    var i :| 0 <= i < n && l[i] == x;
  }

  lemma NewIsFirst(l: seq<int>, n: nat)
    requires n < |l| && l[n] !in l[..n]
    ensures FirstIndex(l, l[n]) == n
  {
    forall i | 0 <= i < n ensures l[i] != l[n] { assert l[..n][i] == l[i]; }
    FirstIndexIs(l, l[n], n);
  }

  lemma {:induction false} FirstSoFar(l: seq<int>, r: seq<int>, n: nat)
    requires n <= |l| && AreFirsts(l, n, r)
    ensures AreFirsts(l, |l|, AppendNew(r, l[n..]))
    decreases |l| - n
  {
    hide AreFirsts;
    if n < |l| {
      assert l[n..][0] == l[n] && l[n..][1..] == l[n + 1..];
      AppendNewStep(r, l[n..]);
      OneMoreFirst(l, r, n);
      FirstSoFar(l, if l[n] in r then r else r + [l[n]], n + 1);
    }
  }
}
