// What folding album groups keeps, the artist list each survivor ends with, and when the
// fold goes through.
module MusicAlbumTheorems {
  import opened Text
  import opened Sequences
  import opened Ranking
  import opened Grouping
  import opened PathClash
  import opened MusicTables
  import opened MusicKeeping
  import opened MusicAlbums
  import opened MusicAlbumMerge

  ghost predicate SameUserData(s: Tables, r: Tables) {
    && r.favorites == s.favorites && r.history == s.history && r.playlistTracks == s.playlistTracks
    && r.sessions == s.sessions && r.trackArtists == s.trackArtists && r.playlists == s.playlists
    && r.artists == s.artists
  }

  // Tracks change only their album, to one with the same folded path; the set of
  // (folded album path, artist) links is unchanged.
  ghost predicate KeepsAlbums(s: Tables, r: Tables, key: Folding) {
    && SameUserData(s, r)
    && r.tracks.Keys == s.tracks.Keys
    && (forall t :: t in s.tracks ==>
          r.tracks[t] == s.tracks[t].(album := r.tracks[t].album) && key(r.tracks[t].album) == key(s.tracks[t].album))
    && r.albums.Keys <= s.albums.Keys
    && (forall a :: a in r.albums ==>
          r.albums[a].other == s.albums[a].other && r.albums[a].updatedAt == s.albums[a].updatedAt)
    && Folded(r.albumArtists.Keys, key) == Folded(s.albumArtists.Keys, key)
  }

  lemma KeepsAlbumsTransitive(a: Tables, b: Tables, c: Tables, key: Folding)
    requires KeepsAlbums(a, b, key) && KeepsAlbums(b, c, key)
    ensures KeepsAlbums(a, c, key)
  {
  }

  // ---- Artist rows of one album ----

  ghost predicate SameRows(rows: map<(int, int), nat>, r: map<(int, int), nat>, album: int) {
    && RowsOf(r, album) == RowsOf(rows, album)
    && forall a :: a in RowsOf(rows, album) ==> r[(album, a)] == rows[(album, a)]
  }

  lemma SameRowsSameArtistList(rows: map<(int, int), nat>, r: map<(int, int), nat>, album: int)
    requires OneArtistPerPosition(rows) && OneArtistPerPosition(r) && SameRows(rows, r, album)
    ensures ArtistList(r, album) == ArtistList(rows, album)
  {
    SameRowsSameList(rows, r, album, ArtistList(rows, album));
    ListIsUnique(r, album, RowsOf(r, album), ArtistList(r, album), ArtistList(rows, album));
  }

  // The artist lists of several albums, one after the other.
  ghost function ListsOf(rows: map<(int, int), nat>, albums: seq<int>): seq<int> {
    if albums == [] then [] else ArtistList(rows, albums[0]) + ListsOf(rows, albums[1..])
  }

  lemma {:induction false} SameRowsSameLists(rows: map<(int, int), nat>, r: map<(int, int), nat>, albums: seq<int>)
    requires OneArtistPerPosition(rows) && OneArtistPerPosition(r)
    requires forall i :: 0 <= i < |albums| ==> SameRows(rows, r, albums[i])
    ensures ListsOf(r, albums) == ListsOf(rows, albums)
  {
    hide SameRows, OneArtistPerPosition;
    if albums != [] {
      SameRowsSameArtistList(rows, r, albums[0]);
      forall i | 0 <= i < |albums[1..]|
        ensures SameRows(rows, r, albums[1..][i])
      {
        assert SameRows(rows, r, albums[i + 1]);
      }
      SameRowsSameLists(rows, r, albums[1..]);
    }
  }

  lemma WithoutFrame(rows: map<(int, int), nat>, owner: int, album: int)
    requires owner != album
    ensures SameRows(rows, Without(rows, owner), album)
  {
    assert RowsOf(Without(rows, owner), album) == RowsOf(rows, album);
  }

  lemma {:induction false} AddArtistsKeys(rows: map<(int, int), nat>, album: int, l: seq<int>)
    ensures AddArtists(rows, album, l).Keys == rows.Keys + set a | a in l :: (album, a)
    decreases |l|
  {
    if l != [] {
      AddArtistsKeys(AddArtist(rows, album, l[0]), album, l[1..]);
      assert l == [l[0]] + l[1..];
      assert AddArtist(rows, album, l[0]).Keys == rows.Keys + {(album, l[0])};
    }
  }

  // ---- One loser ----

  lemma LinksAreKept(rows: map<(int, int), nat>, survivor: int, loser: int, key: Folding)
    requires OneArtistPerPosition(rows) && survivor != loser && key(survivor) == key(loser)
    ensures Folded(Without(AddArtists(rows, survivor, ArtistList(rows, loser)), loser).Keys, key)
        == Folded(rows.Keys, key)
  {
    var l := ArtistList(rows, loser);
    AddArtistsKeys(rows, survivor, l);
    var r := Without(AddArtists(rows, survivor, l), loser);
    forall c | c in Folded(rows.Keys, key) ensures c in Folded(r.Keys, key) {
      var k :| k in rows.Keys && c == (key(k.0), k.1);
      if k.0 == loser {
        var a: int := k.1;
        assert a in RowsOf(rows, loser) && a in l;
        assert (survivor, a) in r.Keys;
      } else {
        assert k in r.Keys;
      }
    }
    forall c | c in Folded(r.Keys, key) ensures c in Folded(rows.Keys, key) {
      var k :| k in r.Keys && c == (key(k.0), k.1);
      if k !in rows {
        var a: int := k.1;
        assert a in l && k == (survivor, a);
        var i :| 0 <= i < |l| && l[i] == a;
        assert (loser, a) in rows.Keys;
      }
    }
  }

  lemma MergeAlbumKeeps(s: Tables, survivor: int, loser: int, key: Folding)
    requires Constraints(s) && survivor in s.albums && survivor != loser && key(survivor) == key(loser)
    ensures var r := MergeAlbum(s, survivor, loser);
            && Constraints(r) && KeepsAlbums(s, r, key)
            && r.albums == s.albums - {loser}
            && r.tracks == ReassignTracks(s.tracks, survivor, loser)
            && (forall a :: a != survivor && a != loser ==> SameRows(s.albumArtists, r.albumArtists, a))
            && ArtistList(r.albumArtists, survivor)
               == AppendNew(ArtistList(s.albumArtists, survivor), ArtistList(s.albumArtists, loser))
  {
    var r := MergeAlbum(s, survivor, loser);
    EveryAlbumStatementIsAccepted(s, survivor, loser);
    LinksAreKept(s.albumArtists, survivor, loser, key);
    var own, more := ArtistList(s.albumArtists, survivor), ArtistList(s.albumArtists, loser);
    var added := AddArtists(s.albumArtists, survivor, more);
    AddArtistsAppends(s.albumArtists, survivor, own, more);
    WithoutFrame(added, loser, survivor);
    SameRowsSameList(added, r.albumArtists, survivor, AppendNew(own, more));
    ListIsUnique(r.albumArtists, survivor, RowsOf(r.albumArtists, survivor), ArtistList(r.albumArtists, survivor),
      AppendNew(own, more));
    forall a | a != survivor && a != loser ensures SameRows(s.albumArtists, r.albumArtists, a) {
      AddArtistsFrame(s.albumArtists, survivor, more, a);
      WithoutFrame(added, loser, a);
    }
  }

  // ---- All losers of a group ----

  ghost predicate Foldable(s: Tables, survivor: int, losers: seq<int>, key: Folding) {
    && survivor in s.albums && survivor !in losers && Distinct(losers)
    && forall k :: 0 <= k < |losers| ==> losers[k] in s.albums && key(losers[k]) == key(survivor)
  }

  ghost function MovedTracks(tracks: map<int, Track>, survivor: int, losers: set<int>): map<int, Track> {
    map t | t in tracks :: if tracks[t].album in losers then tracks[t].(album := survivor) else tracks[t]
  }

  lemma FoldableTail(s: Tables, survivor: int, losers: seq<int>, key: Folding)
    requires Constraints(s) && Foldable(s, survivor, losers, key) && losers != []
    ensures var t := MergeAlbum(s, survivor, losers[0]);
            Constraints(t) && KeepsAlbums(s, t, key) && Foldable(t, survivor, losers[1..], key)
    ensures AsSet(losers) == {losers[0]} + AsSet(losers[1..])
  {
    hide Constraints, KeepsAlbums, MergeAlbum;
    MergeAlbumKeeps(s, survivor, losers[0], key);
    assert losers == [losers[0]] + losers[1..];
  }

  lemma {:induction false} MergeAlbumsKeeps(s: Tables, survivor: int, losers: seq<int>, key: Folding)
    requires Constraints(s) && Foldable(s, survivor, losers, key)
    ensures var r := MergeAlbums(s, survivor, losers);
            && Constraints(r) && KeepsAlbums(s, r, key)
            && r.albums == s.albums - AsSet(losers)
            && r.tracks == MovedTracks(s.tracks, survivor, AsSet(losers))
    decreases |losers|
  {
    hide Constraints, KeepsAlbums, MergeAlbum, SameRows;
    if losers == [] {
      KeepsAlbumsItself(s, key);
      assert s.tracks == MovedTracks(s.tracks, survivor, AsSet([]));
    } else {
      var t := MergeAlbum(s, survivor, losers[0]);
      FoldableTail(s, survivor, losers, key);
      MergeAlbumKeeps(s, survivor, losers[0], key);
      MergeAlbumsKeeps(t, survivor, losers[1..], key);
      KeepsAlbumsTransitive(s, t, MergeAlbums(t, survivor, losers[1..]), key);
    }
  }

  lemma {:induction false} MergeAlbumsArtists(s: Tables, survivor: int, losers: seq<int>, key: Folding)
    requires Constraints(s) && Foldable(s, survivor, losers, key)
    ensures var r := MergeAlbums(s, survivor, losers);
            && (forall a :: a != survivor && a !in losers ==> SameRows(s.albumArtists, r.albumArtists, a))
            && ArtistList(r.albumArtists, survivor)
               == AppendNew(ArtistList(s.albumArtists, survivor), ListsOf(s.albumArtists, losers))
    decreases |losers|
  {
    hide Constraints, KeepsAlbums, MergeAlbum, SameRows, ArtistList;
    if losers == [] {
      KeepsAlbumsItself(s, key);
    } else {
      var t, rest := MergeAlbum(s, survivor, losers[0]), losers[1..];
      MergeAlbumKeeps(s, survivor, losers[0], key);
      FoldableTail(s, survivor, losers, key);
      MergeAlbumsArtists(t, survivor, rest, key);
      ConstraintsPositions(s);
      ConstraintsPositions(t);
      SameRowsSameLists(s.albumArtists, t.albumArtists, rest);
      AppendNewConcat(ArtistList(s.albumArtists, survivor), ArtistList(s.albumArtists, losers[0]),
        ListsOf(s.albumArtists, rest));
      forall a | a != survivor && a !in losers
        ensures SameRows(s.albumArtists, MergeAlbums(t, survivor, rest).albumArtists, a)
      {
        SameRowsTransitive(s.albumArtists, t.albumArtists, MergeAlbums(t, survivor, rest).albumArtists, a);
      }
    }
  }

  lemma KeepsAlbumsItself(s: Tables, key: Folding)
    ensures KeepsAlbums(s, s, key)
    ensures forall a :: SameRows(s.albumArtists, s.albumArtists, a)
  {
  }

  lemma ConstraintsPositions(s: Tables)
    requires Constraints(s)
    ensures OneArtistPerPosition(s.albumArtists)
  {
  }

  lemma SameRowsTransitive(a: map<(int, int), nat>, b: map<(int, int), nat>, c: map<(int, int), nat>, album: int)
    requires SameRows(a, b, album) && SameRows(b, c, album)
    ensures SameRows(a, c, album)
  {
  }

  // ---- One group ----

  ghost predicate GroupReady(s: Tables, group: seq<int>, plan: AlbumPlan, key: Folding) {
    && GroupPlanned(group, plan)
    && forall k :: 0 <= k < |group| ==> group[k] in s.albums && key(group[k]) == key(group[0])
  }

  lemma SortedGroupIsFoldable(s: Tables, group: seq<int>, plan: AlbumPlan, key: Folding)
    requires GroupReady(s, group, plan, key)
    ensures var sorted := SortAlbums(s.tracks, group, plan); Foldable(s, sorted[0], sorted[1..], key)
  {
    var sorted := SortAlbums(s.tracks, group, plan);
    SameElements(sorted, group);
    forall k | 0 <= k < |sorted| ensures sorted[k] in s.albums && key(sorted[k]) == key(group[0]) {
      var i :| 0 <= i < |group| && group[i] == sorted[k];
    }
  }

  ghost function Renewed(row: Album, path: string): Album {
    row.(directoryPath := path, relPath := path, cover := None)
  }

  lemma SetAlbumPathKeeps(s: Tables, album: int, path: string, key: Folding)
    requires album in s.albums
    ensures KeepsAlbums(s, SetAlbumPath(s, album, path), key)
  {
  }

  lemma MergeGroupKeeps(s: Tables, group: seq<int>, plan: AlbumPlan, key: Folding)
    requires Constraints(s) && GroupReady(s, group, plan, key)
    ensures var b := SortAlbums(s.tracks, group, plan)[0]; var p := plan.path[b];
            && b in s.albums
            && (MergeGroup(s, group, plan).Some? <==>
                 forall u :: u in s.albums && u !in group ==> s.albums[u].directoryPath != p)
            && (MergeGroup(s, group, plan).Some? ==>
                 var r := MergeGroup(s, group, plan).value;
                 && Constraints(r) && KeepsAlbums(s, r, key)
                 && r.albums == (s.albums - (AsSet(group) - {b}))[b := Renewed(s.albums[b], p)]
                 && r.tracks == MovedTracks(s.tracks, b, AsSet(group)))
  {
    hide Constraints, KeepsAlbums, MergeAlbums;
    var sorted := SortAlbums(s.tracks, group, plan);
    var b := sorted[0];
    SortedGroupIsFoldable(s, group, plan, key);
    MergeAlbumsKeeps(s, b, sorted[1..], key);
    var merged := MergeAlbums(s, b, sorted[1..]);
    assert forall u :: u in merged.albums && u != b <==> u in s.albums && u !in group;
    assert merged.tracks == MovedTracks(s.tracks, b, AsSet(group)) by {
      MovedTracksIgnoresTarget(s.tracks, b, AsSet(sorted[1..]), AsSet(group));
    }
    if DirectoryIsFree(merged.albums, b, plan.path[b]) {
      SetAlbumPathKeepsConstraints(merged, b, plan.path[b]);
      SetAlbumPathKeeps(merged, b, plan.path[b], key);
      KeepsAlbumsTransitive(s, merged, SetAlbumPath(merged, b, plan.path[b]), key);
    }
  }

  lemma MovedTracksIgnoresTarget(tracks: map<int, Track>, b: int, losers: set<int>, group: set<int>)
    requires losers == group - {b}
    ensures MovedTracks(tracks, b, losers) == MovedTracks(tracks, b, group)
  {
    forall t | t in tracks && tracks[t].album == b ensures tracks[t].(album := b) == tracks[t] {}
    var l, g := MovedTracks(tracks, b, losers), MovedTracks(tracks, b, group);
    forall t | t in tracks ensures l[t] == g[t] {}
  }

  // The survivor's artists are its own followed by the losers' new ones, in group order.
  lemma MergeGroupArtists(s: Tables, group: seq<int>, plan: AlbumPlan, key: Folding)
    requires Constraints(s) && GroupReady(s, group, plan, key) && MergeGroup(s, group, plan).Some?
    ensures var sorted := SortAlbums(s.tracks, group, plan); var r := MergeGroup(s, group, plan).value;
            && ArtistList(r.albumArtists, sorted[0]) == FirstOccurrences(ListsOf(s.albumArtists, sorted))
            && (forall a :: a !in group ==> SameRows(s.albumArtists, r.albumArtists, a))
  {
    hide Constraints, KeepsAlbums, MergeAlbums, SameRows, AppendNew;
    var sorted := SortAlbums(s.tracks, group, plan);
    SortedGroupIsFoldable(s, group, plan, key);
    MergeAlbumsArtists(s, sorted[0], sorted[1..], key);
    var own := ArtistList(s.albumArtists, sorted[0]);
    ConstraintsPositions(s);
    ListIsDistinct(s.albumArtists, sorted[0], own);
    AppendNewIsFirstOccurrences(own, ListsOf(s.albumArtists, sorted[1..]));
    SameElements(sorted, group);
    assert sorted == [sorted[0]] + sorted[1..];
  }

  lemma ListIsDistinct(rows: map<(int, int), nat>, album: int, l: seq<int>)
    requires IsArtistList(rows, album, l)
    ensures Distinct(l)
  {
  }

  // ---- All groups ----

  ghost predicate Ready(s: Tables, groups: seq<seq<int>>, plan: AlbumPlan, key: Folding) {
    && (forall i :: 0 <= i < |groups| ==> GroupReady(s, groups[i], plan, key))
    && (forall i, j :: 0 <= i < j < |groups| ==> key(groups[i][0]) != key(groups[j][0]))
  }

  lemma ReadyIsPlanned(s: Tables, groups: seq<seq<int>>, plan: AlbumPlan, key: Folding)
    requires Ready(s, groups, plan, key)
    ensures Planned(groups, plan)
  {
    forall i | 0 <= i < |groups| ensures GroupPlanned(groups[i], plan) {
      assert GroupReady(s, groups[i], plan, key);
    }
  }

  lemma GroupsAreDisjoint(s: Tables, groups: seq<seq<int>>, plan: AlbumPlan, key: Folding, i: int, j: int)
    requires Ready(s, groups, plan, key) && 0 <= i < j < |groups|
    ensures forall x :: x in groups[i] ==> x !in groups[j]
  {
    assert GroupReady(s, groups[i], plan, key) && GroupReady(s, groups[j], plan, key);
    forall x | x in groups[i] ensures x !in groups[j] {
      var k :| 0 <= k < |groups[i]| && groups[i][k] == x;
    }
  }

  lemma RestIsReady(s: Tables, groups: seq<seq<int>>, plan: AlbumPlan, key: Folding, r: Tables)
    requires groups != [] && Ready(s, groups, plan, key)
    requires r.albums.Keys >= s.albums.Keys - AsSet(groups[0])
    ensures Ready(r, groups[1..], plan, key)
  {
    forall i | 0 <= i < |groups[1..]| ensures GroupReady(r, groups[1..][i], plan, key) {
      var g := groups[i + 1];
      assert GroupReady(s, g, plan, key);
      GroupsAreDisjoint(s, groups, plan, key, 0, i + 1);
      forall k | 0 <= k < |g| ensures g[k] in r.albums {
        assert g[k] !in groups[0];
      }
    }
  }

  lemma {:induction false} MergeGroupsKeeps(s: Tables, groups: seq<seq<int>>, plan: AlbumPlan, key: Folding)
    requires Constraints(s) && Ready(s, groups, plan, key) && Planned(groups, plan)
    ensures MergeGroups(s, groups, plan).Some? ==>
              var r := MergeGroups(s, groups, plan).value; Constraints(r) && KeepsAlbums(s, r, key)
    decreases |groups|
  {
    hide Constraints, KeepsAlbums, MergeGroup;
    if groups == [] {
      KeepsAlbumsItself(s, key);
    } else {
      assert GroupReady(s, groups[0], plan, key);
      MergeGroupKeeps(s, groups[0], plan, key);
      if MergeGroup(s, groups[0], plan).Some? {
        var t := MergeGroup(s, groups[0], plan).value;
        RestIsReady(s, groups, plan, key, t);
        MergeGroupsKeeps(t, groups[1..], plan, key);
        if MergeGroups(t, groups[1..], plan).Some? {
          KeepsAlbumsTransitive(s, t, MergeGroups(t, groups[1..], plan).value, key);
        }
      }
    }
  }

  // Nothing of an album outside every group is touched.
  ghost predicate Untouched(s: Tables, r: Tables, album: int) {
    && SameRows(s.albumArtists, r.albumArtists, album)
    && (album in s.albums <==> album in r.albums)
    && (album in s.albums ==> r.albums[album] == s.albums[album])
    && r.tracks.Keys == s.tracks.Keys
    && (forall t :: t in s.tracks ==> (s.tracks[t].album == album <==> r.tracks[t].album == album))
  }

  ghost predicate InNone(groups: seq<seq<int>>, album: int) {
    forall i :: 0 <= i < |groups| ==> album !in groups[i]
  }

  lemma MergeGroupUntouched(s: Tables, group: seq<int>, plan: AlbumPlan, key: Folding, album: int)
    requires Constraints(s) && GroupReady(s, group, plan, key) && MergeGroup(s, group, plan).Some? && album !in group
    ensures Untouched(s, MergeGroup(s, group, plan).value, album)
  {
    hide Constraints, KeepsAlbums, MergeGroup;
    MergeGroupKeeps(s, group, plan, key);
    MergeGroupArtists(s, group, plan, key);
  }

  lemma {:induction false} OutsidersAreUntouched(s: Tables, groups: seq<seq<int>>, plan: AlbumPlan, key: Folding,
                                                 album: int)
    requires Constraints(s) && Ready(s, groups, plan, key) && Planned(groups, plan)
    requires MergeGroups(s, groups, plan).Some? && InNone(groups, album)
    ensures Untouched(s, MergeGroups(s, groups, plan).value, album)
    decreases |groups|
  {
    hide Constraints, KeepsAlbums, MergeGroup;
    if groups != [] {
      assert GroupReady(s, groups[0], plan, key);
      MergeGroupKeeps(s, groups[0], plan, key);
      MergeGroupUntouched(s, groups[0], plan, key, album);
      var t := MergeGroup(s, groups[0], plan).value;
      RestIsReady(s, groups, plan, key, t);
      OutsidersAreUntouched(t, groups[1..], plan, key, album);
    }
  }

  lemma SameCountsSameOrder(s: Tables, t: Tables, group: seq<int>, plan: AlbumPlan)
    requires GroupPlanned(group, plan) && forall a :: a in group ==> Untouched(s, t, a)
    ensures SortAlbums(t.tracks, group, plan) == SortAlbums(s.tracks, group, plan)
  {
    forall a | a in group ensures TrackCount(t.tracks, a) == TrackCount(s.tracks, a) {
      assert Untouched(s, t, a);
      forall x ensures x in t.tracks && t.tracks[x].album == a <==> x in s.tracks && s.tracks[x].album == a {}
      assert (set x | x in t.tracks && t.tracks[x].album == a) == (set x | x in s.tracks && s.tracks[x].album == a);
    }
    assert RankAlbums(t.tracks, group, plan) == RankAlbums(s.tracks, group, plan);
  }

  // What becomes of group i: one album remains, with the group's artists in order of first
  // appearance, its new path, and every track of the group.
  ghost predicate GroupOutcome(s: Tables, r: Tables, group: seq<int>, plan: AlbumPlan)
    requires GroupPlanned(group, plan)
  {
    var sorted := SortAlbums(s.tracks, group, plan); var b := sorted[0];
    && (forall a :: a in group ==> (a in r.albums <==> a == b))
    && b in s.albums && b in r.albums && b in plan.path && r.albums[b] == Renewed(s.albums[b], plan.path[b])
    && ArtistList(r.albumArtists, b) == FirstOccurrences(ListsOf(s.albumArtists, sorted))
    && r.tracks.Keys == s.tracks.Keys
    && (forall t :: t in s.tracks && s.tracks[t].album in group ==> r.tracks[t].album == b)
  }

  // The other groups leave the albums of the first one as its own merge left them.
  lemma FirstGroupIsFinal(s: Tables, groups: seq<seq<int>>, plan: AlbumPlan, key: Folding, a: int)
    requires Constraints(s) && Ready(s, groups, plan, key) && Planned(groups, plan)
    requires groups != [] && a in groups[0] && MergeGroups(s, groups, plan).Some?
    ensures var t := MergeGroup(s, groups[0], plan).value; var r := MergeGroups(s, groups, plan).value;
            && Untouched(t, r, a)
            && ArtistList(r.albumArtists, a) == ArtistList(t.albumArtists, a)
  {
    hide Constraints, KeepsAlbums, MergeGroup, ArtistList, Untouched, SortAlbums;
    assert GroupReady(s, groups[0], plan, key);
    MergeGroupKeeps(s, groups[0], plan, key);
    var t, r := MergeGroup(s, groups[0], plan).value, MergeGroups(s, groups, plan).value;
    RestIsReady(s, groups, plan, key, t);
    forall i | 0 <= i < |groups[1..]|
      ensures a !in groups[1..][i]
    {
      GroupsAreDisjoint(s, groups, plan, key, 0, i + 1);
    }
    OutsidersAreUntouched(t, groups[1..], plan, key, a);
    MergeGroupsKeeps(t, groups[1..], plan, key);
    ConstraintsPositions(t);
    ConstraintsPositions(r);
    UntouchedRows(t, r, a);
    SameRowsSameArtistList(t.albumArtists, r.albumArtists, a);
  }

  lemma UntouchedRows(s: Tables, r: Tables, album: int)
    requires Untouched(s, r, album)
    ensures SameRows(s.albumArtists, r.albumArtists, album)
  {
  }

  lemma FirstGroupOutcome(s: Tables, groups: seq<seq<int>>, plan: AlbumPlan, key: Folding)
    requires Constraints(s) && Ready(s, groups, plan, key) && Planned(groups, plan)
    requires groups != [] && MergeGroups(s, groups, plan).Some?
    ensures GroupOutcome(s, MergeGroups(s, groups, plan).value, groups[0], plan)
  {
    hide Constraints, KeepsAlbums, MergeGroup, MergeGroups, ArtistList, ListsOf, FirstOccurrences, SameRows,
         SortAlbums, Ready;
    var g := groups[0];
    assert GroupReady(s, g, plan, key) by { ReadyHead(s, groups, plan, key); }
    MergeGroupKeeps(s, g, plan, key);
    MergedGroupExists(s, groups, plan);
    MergeGroupArtists(s, g, plan, key);
    var t, r := MergeGroup(s, g, plan).value, MergeGroups(s, groups, plan).value;
    forall a | a in g ensures Untouched(t, r, a) && ArtistList(r.albumArtists, a) == ArtistList(t.albumArtists, a) {
      FirstGroupIsFinal(s, groups, plan, key, a);
    }
    var b := SortAlbums(s.tracks, g, plan)[0];
    assert b in g && Untouched(t, r, b);
  }

  lemma ReadyHead(s: Tables, groups: seq<seq<int>>, plan: AlbumPlan, key: Folding)
    requires Ready(s, groups, plan, key) && groups != []
    ensures GroupReady(s, groups[0], plan, key)
  {
  }

  lemma MergedGroupExists(s: Tables, groups: seq<seq<int>>, plan: AlbumPlan)
    requires Planned(groups, plan) && groups != [] && MergeGroups(s, groups, plan).Some?
    ensures MergeGroup(s, groups[0], plan).Some?
  {
  }

  lemma {:induction false} EveryGroupOutcome(s: Tables, groups: seq<seq<int>>, plan: AlbumPlan, key: Folding, i: nat)
    requires Constraints(s) && Ready(s, groups, plan, key) && Planned(groups, plan)
    requires i < |groups|
    ensures MergeGroups(s, groups, plan).Some? ==> GroupOutcome(s, MergeGroups(s, groups, plan).value, groups[i], plan)
    decreases |groups|
  {
    hide Constraints, KeepsAlbums, MergeGroup, ArtistList, FirstOccurrences, SameRows, SortAlbums, Ranked, Distinct;
    if MergeGroups(s, groups, plan).None? {
    } else if i == 0 {
      FirstGroupOutcome(s, groups, plan, key);
    } else {
      var g := groups[i];
      assert GroupReady(s, groups[0], plan, key);
      MergeGroupKeeps(s, groups[0], plan, key);
      var t := MergeGroup(s, groups[0], plan).value;
      RestIsReady(s, groups, plan, key, t);
      EveryGroupOutcome(t, groups[1..], plan, key, i - 1);
      assert groups[1..][i - 1] == g;
      GroupsAreDisjoint(s, groups, plan, key, 0, i);
      forall a | a in g ensures Untouched(s, t, a) { MergeGroupUntouched(s, groups[0], plan, key, a); }
      SameCountsSameOrder(s, t, g, plan);
      SameListsInOrder(s, t, g, plan);
    }
  }

  lemma SameListsInOrder(s: Tables, t: Tables, group: seq<int>, plan: AlbumPlan)
    requires Constraints(s) && Constraints(t) && GroupPlanned(group, plan)
    requires forall a :: a in group ==> Untouched(s, t, a)
    ensures ListsOf(t.albumArtists, SortAlbums(s.tracks, group, plan))
        == ListsOf(s.albumArtists, SortAlbums(s.tracks, group, plan))
  {
    hide Constraints;
    ConstraintsPositions(s);
    ConstraintsPositions(t);
    var sorted := SortAlbums(s.tracks, group, plan);
    SameElements(sorted, group);
    forall i | 0 <= i < |sorted|
      ensures SameRows(s.albumArtists, t.albumArtists, sorted[i])
    {
      assert Untouched(s, t, sorted[i]);
    }
    SameRowsSameLists(s.albumArtists, t.albumArtists, sorted);
  }

  // ---- When it fails ----

  ghost function Winners(tracks: map<int, Track>, groups: seq<seq<int>>, plan: AlbumPlan): (w: seq<int>)
    requires Planned(groups, plan)
    ensures |w| == |groups|
    ensures forall i :: 0 <= i < |groups| ==> w[i] == SortAlbums(tracks, groups[i], plan)[0] && w[i] in plan.path
  {
    seq(|groups|, i requires 0 <= i < |groups| =>
      assert GroupPlanned(groups[i], plan); SortAlbums(tracks, groups[i], plan)[0])
  }

  ghost function NewPaths(tracks: map<int, Track>, groups: seq<seq<int>>, plan: AlbumPlan): (p: seq<string>)
    requires Planned(groups, plan)
    ensures |p| == |groups| && forall i :: 0 <= i < |groups| ==> p[i] == plan.path[Winners(tracks, groups, plan)[i]]
  {
    var w := Winners(tracks, groups, plan);
    seq(|groups|, i requires 0 <= i < |groups| => plan.path[w[i]])
  }

  ghost function StoredPaths(albums: map<int, Album>): map<int, string> {
    map a | a in albums :: albums[a].directoryPath
  }

  lemma MovedPath(albums: map<int, Album>, group: seq<int>, b: int, p: string)
    requires b in albums && b in group
    ensures StoredPaths((albums - (AsSet(group) - {b}))[b := Renewed(albums[b], p)])
            == PathClash.Moved(StoredPaths(albums), group, b, p)
  {
  }

  // Choosing the survivors of the later groups does not depend on the first merge.
  lemma PlanTails(s: Tables, groups: seq<seq<int>>, plan: AlbumPlan, key: Folding)
    requires Constraints(s) && Ready(s, groups, plan, key) && Planned(groups, plan)
    requires groups != [] && MergeGroup(s, groups[0], plan).Some?
    ensures var t := MergeGroup(s, groups[0], plan).value;
            && Winners(t.tracks, groups[1..], plan) == Winners(s.tracks, groups, plan)[1..]
            && NewPaths(t.tracks, groups[1..], plan) == NewPaths(s.tracks, groups, plan)[1..]
  {
    hide Constraints, KeepsAlbums, MergeGroup, SortAlbums, Untouched;
    var t := MergeGroup(s, groups[0], plan).value;
    ReadyHead(s, groups, plan, key);
    forall i | 0 <= i < |groups[1..]|
      ensures SortAlbums(t.tracks, groups[1..][i], plan) == SortAlbums(s.tracks, groups[i + 1], plan)
    {
      assert groups[1..][i] == groups[i + 1] && GroupReady(s, groups[i + 1], plan, key);
      GroupsAreDisjoint(s, groups, plan, key, 0, i + 1);
      forall a | a in groups[i + 1] ensures Untouched(s, t, a) { MergeGroupUntouched(s, groups[0], plan, key, a); }
      SameCountsSameOrder(s, t, groups[i + 1], plan);
    }
  }

  lemma {:induction false} MergeFollowsPaths(s: Tables, groups: seq<seq<int>>, plan: AlbumPlan, key: Folding)
    requires Constraints(s) && Ready(s, groups, plan, key) && Planned(groups, plan)
    requires Shaped(groups, Winners(s.tracks, groups, plan), NewPaths(s.tracks, groups, plan))
    ensures MergeGroups(s, groups, plan).Some?
            <==> AllAccepted(StoredPaths(s.albums), groups, Winners(s.tracks, groups, plan),
                             NewPaths(s.tracks, groups, plan))
    decreases |groups|
  {
    hide Constraints, KeepsAlbums, MergeGroup, PathClash.Moved, SortAlbums, MovedTracks;
    if groups != [] {
      ReadyHead(s, groups, plan, key);
      MergeGroupKeeps(s, groups[0], plan, key);
      if MergeGroup(s, groups[0], plan).Some? {
        var r := MergeGroup(s, groups[0], plan).value;
        RestIsReady(s, groups, plan, key, r);
        PlanTails(s, groups, plan, key);
        MovedPath(s.albums, groups[0], Winners(s.tracks, groups, plan)[0], NewPaths(s.tracks, groups, plan)[0]);
        MergeFollowsPaths(r, groups[1..], plan, key);
      }
    }
  }

  lemma MergeSucceedsIff(s: Tables, groups: seq<seq<int>>, plan: AlbumPlan, key: Folding)
    requires Constraints(s) && Ready(s, groups, plan, key) && Planned(groups, plan)
    requires forall i, j :: 0 <= i < j < |groups| ==>
        NewPaths(s.tracks, groups, plan)[i] != NewPaths(s.tracks, groups, plan)[j]
    ensures MergeGroups(s, groups, plan).Some? <==>
        PathsAreFree(StoredPaths(s.albums), groups, NewPaths(s.tracks, groups, plan))
  {
    hide Constraints;
    forall i | 0 <= i < |groups| ensures Winners(s.tracks, groups, plan)[i] in groups[i] {
      assert GroupPlanned(groups[i], plan);
    }
    MergeFollowsPaths(s, groups, plan, key);
    AcceptedIffFree(StoredPaths(s.albums), groups, Winners(s.tracks, groups, plan), NewPaths(s.tracks, groups, plan));
  }
}
