// Folding album groups: the artist links, the re-pointed tracks, the deleted losers.
module MusicAlbumMerge {
  import opened Text
  import opened Sequences
  import opened Ranking
  import opened Grouping
  import opened MusicTables
  import opened MusicAlbums

  // Read before BEGIN: the normalised path and the parsed time stamp of every album.
  datatype AlbumPlan = AlbumPlan(path: map<int, string>, stamp: map<int, int>)

  ghost predicate GroupPlanned(group: seq<int>, plan: AlbumPlan) {
    group != [] && Distinct(group) && forall k :: 0 <= k < |group| ==> group[k] in plan.path && group[k] in plan.stamp
  }

  ghost predicate Planned(groups: seq<seq<int>>, plan: AlbumPlan) {
    forall i :: 0 <= i < |groups| ==> GroupPlanned(groups[i], plan)
  }

  // How many tracks the album has
  function TrackCount(tracks: map<int, Track>, album: int): nat {
    |set t | t in tracks && tracks[t].album == album|
  }

  // The comparator asks the database for the counts while it sorts.
  function RankAlbums(tracks: map<int, Track>, group: seq<int>, plan: AlbumPlan): (rank: map<int, Rank>)
    requires GroupPlanned(group, plan)
    ensures Ranked(group, rank)
  {
    map a | a in group && a in plan.stamp :: Rank(TrackCount(tracks, a), plan.stamp[a], 0, 0, a)
  }

  function SortAlbums(tracks: map<int, Track>, group: seq<int>, plan: AlbumPlan): (sorted: seq<int>)
    requires GroupPlanned(group, plan)
    ensures sorted != [] && multiset(sorted) == multiset(group) && Distinct(sorted)
    ensures AsSet(sorted[1..]) == AsSet(group) - {sorted[0]} && sorted[0] in group
  {
    var rank := RankAlbums(tracks, group, plan);
    var sorted := Sort(group, rank);
    SortSorts(group, rank);
    SameElements(sorted, group);
    HeadAndRest(sorted, group);
    sorted
  }

  lemma HeadAndRest(sorted: seq<int>, group: seq<int>)
    requires multiset(sorted) == multiset(group) && sorted != [] && Distinct(sorted)
    ensures AsSet(sorted[1..]) == AsSet(group) - {sorted[0]}
  {
    SameElements(sorted, group);
    assert sorted == [sorted[0]] + sorted[1..];
  }

  // ---- Statements ----

  // Every track of the loser moves to the survivor.
  function ReassignTracks(tracks: map<int, Track>, survivor: int, loser: int): map<int, Track> {
    map t | t in tracks :: if tracks[t].album == loser then tracks[t].(album := survivor) else tracks[t]
  }

  // Deleting an album is restricted by its tracks and cascades to its artist links.
  ghost predicate CanDeleteAlbum(s: Tables, album: int) {
    forall t :: t in s.tracks ==> s.tracks[t].album != album
  }

  function DeleteAlbum(s: Tables, album: int): Tables {
    s.(albums := s.albums - {album}, albumArtists := Without(s.albumArtists, album))
  }

  ghost predicate DirectoryIsFree(albums: map<int, Album>, album: int, path: string) {
    forall b :: b in albums && b != album ==> albums[b].directoryPath != path
  }

  function SetAlbumPath(s: Tables, album: int, path: string): Tables {
    if album in s.albums
    then s.(albums := s.albums[album := s.albums[album].(directoryPath := path, relPath := path, cover := None)])
    else s
  }

  // No album has a cached cover any more.
  function ClearCovers(s: Tables): Tables {
    s.(albums := map a | a in s.albums :: s.albums[a].(cover := None))
  }

  predicate Referenced(s: Tables, artist: int) {
    (exists k :: k in s.albumArtists && k.1 == artist) || (exists k :: k in s.trackArtists && k.1 == artist)
  }

  // Artists that no album and no track refers to are deleted.
  function CollectArtists(s: Tables): Tables {
    s.(artists := set a | a in s.artists && Referenced(s, a))
  }

  // ---- One loser, one group, all groups ----

  ghost function MergeAlbum(s: Tables, survivor: int, loser: int): Tables {
    s.(albums := s.albums - {loser},
       albumArtists := Without(AddArtists(s.albumArtists, survivor, ArtistList(s.albumArtists, loser)), loser),
       tracks := ReassignTracks(s.tracks, survivor, loser))
  }

  ghost function MergeAlbums(s: Tables, survivor: int, losers: seq<int>): Tables
    decreases |losers|
  {
    if losers == [] then s else MergeAlbums(MergeAlbum(s, survivor, losers[0]), survivor, losers[1..])
  }

  ghost function MergeGroup(s: Tables, group: seq<int>, plan: AlbumPlan): Option<Tables>
    requires GroupPlanned(group, plan)
  {
    var sorted := SortAlbums(s.tracks, group, plan);
    var merged := MergeAlbums(s, sorted[0], sorted[1..]);
    if DirectoryIsFree(merged.albums, sorted[0], plan.path[sorted[0]])
    then Some(SetAlbumPath(merged, sorted[0], plan.path[sorted[0]]))
    else None
  }

  ghost function MergeGroups(s: Tables, groups: seq<seq<int>>, plan: AlbumPlan): Option<Tables>
    requires Planned(groups, plan)
    decreases |groups|
  {
    if groups == [] then Some(s)
    else
      match MergeGroup(s, groups[0], plan)
      case None => None
      case Some(t) => MergeGroups(t, groups[1..], plan)
  }

  // ---- Constraints at every statement ----

  lemma AddArtistKeepsConstraints(s: Tables, album: int, artist: int)
    requires Constraints(s) && album in s.albums && artist in s.artists
    ensures Constraints(s.(albumArtists := AddArtist(s.albumArtists, album, artist)))
  {
    var rows, r := s.albumArtists, AddArtist(s.albumArtists, album, artist);
    forall k | k in rows && k.0 == album ensures rows[k] < NextPosition(rows, album) {
      var a: int := k.1;
      assert a in RowsOf(rows, album) && k == (album, a);
    }
    assert OneArtistPerPosition(r);
  }

  lemma {:induction false} AddArtistsKeepsConstraints(s: Tables, album: int, l: seq<int>)
    requires Constraints(s) && album in s.albums && forall i :: 0 <= i < |l| ==> l[i] in s.artists
    ensures Constraints(s.(albumArtists := AddArtists(s.albumArtists, album, l)))
    decreases |l|
  {
    hide Constraints, AddArtist;
    if l != [] {
      AddArtistKeepsConstraints(s, album, l[0]);
      AddArtistsKeepsConstraints(s.(albumArtists := AddArtist(s.albumArtists, album, l[0])), album, l[1..]);
    }
  }

  lemma ReassignTracksKeepsConstraints(s: Tables, survivor: int, loser: int)
    requires Constraints(s) && survivor in s.albums && survivor != loser
    ensures var r := s.(tracks := ReassignTracks(s.tracks, survivor, loser));
            Constraints(r) && CanDeleteAlbum(r, loser)
  {
  }

  lemma DeleteAlbumKeepsConstraints(s: Tables, album: int)
    requires Constraints(s) && CanDeleteAlbum(s, album)
    ensures Constraints(DeleteAlbum(s, album))
  {
  }

  lemma SetAlbumPathKeepsConstraints(s: Tables, album: int, path: string)
    requires Constraints(s) && DirectoryIsFree(s.albums, album, path)
    ensures Constraints(SetAlbumPath(s, album, path))
  {
  }

  lemma ArtistListIsKnown(s: Tables, album: int)
    requires Constraints(s)
    ensures var l := ArtistList(s.albumArtists, album);
            IsArtistList(s.albumArtists, album, l) && forall i :: 0 <= i < |l| ==> l[i] in s.artists
  {
  }

  // Folding one album: every insert is accepted, RESTRICT does not stop the delete, and
  // the constraints hold after each statement.
  lemma EveryAlbumStatementIsAccepted(s: Tables, survivor: int, loser: int)
    requires Constraints(s) && survivor in s.albums && survivor != loser
    ensures var s1 := s.(albumArtists := AddArtists(s.albumArtists, survivor, ArtistList(s.albumArtists, loser)));
            var s2 := s1.(tracks := ReassignTracks(s1.tracks, survivor, loser));
            && Constraints(s1) && Constraints(s2) && CanDeleteAlbum(s2, loser)
            && DeleteAlbum(s2, loser) == MergeAlbum(s, survivor, loser)
            && Constraints(MergeAlbum(s, survivor, loser))
  {
    hide Constraints;
    var l := ArtistList(s.albumArtists, loser);
    ArtistListIsKnown(s, loser);
    AddArtistsKeepsConstraints(s, survivor, l);
    var s1 := s.(albumArtists := AddArtists(s.albumArtists, survivor, l));
    ReassignTracksKeepsConstraints(s1, survivor, loser);
    DeleteAlbumKeepsConstraints(s1.(tracks := ReassignTracks(s1.tracks, survivor, loser)), loser);
  }

  lemma CleanupKeepsConstraints(s: Tables)
    requires Constraints(s)
    ensures Constraints(ClearCovers(s)) && Constraints(CollectArtists(ClearCovers(s)))
  {
  }
}
