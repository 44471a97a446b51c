// The whole path migration of the music tables as one function of the table contents,
// and what a user, the schema and a second run may rely on.
module MusicMigration {
  import opened Text
  import opened Sequences
  import opened Ranking
  import opened Grouping
  import opened MusicTables
  import opened MusicKeeping
  import T = MusicTracks
  import TT = MusicTrackTheorems
  import A = MusicAlbumMerge
  import AT = MusicAlbumTheorems

  // Code of other files: path normalisers of (stored relative path, stored file path) that
  // may fail, the case folding of paths, and Date.parse with 0 for what it cannot read.
  datatype Rules = Rules(
    trackPath: (string, string) -> Option<string>,
    albumPath: (string, string) -> Option<string>,
    fold: string -> string,
    parse: string -> int)

  ghost predicate TracksPortable(tracks: map<int, Track>, rules: Rules) {
    forall t :: t in tracks ==> rules.trackPath(tracks[t].relPath, tracks[t].filePath).Some?
  }

  ghost predicate AlbumsPortable(albums: map<int, Album>, rules: Rules) {
    forall a :: a in albums ==> rules.albumPath(albums[a].relPath, albums[a].directoryPath).Some?
  }

  ghost predicate Portable(s: Tables, rules: Rules) {
    TracksPortable(s.tracks, rules) && AlbumsPortable(s.albums, rules)
  }

  function TrackPlan(tracks: map<int, Track>, rules: Rules): T.TrackPlan {
    T.TrackPlan(
      map t | t in tracks && rules.trackPath(tracks[t].relPath, tracks[t].filePath).Some?
        :: rules.trackPath(tracks[t].relPath, tracks[t].filePath).value,
      map t | t in tracks :: Rank(if tracks[t].available then 1 else 0, rules.parse(tracks[t].updatedAt), 0, 0, t))
  }

  function AlbumPlan(albums: map<int, Album>, rules: Rules): A.AlbumPlan {
    A.AlbumPlan(
      map a | a in albums && rules.albumPath(albums[a].relPath, albums[a].directoryPath).Some?
        :: rules.albumPath(albums[a].relPath, albums[a].directoryPath).value,
      map a | a in albums :: rules.parse(albums[a].updatedAt))
  }

  // The folded normalised path of a row.
  function Key(path: map<int, string>, rules: Rules): Folding {
    i => if i in path then rules.fold(path[i]) else ""
  }

  ghost function TrackGroups(tracks: map<int, Track>, rules: Rules): seq<seq<int>> {
    Values(GroupBy(IdsInOrder(tracks.Keys), Key(TrackPlan(tracks, rules).path, rules)))
  }

  ghost function AlbumGroups(albums: map<int, Album>, rules: Rules): seq<seq<int>> {
    Values(GroupBy(IdsInOrder(albums.Keys), Key(AlbumPlan(albums, rules).path, rules)))
  }

  // ---- The groups are ready to be merged ----

  lemma TrackGroupsPartition(tracks: map<int, Track>, rules: Rules)
    ensures Partition(TrackGroups(tracks, rules), tracks.Keys, Key(TrackPlan(tracks, rules).path, rules))
  {
    GroupByPartitions(IdsInOrder(tracks.Keys), Key(TrackPlan(tracks, rules).path, rules));
    assert (set x | x in IdsInOrder(tracks.Keys)) == AsSet(IdsInOrder(tracks.Keys));
  }

  lemma AlbumGroupsPartition(albums: map<int, Album>, rules: Rules)
    ensures Partition(AlbumGroups(albums, rules), albums.Keys, Key(AlbumPlan(albums, rules).path, rules))
  {
    GroupByPartitions(IdsInOrder(albums.Keys), Key(AlbumPlan(albums, rules).path, rules));
    assert (set x | x in IdsInOrder(albums.Keys)) == AsSet(IdsInOrder(albums.Keys));
  }

  lemma TrackGroupReady(s: Tables, group: seq<int>, rules: Rules, key: Folding)
    requires TracksPortable(s.tracks, rules) && group != [] && Distinct(group)
    requires forall k :: 0 <= k < |group| ==> group[k] in s.tracks.Keys && key(group[k]) == key(group[0])
    ensures TT.GroupReady(s, group, TrackPlan(s.tracks, rules), key)
  {
    hide Distinct;
    var plan := TrackPlan(s.tracks, rules);
    forall k | 0 <= k < |group| ensures group[k] in plan.path && group[k] in plan.rank {
      var x: int := group[k];
      assert x in s.tracks;
    }
    assert T.GroupPlanned(group, plan);
  }

  lemma TrackGroupsReady(s: Tables, rules: Rules)
    requires TracksPortable(s.tracks, rules)
    ensures TT.Ready(s, TrackGroups(s.tracks, rules), TrackPlan(s.tracks, rules),
      Key(TrackPlan(s.tracks, rules).path, rules))
    ensures T.Planned(TrackGroups(s.tracks, rules), TrackPlan(s.tracks, rules))
  {
    hide Partition, TrackGroups, Key, TrackPlan, TT.GroupReady;
    var plan := TrackPlan(s.tracks, rules);
    var key, groups := Key(plan.path, rules), TrackGroups(s.tracks, rules);
    TrackGroupsPartition(s.tracks, rules);
    PartitionKeysDiffer(groups, s.tracks.Keys, key);
    forall i | 0 <= i < |groups| ensures TT.GroupReady(s, groups[i], plan, key) {
      PartitionGroup(groups, s.tracks.Keys, key, i);
      TrackGroupReady(s, groups[i], rules, key);
    }
    TT.ReadyIsPlanned(s, groups, plan, key);
  }

  lemma AlbumGroupsReady(s: Tables, albums: map<int, Album>, rules: Rules)
    requires AlbumsPortable(albums, rules)
    ensures A.Planned(AlbumGroups(albums, rules), AlbumPlan(albums, rules))
    ensures s.albums == albums ==>
              AT.Ready(s, AlbumGroups(albums, rules), AlbumPlan(albums, rules),
                Key(AlbumPlan(albums, rules).path, rules))
  {
    hide Partition, AlbumGroups, Key;
    var plan := AlbumPlan(albums, rules);
    var key, groups := Key(plan.path, rules), AlbumGroups(albums, rules);
    AlbumGroupsPartition(albums, rules);
    PartitionKeysDiffer(groups, albums.Keys, key);
    forall i | 0 <= i < |groups|
      ensures A.GroupPlanned(groups[i], plan) && (s.albums == albums ==> AT.GroupReady(s, groups[i], plan, key))
    {
      PartitionGroup(groups, albums.Keys, key, i);
    }
  }

  // ---- The migration ----

  ghost function MergeTracks(s: Tables, rules: Rules): Option<Tables>
    requires TracksPortable(s.tracks, rules)
  {
    TrackGroupsReady(s, rules);
    T.MergeGroups(s, TrackGroups(s.tracks, rules), TrackPlan(s.tracks, rules))
  }

  // `albums` are the rows read before BEGIN.
  ghost function MergeAlbums(s: Tables, albums: map<int, Album>, rules: Rules): Option<Tables>
    requires AlbumsPortable(albums, rules)
  {
    AlbumGroupsReady(s, albums, rules);
    A.MergeGroups(s, AlbumGroups(albums, rules), AlbumPlan(albums, rules))
  }

  function CleanUp(s: Tables): Tables {
    A.CollectArtists(A.ClearCovers(s))
  }

  // None stands for a thrown error: a path that cannot be normalised, or a UNIQUE violation
  // and the ROLLBACK that follows it.
  ghost function Migrate(s: Tables, rules: Rules): Option<Tables> {
    if !Portable(s, rules) then None
    else
      match MergeTracks(s, rules)
      case None => None
      case Some(t) =>
        match MergeAlbums(t, s.albums, rules)
        case None => None
        case Some(r) => Some(CleanUp(r))
  }
}
