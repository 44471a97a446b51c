// The track half of the path migration: every group of tracks with one folded path is
// folded into its best row, then that row takes the normalised path.
module MusicTracks {
  import opened Text
  import opened Sequences
  import opened Ranking
  import opened MusicTables

  // What is read before BEGIN: the normalised path and the sort rank of every track.
  datatype TrackPlan = TrackPlan(path: map<int, string>, rank: map<int, Rank>)

  // ---- Statements on the whole state ----

  // Deletes a track, with every cascade that points at it.
  function DeleteTrack(s: Tables, track: int): Tables {
    s.(tracks := s.tracks - {track},
       trackArtists := Without(s.trackArtists, track),
       favorites := Without(s.favorites, track),
       history := Without(s.history, track),
       playlistTracks := Without(s.playlistTracks, track),
       sessions := map i | i in s.sessions && s.sessions[i].track != track :: s.sessions[i])
  }

  // UNIQUE (file_path): no other row may already hold the new path
  ghost predicate PathIsFree(tracks: map<int, Track>, track: int, path: string) {
    forall u :: u in tracks && u != track ==> tracks[u].filePath != path
  }

  function SetTrackPath(s: Tables, track: int, path: string): Tables {
    if track in s.tracks
    then s.(tracks := s.tracks[track := s.tracks[track].(filePath := path, relPath := path)])
    else s
  }

  // ---- One loser, one group, all groups ----

  function MergeLoser(s: Tables, survivor: int, loser: int): Tables {
    s.(tracks := s.tracks - {loser},
       trackArtists := Without(s.trackArtists, loser),
       favorites := TakeOver(s.favorites, survivor, loser),
       history := FoldHistory(s.history, survivor, loser),
       playlistTracks := TakeOver(s.playlistTracks, survivor, loser),
       sessions := ReassignSessions(s.sessions, survivor, loser))
  }

  function MergeLosers(s: Tables, survivor: int, losers: seq<int>): Tables
    decreases |losers|
  {
    if losers == [] then s else MergeLosers(MergeLoser(s, survivor, losers[0]), survivor, losers[1..])
  }

  ghost predicate Planned(groups: seq<seq<int>>, plan: TrackPlan) {
    forall i :: 0 <= i < |groups| ==> GroupPlanned(groups[i], plan)
  }

  ghost predicate GroupPlanned(group: seq<int>, plan: TrackPlan) {
    group != [] && Distinct(group) && Ranked(group, plan.rank) && forall k :: 0 <= k < |group| ==> group[k] in plan.path
  }

  function Best(group: seq<int>, rank: map<int, Rank>): (b: int)
    requires group != [] && forall k :: 0 <= k < |group| ==> group[k] in rank
    ensures b in group
  {
    var sorted := Sort(group, rank);
    SameElements(sorted, group);
    sorted[0]
  }

  ghost function Losers(group: seq<int>, plan: TrackPlan): seq<int>
    requires GroupPlanned(group, plan)
  {
    SameElements(Sort(group, plan.rank), group);
    Sort(group, plan.rank)[1..]
  }

  // None when the new path meets a UNIQUE violation.
  ghost function MergeGroup(s: Tables, group: seq<int>, plan: TrackPlan): Option<Tables>
    requires GroupPlanned(group, plan)
  {
    var survivor := Best(group, plan.rank);
    var merged := MergeLosers(s, survivor, Losers(group, plan));
    if PathIsFree(merged.tracks, survivor, plan.path[survivor])
    then Some(SetTrackPath(merged, survivor, plan.path[survivor]))
    else None
  }

  ghost function MergeGroups(s: Tables, groups: seq<seq<int>>, plan: TrackPlan): Option<Tables>
    requires Planned(groups, plan)
    decreases |groups|
  {
    if groups == [] then Some(s)
    else
      match MergeGroup(s, groups[0], plan)
      case None => None
      case Some(t) => MergeGroups(t, groups[1..], plan)
  }

  // ---- Constraints at every statement ----

  lemma InsertFavoritesKeepsConstraints(s: Tables, survivor: int, loser: int)
    requires Constraints(s) && survivor in s.tracks
    ensures Constraints(s.(favorites := InsertOrIgnore(s.favorites, survivor, loser)))
  {
  }

  lemma UpsertKeepsConstraints(s: Tables, k: (int, string), row: History)
    requires Constraints(s) && k.0 in s.tracks
    ensures Constraints(s.(history := UpsertHistory(s.history, k, row)))
  {
  }

  lemma DeleteHistoryKeepsConstraints(s: Tables, loser: int)
    requires Constraints(s)
    ensures Constraints(s.(history := Without(s.history, loser)))
  {
  }

  lemma DeleteDuplicatesKeepsConstraints(s: Tables, survivor: int, loser: int)
    requires Constraints(s)
    ensures Constraints(s.(playlistTracks := DeleteDuplicates(s.playlistTracks, survivor, loser)))
  {
  }

  // Where a row stood before an accepted UPDATE of its owner.
  ghost function Origin<V>(before: map<(int, int), V>, k: (int, int), survivor: int, loser: int): (int, int) {
    if k.0 == survivor && (loser, k.1) in before then (loser, k.1) else k
  }

  lemma ReassignRow<V>(rows: map<(int, int), V>, k: (int, int), survivor: int, loser: int, owners: set<int>)
    requires CanReassign(rows, survivor, loser, owners)
    requires k in Reassign(rows, survivor, loser)
    ensures Origin(rows, k, survivor, loser) in rows
    ensures Reassign(rows, survivor, loser)[k] == rows[Origin(rows, k, survivor, loser)]
    ensures k == Renamed(Origin(rows, k, survivor, loser), survivor, loser)
  {
    assert k in Without(rows, loser) || (k.0 == survivor && k.1 in RowsOf(rows, loser));
  }

  lemma ReassignKeepsPositions(rows: map<(int, int), PlaylistRow>, survivor: int, loser: int, owners: set<int>)
    requires CanReassign(rows, survivor, loser, owners) && OneTrackPerPosition(rows)
    ensures OneTrackPerPosition(Reassign(rows, survivor, loser))
  {
    var r := Reassign(rows, survivor, loser);
    forall k, l | k in r && l in r && k.1 == l.1 && r[k].position == r[l].position ensures k == l {
      ReassignRow(rows, k, survivor, loser, owners);
      ReassignRow(rows, l, survivor, loser, owners);
      assert Origin(rows, k, survivor, loser) == Origin(rows, l, survivor, loser);
    }
  }

  lemma ReassignKeepsConstraints(s: Tables, survivor: int, loser: int)
    requires Constraints(s) && survivor in s.tracks
    requires CanReassign(s.playlistTracks, survivor, loser, s.tracks.Keys)
    ensures Constraints(s.(playlistTracks := Reassign(s.playlistTracks, survivor, loser)))
  {
    ReassignKeepsPositions(s.playlistTracks, survivor, loser, s.tracks.Keys);
    forall k | k in Reassign(s.playlistTracks, survivor, loser) ensures k.1 in s.playlists && k.0 in s.tracks {
      ReassignRow(s.playlistTracks, k, survivor, loser, s.tracks.Keys);
    }
  }

  lemma ReassignSessionsKeepsConstraints(s: Tables, survivor: int, loser: int)
    requires Constraints(s) && survivor in s.tracks
    ensures Constraints(s.(sessions := ReassignSessions(s.sessions, survivor, loser)))
  {
  }

  lemma DeleteTrackKeepsConstraints(s: Tables, loser: int)
    requires Constraints(s)
    ensures Constraints(DeleteTrack(s, loser))
  {
  }

  lemma SetTrackPathKeepsConstraints(s: Tables, track: int, path: string)
    requires Constraints(s) && PathIsFree(s.tracks, track, path)
    ensures Constraints(SetTrackPath(s, track, path))
  {
  }

  lemma UpsertedKeepsConstraints(s: Tables, survivor: int, loser: int)
    requires Constraints(s) && survivor in s.tracks
    ensures Constraints(s.(history := Upserted(s.history, survivor, loser, RowsOf(s.history, loser))))
  {
  }

  // The table states between the statements that are run for one loser.
  datatype Script = Script(favored: Tables, upserted: Tables, cleared: Tables, deduplicated: Tables,
                           reassigned: Tables, repointed: Tables, deleted: Tables)

  ghost function RunScript(s: Tables, survivor: int, loser: int): Script {
    var s1 := s.(favorites := InsertOrIgnore(s.favorites, survivor, loser));
    var s2 := s1.(history := Upserted(s1.history, survivor, loser, RowsOf(s1.history, loser)));
    var s3 := s2.(history := Without(s2.history, loser));
    var s4 := s3.(playlistTracks := DeleteDuplicates(s3.playlistTracks, survivor, loser));
    var s5 := s4.(playlistTracks := Reassign(s4.playlistTracks, survivor, loser));
    var s6 := s5.(sessions := ReassignSessions(s5.sessions, survivor, loser));
    Script(s1, s2, s3, s4, s5, s6, DeleteTrack(s6, loser))
  }

  // Every statement run for one loser is accepted and leaves the constraints true.
  lemma EveryStatementIsAccepted(s: Tables, survivor: int, loser: int)
    requires Constraints(s) && survivor in s.tracks && survivor != loser
    ensures var r := RunScript(s, survivor, loser);
            && Constraints(r.favored) && Constraints(r.upserted) && Constraints(r.cleared)
            && Constraints(r.deduplicated)
            && CanReassign(r.deduplicated.playlistTracks, survivor, loser, s.tracks.Keys)
            && Constraints(r.reassigned) && Constraints(r.repointed) && Constraints(r.deleted)
  {
    var r := RunScript(s, survivor, loser);
    InsertFavoritesKeepsConstraints(s, survivor, loser);
    UpsertedKeepsConstraints(r.favored, survivor, loser);
    DeleteHistoryKeepsConstraints(r.upserted, loser);
    DeleteDuplicatesKeepsConstraints(r.cleared, survivor, loser);
    PlaylistStatements(s.playlistTracks, survivor, loser, s.tracks.Keys);
    ReassignKeepsConstraints(r.deduplicated, survivor, loser);
    ReassignSessionsKeepsConstraints(r.reassigned, survivor, loser);
    DeleteTrackKeepsConstraints(r.repointed, loser);
  }

  // Together the statements are MergeLoser: after the re-pointing the cascades of the
  // final DELETE reach only the loser's own favourites and artist links.
  lemma StatementsAddUp(s: Tables, survivor: int, loser: int)
    requires survivor in s.tracks && survivor != loser
    ensures RunScript(s, survivor, loser).deleted == MergeLoser(s, survivor, loser)
  {
    FavoriteStatements(s.favorites, survivor, loser);
    WithoutTwice(Upserted(s.history, survivor, loser, RowsOf(s.history, loser)), loser);
    PlaylistStatements(s.playlistTracks, survivor, loser, s.tracks.Keys);
    NoSessionLeft(s.sessions, survivor, loser);
    var r := RunScript(s, survivor, loser);
    assert r.deleted == DeleteTrack(r.repointed, loser);
  }

  lemma WithoutTwice<X, V>(rows: map<(int, X), V>, owner: int)
    ensures Without(Without(rows, owner), owner) == Without(rows, owner)
  {
  }

  lemma NoSessionLeft(rows: map<string, Session>, survivor: int, loser: int)
    requires survivor != loser
    ensures var r := ReassignSessions(rows, survivor, loser);
            (map i | i in r && r[i].track != loser :: r[i]) == r
  {
  }
}
