// The music tables as the migration updates them: one method per SQL statement, the
// nested loops over groups and losers, and the transaction around them.
module MusicStore {
  import opened Text
  import opened Sequences
  import opened Ranking
  import opened Grouping
  import opened MusicTables
  import T = MusicTracks
  import TT = MusicTrackTheorems
  import opened MusicAlbums
  import A = MusicAlbumMerge
  import AT = MusicAlbumTheorems
  import opened MusicMigration
  import opened MusicGuarantees

  lemma UpsertOneMore(rows: map<(int, string), History>, survivor: int, loser: int, done: set<string>, p: string)
    requires survivor != loser && p !in done && (forall q :: q in done ==> (loser, q) in rows) && (loser, p) in rows
    ensures UpsertHistory(Upserted(rows, survivor, loser, done), (survivor, p), rows[(loser, p)])
            == Upserted(rows, survivor, loser, done + {p})
  {
    hide MergeHistory;
  }

  lemma SortedTrackGroup(group: seq<int>, plan: T.TrackPlan)
    requires T.GroupPlanned(group, plan)
    ensures group != [] && forall k :: 0 <= k < |group| ==> group[k] in plan.rank
    ensures var sorted := Sort(group, plan.rank);
            && sorted != [] && sorted[0] == T.Best(group, plan.rank) && sorted[0] in plan.path
            && T.Losers(group, plan) == sorted[1..] && forall i :: 1 <= i < |sorted| ==> sorted[i] != sorted[0]
  {
    hide Compare;
    var sorted := Sort(group, plan.rank);
    SortSorts(group, plan.rank);
    SortedIsDistinct(sorted, plan.rank);
    SameElements(sorted, group);
  }

  class MusicStore {
    var tracks: map<int, Track>
    var albums: map<int, Album>
    var artists: set<int>
    var playlists: set<int>
    var trackArtists: map<(int, int), nat>
    var albumArtists: map<(int, int), nat>
    var favorites: map<(int, string), string>
    var history: map<(int, string), History>
    var playlistTracks: map<(int, int), PlaylistRow>
    var sessions: map<string, Session>

    function State(): Tables
      reads this
    {
      Tables(tracks, albums, artists, playlists, trackArtists, albumArtists,
             favorites, history, playlistTracks, sessions)
    }

    // ROLLBACK
    method Restore(s: Tables)
      modifies this
      ensures State() == s
    {
      tracks, albums, artists, playlists := s.tracks, s.albums, s.artists, s.playlists;
      trackArtists, albumArtists := s.trackArtists, s.albumArtists;
      favorites, history := s.favorites, s.history;
      playlistTracks, sessions := s.playlistTracks, s.sessions;
    }

    // ---- One loser of a track group ----

    // Upserts the loser's history rows, one after the other in any order, on the survivor.
    method MoveHistory(survivor: int, loser: int)
      requires survivor != loser
      modifies this`history
      ensures history == Upserted(old(history), survivor, loser, RowsOf(old(history), loser))
    {
      ghost var before := history;
      var rows := history;
      var profiles := RowsOf(history, loser);
      ghost var done := {};
      while true
        invariant profiles !! done && profiles + done == RowsOf(before, loser)
        invariant rows == before
        invariant history == Upserted(before, survivor, loser, done)
        decreases profiles
      {
        if p :| p in profiles {
          UpsertOneMore(before, survivor, loser, done, p);
          history := UpsertHistory(history, (survivor, p), rows[(loser, p)]);
          profiles := profiles - {p};
          done := done + {p};
        } else {
          break;
        }
      }
      assert done == RowsOf(before, loser);
    }

    method MergeLoser(survivor: int, loser: int)
      requires Constraints(State()) && survivor in tracks && survivor != loser
      modifies this
      ensures State() == T.MergeLoser(old(State()), survivor, loser)
      ensures Constraints(State())
    {
      hide Constraints, InsertOrIgnore, Upserted, Without, DeleteDuplicates, Reassign, ReassignSessions, T.MergeLoser;
      ghost var script := T.RunScript(State(), survivor, loser);
      T.EveryStatementIsAccepted(State(), survivor, loser);
      T.StatementsAddUp(State(), survivor, loser);
      favorites := InsertOrIgnore(favorites, survivor, loser);
      assert State() == script.favored;
      MoveHistory(survivor, loser);
      assert State() == script.upserted;
      history := Without(history, loser);
      assert State() == script.cleared;
      playlistTracks := DeleteDuplicates(playlistTracks, survivor, loser);
      assert State() == script.deduplicated;
      playlistTracks := Reassign(playlistTracks, survivor, loser);
      assert State() == script.reassigned;
      sessions := ReassignSessions(sessions, survivor, loser);
      assert State() == script.repointed;
      Restore(T.DeleteTrack(State(), loser));
    }

    // ---- One track group ----

    method MergeTrackGroup(group: seq<int>, plan: T.TrackPlan, ghost key: int -> string) returns (ok: bool)
      requires Constraints(State()) && TT.GroupReady(State(), group, plan, key)
      modifies this
      ensures ok <==> T.MergeGroup(old(State()), group, plan).Some?
      ensures ok ==> State() == T.MergeGroup(old(State()), group, plan).value
    {
      hide Constraints, TT.Foldable, Sort, T.MergeLoser, Ranked, Distinct;
      ghost var before := State();
      SortedTrackGroup(group, plan);
      var sorted := Sort(group, plan.rank);
      var survivor := sorted[0];
      ghost var losers := T.Losers(group, plan);
      TT.SortedGroupIsFoldable(before, group, plan, key);
      TT.GroupMerges(before, group, plan, key);
      for i := 1 to |sorted|
        invariant Constraints(State()) && survivor in tracks
        invariant T.MergeLosers(State(), survivor, sorted[i..]) == T.MergeLosers(before, survivor, losers)
      {
        assert sorted[i..][1..] == sorted[i + 1..];
        assert sorted[i] != survivor;
        TrackStays(State(), survivor, sorted[i]);
        MergeLoser(survivor, sorted[i]);
      }
      assert sorted[|sorted|..] == [];
      var path := plan.path[survivor];
      ok := forall u :: u in tracks && u != survivor ==> tracks[u].filePath != path;
      if ok {
        Restore(T.SetTrackPath(State(), survivor, path));
      }
    }

    method MergeAllTracks(groups: seq<seq<int>>, plan: T.TrackPlan, ghost key: int -> string) returns (ok: bool)
      requires Constraints(State()) && TT.Ready(State(), groups, plan, key) && T.Planned(groups, plan)
      modifies this
      ensures ok <==> T.MergeGroups(old(State()), groups, plan).Some?
      ensures ok ==> State() == T.MergeGroups(old(State()), groups, plan).value
    {
      hide Constraints, T.MergeGroup;
      ghost var before := State();
      for i := 0 to |groups|
        invariant Constraints(State()) && TT.Ready(State(), groups[i..], plan, key) && T.Planned(groups[i..], plan)
        invariant T.MergeGroups(State(), groups[i..], plan) == T.MergeGroups(before, groups, plan)
      {
        ghost var here, rest := State(), groups[i..];
        assert rest[0] == groups[i] && rest[1..] == groups[i + 1..];
        assert TT.GroupReady(here, groups[i], plan, key);
        TT.MergeGroupKeeps(here, groups[i], plan, key);
        ok := MergeTrackGroup(groups[i], plan, key);
        if !ok { return; }
        TT.RestIsReady(here, rest, plan, key, State());
      }
      assert groups[|groups|..] == [];
      ok := true;
    }

    // ---- One loser of an album group ----

    // Reads the artists of an album by rising position.
    method SelectArtists(album: int) returns (l: seq<int>)
      requires OneArtistPerPosition(albumArtists)
      ensures l == ArtistList(albumArtists, album)
    {
      hide ArtistList, OneArtistPerPosition, Listing;
      l := [];
      var rest := RowsOf(albumArtists, album);
      NothingListed(albumArtists, album);
      while true
        invariant Listing(albumArtists, album, l, rest)
        decreases rest
      {
        if some :| some in rest {
          ghost var first := FirstArtist(albumArtists, album, l, rest, some);
          var m :| m in rest && IsFirst(albumArtists, album, rest, m);
          ListMore(albumArtists, album, l, rest, m);
          l := l + [m];
          rest := rest - {m};
        } else {
          break;
        }
      }
      AllListed(albumArtists, album, l, rest);
    }

    // Reads the position behind the last artist.
    method SelectNextPosition(album: int) returns (n: nat)
      ensures n == NextPosition(albumArtists, album)
    {
      n := 0;
      var rest := RowsOf(albumArtists, album);
      while true
        invariant rest <= RowsOf(albumArtists, album)
        invariant forall a :: a in RowsOf(albumArtists, album) - rest ==> albumArtists[(album, a)] < n
        invariant n > 0 ==> exists a :: a in RowsOf(albumArtists, album) && albumArtists[(album, a)] == n - 1
        decreases rest
      {
        if a :| a in rest {
          if albumArtists[(album, a)] >= n { n := albumArtists[(album, a)] + 1; }
          rest := rest - {a};
        } else {
          break;
        }
      }
    }

    // Takes the artists over in order; those the survivor lists already are skipped.
    method AppendArtists(survivor: int, l: seq<int>)
      modifies this`albumArtists
      ensures albumArtists == AddArtists(old(albumArtists), survivor, l)
    {
      ghost var before := albumArtists;
      for i := 0 to |l|
        invariant AddArtists(albumArtists, survivor, l[i..]) == AddArtists(before, survivor, l)
      {
        assert l[i..][0] == l[i] && l[i..][1..] == l[i + 1..];
        if (survivor, l[i]) in albumArtists { continue; }
        var position := SelectNextPosition(survivor);
        albumArtists := albumArtists[(survivor, l[i]) := position];
      }
      assert l[|l|..] == [];
    }

    method MergeAlbum(survivor: int, loser: int)
      requires Constraints(State()) && survivor in albums && survivor != loser
      modifies this
      ensures State() == A.MergeAlbum(old(State()), survivor, loser)
      ensures Constraints(State())
    {
      hide Constraints, AddArtists, ArtistList, A.ReassignTracks;
      AT.ConstraintsPositions(State());
      A.EveryAlbumStatementIsAccepted(State(), survivor, loser);
      var relations := SelectArtists(loser);
      AppendArtists(survivor, relations);
      tracks := A.ReassignTracks(tracks, survivor, loser);
      Restore(A.DeleteAlbum(State(), loser));
    }

    // ---- One album group ----

    method MergeAlbumGroup(group: seq<int>, plan: A.AlbumPlan, ghost key: int -> string) returns (ok: bool)
      requires Constraints(State()) && AT.GroupReady(State(), group, plan, key)
      modifies this
      ensures ok <==> A.MergeGroup(old(State()), group, plan).Some?
      ensures ok ==> State() == A.MergeGroup(old(State()), group, plan).value
    {
      hide Constraints, A.MergeAlbum, AT.KeepsAlbums, Ranked, Distinct, Compare, Sort;
      ghost var before := State();
      var sorted := A.SortAlbums(tracks, group, plan);
      SameElements(sorted, group);
      var survivor := sorted[0];
      AT.SortedGroupIsFoldable(before, group, plan, key);
      AT.MergeAlbumsKeeps(before, survivor, sorted[1..], key);
      for i := 1 to |sorted|
        invariant Constraints(State()) && survivor in albums
        invariant A.MergeAlbums(State(), survivor, sorted[i..]) == A.MergeAlbums(before, survivor, sorted[1..])
      {
        assert sorted[i..][0] == sorted[i] && sorted[i..][1..] == sorted[i + 1..];
        assert sorted[i] != survivor;
        ghost var here := State();
        MergeAlbum(survivor, sorted[i]);
        AlbumStays(here, survivor, sorted[i]);
      }
      assert sorted[|sorted|..] == [];
      var path := plan.path[survivor];
      ok := forall u :: u in albums && u != survivor ==> albums[u].directoryPath != path;
      if ok {
        Restore(A.SetAlbumPath(State(), survivor, path));
      }
    }

    method MergeAllAlbums(groups: seq<seq<int>>, plan: A.AlbumPlan, ghost key: int -> string) returns (ok: bool)
      requires Constraints(State()) && AT.Ready(State(), groups, plan, key) && A.Planned(groups, plan)
      modifies this
      ensures ok <==> A.MergeGroups(old(State()), groups, plan).Some?
      ensures ok ==> State() == A.MergeGroups(old(State()), groups, plan).value
    {
      hide Constraints, AT.KeepsAlbums, A.MergeGroup;
      ghost var before := State();
      for i := 0 to |groups|
        invariant Constraints(State()) && AT.Ready(State(), groups[i..], plan, key) && A.Planned(groups[i..], plan)
        invariant A.MergeGroups(State(), groups[i..], plan) == A.MergeGroups(before, groups, plan)
      {
        ghost var here, rest := State(), groups[i..];
        assert rest[0] == groups[i] && rest[1..] == groups[i + 1..];
        assert AT.GroupReady(here, groups[i], plan, key);
        AT.MergeGroupKeeps(here, groups[i], plan, key);
        ok := MergeAlbumGroup(groups[i], plan, key);
        if !ok { return; }
        AT.RestIsReady(here, rest, plan, key, State());
      }
      assert groups[|groups|..] == [];
      ok := true;
    }

    // ---- The transaction ----

    method ReadTrackGroups(rules: Rules) returns (plan: T.TrackPlan, groups: seq<seq<int>>)
      ensures plan == TrackPlan(tracks, rules) && groups == TrackGroups(tracks, rules)
    {
      plan := TrackPlan(tracks, rules);
      var ids := SelectIds(tracks.Keys);
      AscendingIsUnique(ids, IdsInOrder(tracks.Keys), tracks.Keys);
      var g := CollectGroups(ids, Key(plan.path, rules));
      groups := Values(g);
    }

    method ReadAlbumGroups(rules: Rules) returns (plan: A.AlbumPlan, groups: seq<seq<int>>)
      ensures plan == AlbumPlan(albums, rules) && groups == AlbumGroups(albums, rules)
    {
      plan := AlbumPlan(albums, rules);
      var ids := SelectIds(albums.Keys);
      AscendingIsUnique(ids, IdsInOrder(albums.Keys), albums.Keys);
      var g := CollectGroups(ids, Key(plan.path, rules));
      groups := Values(g);
    }

    // The normaliser throws before BEGIN when it finds no portable path.
    method CanNormalise(rules: Rules) returns (ok: bool)
      ensures ok <==> Portable(State(), rules)
    {
      ok := (forall t :: t in tracks ==> rules.trackPath(tracks[t].relPath, tracks[t].filePath).Some?)
            && (forall a :: a in albums ==> rules.albumPath(albums[a].relPath, albums[a].directoryPath).Some?);
    }

    // Returns whether it committed. A path that cannot be normalised stops it before BEGIN,
    // a refused statement makes it roll back.
    method MigratePaths(rules: Rules) returns (ok: bool)
      requires Constraints(State())
      modifies this
      ensures ok <==> Migrate(old(State()), rules).Some?
      ensures State() == if ok then Migrate(old(State()), rules).value else old(State())
    {
      hide Constraints, Portable, Migrate, MergeTracks, MergeAlbums, CleanUp, TrackGroups, AlbumGroups, TrackPlan,
           AlbumPlan, TrackKey, AlbumKey,
           TT.Ready, AT.Ready, T.Planned, A.Planned, T.MergeGroups, A.MergeGroups;
      ghost var before := State();
      ok := CanNormalise(rules);
      MigrateSteps(before, rules);
      if !ok { return; }
      var trackPlan, trackGroups := ReadTrackGroups(rules);
      var albumPlan, albumGroups := ReadAlbumGroups(rules);
      var saved := State();
      ok := MergeAllTracks(trackGroups, trackPlan, TrackKey(before, rules));
      if ok {
        ok := MergeAllAlbums(albumGroups, albumPlan, AlbumKey(before, rules));
      }
      if ok {
        Restore(CleanUp(State()));
      } else {
        Restore(saved);
      }
    }
  }

  // The specification as the transaction meets it, step by step.
  lemma MigrateSteps(s: Tables, rules: Rules)
    requires Constraints(s)
    ensures !Portable(s, rules) ==> Migrate(s, rules) == None
    ensures Portable(s, rules) ==>
              && var plan := TrackPlan(s.tracks, rules); var groups := TrackGroups(s.tracks, rules);
              && TT.Ready(s, groups, plan, TrackKey(s, rules)) && T.Planned(groups, plan)
              && match T.MergeGroups(s, groups, plan)
                 case None => Migrate(s, rules) == None
                 case Some(t) =>
                   && var albumPlan := AlbumPlan(s.albums, rules); var albumGroups := AlbumGroups(s.albums, rules);
                   && Constraints(t)
                   && AT.Ready(t, albumGroups, albumPlan, AlbumKey(s, rules)) && A.Planned(albumGroups, albumPlan)
                   && match A.MergeGroups(t, albumGroups, albumPlan)
                      case None => Migrate(s, rules) == None
                      case Some(u) => Migrate(s, rules) == Some(CleanUp(u))
  {
    hide Constraints, CleanUp, TrackGroups, AlbumGroups, TrackPlan, AlbumPlan, TT.Ready, AT.Ready;
    if Portable(s, rules) {
      TrackGroupsReady(s, rules);
      if MergeTracks(s, rules).Some? {
        TrackStage(s, rules);
        AlbumGroupsReady(MergeTracks(s, rules).value, s.albums, rules);
      }
    }
  }

  lemma TrackStays(s: Tables, survivor: int, loser: int)
    requires survivor in s.tracks && survivor != loser
    ensures survivor in T.MergeLoser(s, survivor, loser).tracks
  {
  }

  lemma AlbumStays(s: Tables, survivor: int, loser: int)
    requires survivor in s.albums && survivor != loser
    ensures survivor in A.MergeAlbum(s, survivor, loser).albums
  {
  }

  // ---- Reading the artists of an album in order ----

  // l holds artists of the album by rising position, and rest those behind them.
  ghost predicate Listing(rows: map<(int, int), nat>, album: int, l: seq<int>, rest: set<int>) {
    && rest <= RowsOf(rows, album)
    && (forall i :: 0 <= i < |l| ==> l[i] in RowsOf(rows, album) && (album, l[i]) in rows)
    && (forall x :: x in rest ==> (album, x) in rows)
    && (forall i, j :: 0 <= i < j < |l| ==> rows[(album, l[i])] < rows[(album, l[j])])
    && (forall x, i :: x in rest && 0 <= i < |l| ==> rows[(album, l[i])] < rows[(album, x)])
    && (forall x :: x in RowsOf(rows, album) ==> x in rest || x in l)
  }

  predicate IsFirst(rows: map<(int, int), nat>, album: int, rest: set<int>, m: int) {
    (album, m) in rows && forall x :: x in rest && (album, x) in rows ==> rows[(album, m)] <= rows[(album, x)]
  }

  lemma NothingListed(rows: map<(int, int), nat>, album: int)
    ensures Listing(rows, album, [], RowsOf(rows, album))
  {
  }

  lemma ListMore(rows: map<(int, int), nat>, album: int, l: seq<int>, rest: set<int>, m: int)
    requires OneArtistPerPosition(rows) && Listing(rows, album, l, rest) && m in rest && IsFirst(rows, album, rest, m)
    ensures Listing(rows, album, l + [m], rest - {m})
  {
    hide OneArtistPerPosition, RowsOf;
    forall x | x in rest - {m} ensures rows[(album, m)] < rows[(album, x)] {
      PositionsDiffer(rows, album, m, x);
    }
    forall x | x in RowsOf(rows, album) ensures x in rest - {m} || x in l + [m] {
      if x == m { assert (l + [m])[|l|] == m; }
    }
  }

  lemma AllListed(rows: map<(int, int), nat>, album: int, l: seq<int>, rest: set<int>)
    requires OneArtistPerPosition(rows) && Listing(rows, album, l, rest) && forall x :: x !in rest
    ensures l == ArtistList(rows, album)
  {
    hide ArtistList;
    ListIsUnique(rows, album, RowsOf(rows, album), l, ArtistList(rows, album));
  }

  lemma {:induction false} LeastOf(rows: map<(int, int), nat>, album: int, artists: set<int>, some: int)
    returns (first: int)
    requires some in artists && forall a :: a in artists ==> (album, a) in rows
    ensures first in artists && IsFirst(rows, album, artists, first)
    decreases |artists|
  {
    first := some;
    var rest := artists - {some};
    if next :| next in rest {
      var least := LeastOf(rows, album, rest, next);
      if rows[(album, least)] < rows[(album, some)] { first := least; }
    }
    forall a | a in artists ensures rows[(album, first)] <= rows[(album, a)] {
      assert a == some || a in rest;
    }
  }

  lemma FirstArtist(rows: map<(int, int), nat>, album: int, l: seq<int>, rest: set<int>, some: int) returns (first: int)
    requires Listing(rows, album, l, rest) && some in rest
    ensures first in rest && IsFirst(rows, album, rest, first)
  {
    first := LeastOf(rows, album, rest, some);
  }
}
