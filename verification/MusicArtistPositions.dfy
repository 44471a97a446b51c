// Where the artists of a merged album stand: the album's own stay at their positions, and each
// one taken over stands right behind the one before it.
module MusicArtistPositions {
  import opened Text
  import opened Sequences
  import opened Ranking
  import opened MusicTables
  import opened MusicKeeping
  import opened MusicAlbums
  import A = MusicAlbumMerge
  import AT = MusicAlbumTheorems

  // The album listed `l` in rows and lists `f` in r.
  ghost predicate Follows(rows: map<(int, int), nat>, r: map<(int, int), nat>, album: int, l: seq<int>, f: seq<int>) {
    && l <= f
    && (forall i :: 0 <= i < |l| ==>
          && (album, l[i]) in rows && (album, l[i]) in r
          && r[(album, l[i])] == rows[(album, l[i])])
    && (forall i :: 0 <= i < |f| ==> (album, f[i]) in r)
    && (|l| == 0 < |f| ==> r[(album, f[0])] == 0)
    && forall i :: |l| <= i < |f| && i > 0 ==> r[(album, f[i])] == r[(album, f[i - 1])] + 1
  }

  lemma FollowsItself(rows: map<(int, int), nat>, r: map<(int, int), nat>, album: int, l: seq<int>)
    requires IsArtistList(rows, album, l) && AT.SameRows(rows, r, album)
    ensures Follows(rows, r, album, l, l)
  {
    forall i | 0 <= i < |l|
      ensures (album, l[i]) in rows && (album, l[i]) in r && r[(album, l[i])] == rows[(album, l[i])]
    {
      var x: int := l[i];
      assert x in RowsOf(rows, album) && x in RowsOf(r, album);
    }
  }

  lemma FollowsTransitive(a: map<(int, int), nat>, b: map<(int, int), nat>, c: map<(int, int), nat>, album: int,
                          l: seq<int>, m: seq<int>, n: seq<int>)
    requires Follows(a, b, album, l, m) && Follows(b, c, album, m, n)
    ensures Follows(a, c, album, l, n)
  {
    assert forall i :: 0 <= i < |m| ==> m[i] == n[i];
    assert forall i :: 0 <= i < |l| ==> l[i] == m[i];
  }

  lemma NextIsBehindTheLast(rows: map<(int, int), nat>, album: int, l: seq<int>)
    requires IsArtistList(rows, album, l)
    ensures forall i :: 0 <= i < |l| ==> (album, l[i]) in rows
    ensures NextPosition(rows, album) == if l == [] then 0 else rows[(album, l[|l| - 1])] + 1
  {
    var n := NextPosition(rows, album);
    if l != [] {
      var last: int := l[|l| - 1];
      assert last in RowsOf(rows, album) && rows[(album, last)] < n;
      var x :| x in RowsOf(rows, album) && rows[(album, x)] == n - 1;
      var i :| 0 <= i < |l| && l[i] == x;
    }
  }

  lemma AddArtistFollows(rows: map<(int, int), nat>, album: int, artist: int, l: seq<int>)
    requires IsArtistList(rows, album, l)
    ensures Follows(rows, AddArtist(rows, album, artist), album, l, AppendNew(l, [artist]))
  {
    var r := AddArtist(rows, album, artist);
    NextIsBehindTheLast(rows, album, l);
    assert [artist][1..] == [];
    if (album, artist) in rows {
      assert artist in RowsOf(rows, album);
      assert AppendNew(l, [artist]) == l;
      FollowsItself(rows, r, album, l);
    } else {
      assert artist !in l;
      assert AppendNew(l, [artist]) == l + [artist];
    }
  }

  lemma {:induction false} AddArtistsFollow(rows: map<(int, int), nat>, album: int, l: seq<int>, more: seq<int>)
    requires IsArtistList(rows, album, l)
    ensures Follows(rows, AddArtists(rows, album, more), album, l, AppendNew(l, more))
    decreases |more|
  {
    hide Follows, AddArtist;
    if more == [] {
      assert AT.SameRows(rows, rows, album);
      FollowsItself(rows, rows, album, l);
    } else {
      var next, m := AddArtist(rows, album, more[0]), AppendNew(l, [more[0]]);
      AddArtistFollows(rows, album, more[0], l);
      AddArtistAppends(rows, album, more[0], l);
      AddArtistsFollow(next, album, m, more[1..]);
      assert more == [more[0]] + more[1..];
      AppendNewConcat(l, [more[0]], more[1..]);
      FollowsTransitive(rows, next, AddArtists(rows, album, more), album, l, m, AppendNew(l, more));
    }
  }

  // ---- One album, a group, all groups ----

  ghost predicate ArtistsFollow(s: Tables, r: Tables, album: int) {
    Follows(s.albumArtists, r.albumArtists, album, ArtistList(s.albumArtists, album), ArtistList(r.albumArtists, album))
  }

  lemma SameRowsFollow(s: Tables, r: Tables, album: int)
    requires Constraints(s) && Constraints(r) && AT.SameRows(s.albumArtists, r.albumArtists, album)
    ensures ArtistsFollow(s, r, album)
  {
    hide Constraints;
    AT.ConstraintsPositions(s);
    AT.ConstraintsPositions(r);
    AT.SameRowsSameArtistList(s.albumArtists, r.albumArtists, album);
    FollowsItself(s.albumArtists, r.albumArtists, album, ArtistList(s.albumArtists, album));
  }

  lemma ArtistsFollowTransitive(s: Tables, t: Tables, r: Tables, album: int)
    requires ArtistsFollow(s, t, album) && ArtistsFollow(t, r, album)
    ensures ArtistsFollow(s, r, album)
  {
    hide Follows;
    FollowsTransitive(s.albumArtists, t.albumArtists, r.albumArtists, album, ArtistList(s.albumArtists, album),
      ArtistList(t.albumArtists, album), ArtistList(r.albumArtists, album));
  }

  lemma MergeAlbumFollows(s: Tables, survivor: int, loser: int, key: Folding)
    requires Constraints(s) && survivor in s.albums && survivor != loser && key(survivor) == key(loser)
    ensures ArtistsFollow(s, A.MergeAlbum(s, survivor, loser), survivor)
  {
    hide Constraints, Follows, AT.KeepsAlbums, ArtistList;
    AT.MergeAlbumKeeps(s, survivor, loser, key);
    AT.ConstraintsPositions(s);
    var own, more := ArtistList(s.albumArtists, survivor), ArtistList(s.albumArtists, loser);
    var added, r := AddArtists(s.albumArtists, survivor, more), A.MergeAlbum(s, survivor, loser).albumArtists;
    AddArtistsFollow(s.albumArtists, survivor, own, more);
    AddArtistsAppends(s.albumArtists, survivor, own, more);
    AT.WithoutFrame(added, loser, survivor);
    FollowsItself(added, r, survivor, AppendNew(own, more));
    FollowsTransitive(s.albumArtists, added, r, survivor, own, AppendNew(own, more), AppendNew(own, more));
  }

  lemma {:induction false} MergeAlbumsFollow(s: Tables, survivor: int, losers: seq<int>, key: Folding)
    requires Constraints(s) && AT.Foldable(s, survivor, losers, key)
    ensures ArtistsFollow(s, A.MergeAlbums(s, survivor, losers), survivor)
    decreases |losers|
  {
    hide Constraints, ArtistsFollow, AT.KeepsAlbums, A.MergeAlbum;
    if losers == [] {
      SameRowsFollow(s, s, survivor);
    } else {
      var t := A.MergeAlbum(s, survivor, losers[0]);
      MergeAlbumFollows(s, survivor, losers[0], key);
      AT.FoldableTail(s, survivor, losers, key);
      MergeAlbumsFollow(t, survivor, losers[1..], key);
      ArtistsFollowTransitive(s, t, A.MergeAlbums(t, survivor, losers[1..]), survivor);
    }
  }

  lemma MergeGroupFollows(s: Tables, group: seq<int>, plan: A.AlbumPlan, key: Folding)
    requires Constraints(s) && AT.GroupReady(s, group, plan, key) && A.MergeGroup(s, group, plan).Some?
    ensures ArtistsFollow(s, A.MergeGroup(s, group, plan).value, A.SortAlbums(s.tracks, group, plan)[0])
  {
    hide Constraints, Follows, ArtistList, A.MergeAlbums, A.SortAlbums;
    var sorted := A.SortAlbums(s.tracks, group, plan);
    AT.SortedGroupIsFoldable(s, group, plan, key);
    MergeAlbumsFollow(s, sorted[0], sorted[1..], key);
  }

  lemma FirstGroupFollows(s: Tables, groups: seq<seq<int>>, plan: A.AlbumPlan, key: Folding)
    requires Constraints(s) && AT.Ready(s, groups, plan, key) && A.Planned(groups, plan)
    requires groups != [] && A.MergeGroups(s, groups, plan).Some?
    ensures ArtistsFollow(s, A.MergeGroups(s, groups, plan).value, A.SortAlbums(s.tracks, groups[0], plan)[0])
  {
    hide Constraints, ArtistsFollow, AT.KeepsAlbums, A.MergeGroup, A.SortAlbums, AT.Ready, A.MergeGroups, AT.Untouched;
    var t, b := FirstMerge(s, groups, plan, key);
    var r := A.MergeGroups(s, groups, plan).value;
    AT.FirstGroupIsFinal(s, groups, plan, key, b);
    AT.UntouchedRows(t, r, b);
    AT.MergeGroupsKeeps(s, groups, plan, key);
    SameRowsFollow(t, r, b);
    ArtistsFollowTransitive(s, t, r, b);
  }

  lemma FirstMerge(s: Tables, groups: seq<seq<int>>, plan: A.AlbumPlan, key: Folding) returns (t: Tables, b: int)
    requires Constraints(s) && AT.Ready(s, groups, plan, key) && A.Planned(groups, plan)
    requires groups != [] && A.MergeGroups(s, groups, plan).Some?
    ensures A.MergeGroup(s, groups[0], plan) == Some(t) && Constraints(t)
    ensures b == A.SortAlbums(s.tracks, groups[0], plan)[0] && b in groups[0]
    ensures ArtistsFollow(s, t, b)
    ensures A.Planned(groups[1..], plan) && AT.Ready(t, groups[1..], plan, key)
    ensures A.MergeGroups(t, groups[1..], plan) == A.MergeGroups(s, groups, plan)
  {
    hide Constraints, ArtistsFollow, AT.KeepsAlbums, A.MergeGroup, A.SortAlbums;
    assert AT.GroupReady(s, groups[0], plan, key);
    AT.MergeGroupKeeps(s, groups[0], plan, key);
    t := A.MergeGroup(s, groups[0], plan).value;
    b := A.SortAlbums(s.tracks, groups[0], plan)[0];
    MergeGroupFollows(s, groups[0], plan, key);
    AT.RestIsReady(s, groups, plan, key, t);
  }

  // The artists of every group's survivor, whatever the other groups did.
  lemma {:induction false} EveryGroupFollows(s: Tables, groups: seq<seq<int>>, plan: A.AlbumPlan, key: Folding, i: nat)
    requires Constraints(s) && AT.Ready(s, groups, plan, key) && A.Planned(groups, plan)
    requires A.MergeGroups(s, groups, plan).Some? && i < |groups|
    ensures A.GroupPlanned(groups[i], plan)
    ensures ArtistsFollow(s, A.MergeGroups(s, groups, plan).value, A.SortAlbums(s.tracks, groups[i], plan)[0])
    decreases |groups|
  {
    hide Constraints, ArtistsFollow, A.MergeGroup, A.SortAlbums, AT.SameRows, A.GroupPlanned;
    assert A.GroupPlanned(groups[i], plan);
    if i == 0 {
      FirstGroupFollows(s, groups, plan, key);
    } else {
      var t, _ := FirstMerge(s, groups, plan, key);
      var g := groups[i];
      assert groups[1..][i - 1] == g;
      EveryGroupFollows(t, groups[1..], plan, key, i - 1);
      LaterGroupIsSame(s, groups, plan, key, i);
      var b := A.SortAlbums(s.tracks, g, plan)[0];
      SameRowsFollow(s, t, b);
      ArtistsFollowTransitive(s, t, A.MergeGroups(s, groups, plan).value, b);
    }
  }

  lemma LaterGroupIsSame(s: Tables, groups: seq<seq<int>>, plan: A.AlbumPlan, key: Folding, i: nat)
    requires Constraints(s) && AT.Ready(s, groups, plan, key) && A.Planned(groups, plan)
    requires A.MergeGroups(s, groups, plan).Some? && 0 < i < |groups|
    ensures A.MergeGroup(s, groups[0], plan).Some? && A.GroupPlanned(groups[i], plan)
    ensures var t := A.MergeGroup(s, groups[0], plan).value; var b := A.SortAlbums(s.tracks, groups[i], plan)[0];
            && A.SortAlbums(t.tracks, groups[i], plan)[0] == b
            && AT.SameRows(s.albumArtists, t.albumArtists, b)
  {
    hide Constraints, A.MergeGroup, A.SortAlbums, AT.Untouched;
    assert AT.GroupReady(s, groups[0], plan, key) && A.GroupPlanned(groups[i], plan);
    AT.MergedGroupExists(s, groups, plan);
    var t := A.MergeGroup(s, groups[0], plan).value;
    AT.GroupsAreDisjoint(s, groups, plan, key, 0, i);
    forall a | a in groups[i] ensures AT.Untouched(s, t, a) {
      AT.MergeGroupUntouched(s, groups[0], plan, key, a);
    }
    AT.SameCountsSameOrder(s, t, groups[i], plan);
    AT.UntouchedRows(s, t, A.SortAlbums(s.tracks, groups[i], plan)[0]);
  }
}
