// The migration seen by a user: favourites, playlists, sessions, availability, history.
module MusicUserData {
  import opened Text
  import opened MusicTables
  import opened MusicKeeping
  import opened Ranking
  import T = MusicTracks
  import TT = MusicTrackTheorems
  import opened MusicMigration
  import opened MusicGuarantees

  // The folded paths that one profile has favourited, or that one playlist holds.
  ghost function PathsOf<X(!new), V>(rows: map<(int, X), V>, x: X, key: Folding): set<string> {
    set k | k in rows && k.1 == x :: key(k.0)
  }

  // Tracks of a migrated state by the folded path they now carry.
  ghost function FinalKey(r: Tables, rules: Rules): Folding {
    x => if x in r.tracks then rules.fold(r.tracks[x].relPath) else ""
  }

  lemma FinalKeyIsKey(s: Tables, rules: Rules)
    requires Constraints(s) && Migrate(s, rules).Some?
    ensures var r := Migrate(s, rules).value;
            forall x :: x in r.tracks ==> FinalKey(r, rules)(x) == TrackKey(s, rules)(x)
  {
    hide Constraints, Migrate, TrackKey;
    forall x | x in Migrate(s, rules).value.tracks
      ensures FinalKey(Migrate(s, rules).value, rules)(x) == TrackKey(s, rules)(x)
    {
      FinalTrack(s, rules, x);
    }
  }

  lemma SameFoldedSamePaths<X(!new), V>(a: map<(int, X), V>, b: map<(int, X), V>, x: X, ka: Folding, kb: Folding)
    requires Folded(a.Keys, ka) == Folded(b.Keys, kb)
    ensures PathsOf(a, x, ka) <= PathsOf(b, x, kb)
  {
    forall f | f in PathsOf(a, x, ka) ensures f in PathsOf(b, x, kb) {
      var k :| k in a && k.1 == x && ka(k.0) == f;
      assert (ka(k.0), k.1) in Folded(a.Keys, ka);
      var j :| j in b.Keys && (kb(j.0), j.1) == (f, x);
    }
  }

  lemma FoldedByEqualKeys<X(!new), V(!new)>(rows: map<(int, X), V>, owners: set<int>, ka: Folding, kb: Folding)
    requires OwnedBy(rows, owners) && forall x :: x in owners ==> ka(x) == kb(x)
    ensures Folded(rows.Keys, ka) == Folded(rows.Keys, kb)
  {
    forall c | c in Folded(rows.Keys, ka) ensures c in Folded(rows.Keys, kb) {
      var k :| k in rows.Keys && c == (ka(k.0), k.1);
      var x: int := k.0;
      assert k in rows && x in owners;
    }
    forall c | c in Folded(rows.Keys, kb) ensures c in Folded(rows.Keys, ka) {
      var k :| k in rows.Keys && c == (kb(k.0), k.1);
      var x: int := k.0;
      assert k in rows && x in owners;
    }
  }

  // Per profile the set of favourited folded paths is unchanged.
  lemma FavoritesSurvive(s: Tables, rules: Rules, profile: string)
    requires Constraints(s) && Migrate(s, rules).Some?
    ensures var r := Migrate(s, rules).value;
            PathsOf(r.favorites, profile, FinalKey(r, rules)) == PathsOf(s.favorites, profile, TrackKey(s, rules))
  {
    hide Migrate, TrackKey, FinalKey, HistoryKept, SessionsKept, TracksKept, PathsOf;
    var r := Migrate(s, rules).value;
    MigrationKeeps(s, rules);
    FinalKeyIsKey(s, rules);
    FoldedByEqualKeys(r.favorites, r.tracks.Keys, FinalKey(r, rules), TrackKey(s, rules));
    SameFoldedSamePaths(r.favorites, s.favorites, profile, FinalKey(r, rules), TrackKey(s, rules));
    SameFoldedSamePaths(s.favorites, r.favorites, profile, TrackKey(s, rules), FinalKey(r, rules));
  }

  // Per playlist the set of folded paths is unchanged, each path has one row, and that row
  // stood at the same position under the same path before.
  lemma PlaylistsSurvive(s: Tables, rules: Rules, playlist: int)
    requires Constraints(s) && Migrate(s, rules).Some?
    ensures var r := Migrate(s, rules).value;
            && PathsOf(r.playlistTracks, playlist, FinalKey(r, rules))
              == PathsOf(s.playlistTracks, playlist, TrackKey(s, rules))
            && (forall x, y ::
                  (&& (x, playlist) in r.playlistTracks && (y, playlist) in r.playlistTracks
                   && FinalKey(r, rules)(x) == FinalKey(r, rules)(y)) ==> x == y)
            && (forall x :: (x, playlist) in r.playlistTracks ==>
                  CameFrom(s.playlistTracks, (x, playlist), r.playlistTracks[(x, playlist)], TrackKey(s, rules)))
  {
    hide Migrate, TrackKey, FinalKey, HistoryKept, SessionsKept, TracksKept, PathsOf, CameFrom;
    var r := Migrate(s, rules).value;
    MigrationKeeps(s, rules);
    FinalKeyIsKey(s, rules);
    FoldedByEqualKeys(r.playlistTracks, r.tracks.Keys, FinalKey(r, rules), TrackKey(s, rules));
    SameFoldedSamePaths(r.playlistTracks, s.playlistTracks, playlist, FinalKey(r, rules), TrackKey(s, rules));
    SameFoldedSamePaths(s.playlistTracks, r.playlistTracks, playlist, TrackKey(s, rules), FinalKey(r, rules));
    forall x, y | (x, playlist) in r.playlistTracks && (y, playlist) in r.playlistTracks
      && FinalKey(r, rules)(x) == FinalKey(r, rules)(y) ensures x == y
    {
      assert x in r.tracks && y in r.tracks;
      SameFinalKeySameTrack(s, rules, x, y);
    }
  }

  lemma SameFinalKeySameTrack(s: Tables, rules: Rules, x: int, y: int)
    requires Constraints(s) && Migrate(s, rules).Some?
    ensures var r := Migrate(s, rules).value;
            x in r.tracks && y in r.tracks && FinalKey(r, rules)(x) == FinalKey(r, rules)(y) ==> x == y
  {
    hide Constraints, Migrate;
    FoldedPathsAreDistinct(s, rules);
    var r := Migrate(s, rules).value;
    if x in r.tracks && y in r.tracks && FinalKey(r, rules)(x) == FinalKey(r, rules)(y) {
      assert FoldedTrack(r, rules, x) == FoldedTrack(r, rules, y);
    }
  }

  // Every playback session survives and plays a track with the same folded path.
  lemma SessionsSurvive(s: Tables, rules: Rules)
    requires Constraints(s) && Migrate(s, rules).Some?
    ensures var r := Migrate(s, rules).value;
            && r.sessions.Keys == s.sessions.Keys
            && forall i :: i in r.sessions ==>
                 && r.sessions[i].track in r.tracks && r.sessions[i].other == s.sessions[i].other
                 && FinalKey(r, rules)(r.sessions[i].track) == TrackKey(s, rules)(s.sessions[i].track)
  {
    hide Migrate, TrackKey, FinalKey, HistoryKept, RowsKept, TracksKept;
    MigrationKeeps(s, rules);
    FinalKeyIsKey(s, rules);
  }

  // A path that any duplicate had available stays available.
  lemma AvailabilitySurvives(s: Tables, rules: Rules, x: int)
    requires Constraints(s) && Migrate(s, rules).Some?
    ensures var r := Migrate(s, rules).value;
            x in s.tracks ==>
              exists y :: && y in r.tracks && FinalKey(r, rules)(y) == TrackKey(s, rules)(x)
                          && (s.tracks[x].available ==> r.tracks[y].available)
  {
    hide Constraints, Migrate, TrackKey, FinalKey, HistoryKept, RowsKept, SessionsKept;
    MigrationKeeps(s, rules);
    FinalKeyIsKey(s, rules);
    var r := Migrate(s, rules).value;
    if x in s.tracks {
      assert Represented(r.tracks, x, s.tracks[x].available, TrackKey(s, rules));
      var y :| && y in r.tracks && TrackKey(s, rules)(y) == TrackKey(s, rules)(x)
               && (s.tracks[x].available ==> r.tracks[y].available);
    }
  }

  // ---- Listening history ----

  // `row` summarises all rows of the cell of k: every maximum is reached, and position and
  // duration come from a row with the latest time stamp.
  ghost predicate Summarises(rows: map<(int, string), History>, k: (int, string), row: History, key: Folding) {
    && Attained(rows, k, row, key)
    && forall j :: j in rows && SameCell(j, k, key) ==> Covers(row, rows[j])
  }

  // Exactly one row per (folded path, profile) that had one, and it is the summary.
  lemma HistoryIsSummarised(s: Tables, rules: Rules)
    requires Constraints(s) && Migrate(s, rules).Some?
    ensures var r := Migrate(s, rules).value; var key := TrackKey(s, rules);
            && (forall k :: k in r.history ==> Summarises(s.history, k, r.history[k], key))
            && (forall j :: j in s.history ==> exists k :: k in r.history && SameCell(j, k, key))
            && (forall k, l :: k in r.history && l in r.history && SameCell(k, l, key) ==> k == l)
  {
    hide Migrate, TrackKey, RowsKept, SessionsKept, TracksKept, Attained;
    var r, key := Migrate(s, rules).value, TrackKey(s, rules);
    MigrationKeeps(s, rules);
    forall k, l | k in r.history && l in r.history && SameCell(k, l, key) ensures k == l {
      OneHistoryRow(s, rules, k, l);
    }
    forall j | j in s.history ensures exists k :: k in r.history && SameCell(j, k, key) {
      assert Covered(r.history, j, s.history[j], key);
    }
    forall k | k in r.history ensures Summarises(s.history, k, r.history[k], key) {
      assert Attained(s.history, k, r.history[k], key);
      forall j | j in s.history && SameCell(j, k, key) ensures Covers(r.history[k], s.history[j]) {
        assert Covered(r.history, j, s.history[j], key);
        var l :| l in r.history && SameCell(j, l, key) && Covers(r.history[l], s.history[j]);
        assert SameCell(k, l, key);
      }
    }
  }

  lemma OneHistoryRow(s: Tables, rules: Rules, k: (int, string), l: (int, string))
    requires Constraints(s) && Migrate(s, rules).Some?
    ensures var r := Migrate(s, rules).value;
            k in r.history && l in r.history && SameCell(k, l, TrackKey(s, rules)) ==> k == l
  {
    hide Migrate, Keeps, TrackKey, FinalKey;
    MigrationKeeps(s, rules);
    FinalKeyIsKey(s, rules);
    var r := Migrate(s, rules).value;
    if k in r.history && l in r.history && SameCell(k, l, TrackKey(s, rules)) {
      SameFinalKeySameTrack(s, rules, k.0, l.0);
    }
  }

  // The two places where the order of the losers can show: rows of one cell with equal time
  // stamps, and an empty last_played_at beside a NULL one.
  ghost predicate NoTies(rows: map<(int, string), History>, k: (int, string), key: Folding) {
    && (forall i, j ::
          (&& i in rows && j in rows && SameCell(i, k, key) && SameCell(j, k, key)
           && rows[i].updatedAt == rows[j].updatedAt) ==> SamePoint(rows[i], rows[j]))
    && (forall j :: j in rows && SameCell(j, k, key) ==> rows[j].playedAt != Some(""))
  }

  lemma CoalesceIsInjective(a: Option<string>, b: Option<string>)
    requires a != Some("") && b != Some("") && Coalesce(a) == Coalesce(b)
    ensures a == b
  {
  }

  // A summary is determined by the old rows, whatever order they were folded in: the
  // counts and time stamps always, the rest up to ties.
  lemma SummaryIsDetermined(rows: map<(int, string), History>, k: (int, string), a: History, b: History, key: Folding)
    requires Summarises(rows, k, a, key) && Summarises(rows, k, b, key)
    ensures a.plays == b.plays && a.completed == b.completed && a.updatedAt == b.updatedAt
    ensures Coalesce(a.playedAt) == Coalesce(b.playedAt)
    ensures NoTies(rows, k, key) ==> a == b
  {
    hide Attained, NoTies, Le;
    AttainedIsCovered(rows, k, a, b, key);
    AttainedIsCovered(rows, k, b, a, key);
    LeAntisymmetric(a.updatedAt, b.updatedAt);
    LeAntisymmetric(Coalesce(a.playedAt), Coalesce(b.playedAt));
    if NoTies(rows, k, key) {
      AttainedWithoutTies(rows, k, a, b, key);
    }
  }

  lemma UntiedPoint(rows: map<(int, string), History>, k: (int, string), i: (int, string), j: (int, string),
                    key: Folding)
    requires NoTies(rows, k, key) && i in rows && j in rows && SameCell(i, k, key) && SameCell(j, k, key)
    ensures rows[i].updatedAt == rows[j].updatedAt ==> SamePoint(rows[i], rows[j])
    ensures rows[i].playedAt != Some("")
  {
  }

  lemma AttainedWithoutTies(rows: map<(int, string), History>, k: (int, string), a: History, b: History, key: Folding)
    requires Attained(rows, k, a, key) && Attained(rows, k, b, key) && NoTies(rows, k, key)
    requires a.updatedAt == b.updatedAt && Coalesce(a.playedAt) == Coalesce(b.playedAt)
    ensures SamePoint(a, b) && a.playedAt == b.playedAt
  {
    hide NoTies, SameCell;
    var i :| i in rows && SameCell(i, k, key) && SamePoint(rows[i], a);
    var j :| j in rows && SameCell(j, k, key) && SamePoint(rows[j], b);
    var m :| m in rows && SameCell(m, k, key) && rows[m].playedAt == a.playedAt;
    var n :| n in rows && SameCell(n, k, key) && rows[n].playedAt == b.playedAt;
    UntiedPoint(rows, k, i, j, key);
    UntiedPoint(rows, k, m, i, key);
    UntiedPoint(rows, k, n, i, key);
    CoalesceIsInjective(a.playedAt, b.playedAt);
  }

  lemma AttainedIsCovered(rows: map<(int, string), History>, k: (int, string), a: History, b: History, key: Folding)
    requires Attained(rows, k, a, key) && Summarises(rows, k, b, key)
    ensures Covers(b, a)
  {
    var p :| p in rows && SameCell(p, k, key) && rows[p].plays == a.plays;
    var c :| c in rows && SameCell(c, k, key) && rows[c].completed == a.completed;
    var l :| l in rows && SameCell(l, k, key) && rows[l].playedAt == a.playedAt;
    var u :| u in rows && SameCell(u, k, key) && SamePoint(rows[u], a);
    assert Covers(b, rows[p]) && Covers(b, rows[c]) && Covers(b, rows[l]) && Covers(b, rows[u]);
  }

  // The members of one duplicate group against everything else.
  ghost function Membership(survivor: int, losers: seq<int>): Folding {
    x => if x == survivor || x in losers then "in" else "out"
  }

  lemma LosersAreSummarised(s: Tables, survivor: int, losers: seq<int>, profile: string)
    requires Constraints(s) && TT.Foldable(s, survivor, losers, Membership(survivor, losers))
    ensures var key := Membership(survivor, losers); var h := T.MergeLosers(s, survivor, losers).history;
            var k := (survivor, profile);
            && (k in h <==> ("in", profile) in Folded(s.history.Keys, key))
            && (k in h ==> Summarises(s.history, k, h[k], key))
  {
    hide Constraints, TracksKept, SessionsKept, RowsKept, Attained;
    var key, r, k := Membership(survivor, losers), T.MergeLosers(s, survivor, losers), (survivor, profile);
    TT.MergeLosersKeeps(s, survivor, losers, key);
    forall l | l in r.history && key(l.0) == "in" ensures l.0 == survivor {
      HistoryOwner(r, l);
      var x: int := l.0;
      assert x in r.tracks;
    }
    if ("in", profile) in Folded(r.history.Keys, key) {
      var l :| l in r.history.Keys && (key(l.0), l.1) == ("in", profile);
      assert l == k;
    }
    if k in r.history {
      assert (key(k.0), k.1) in Folded(r.history.Keys, key);
      assert Attained(s.history, k, r.history[k], key);
      forall j | j in s.history && SameCell(j, k, key) ensures Covers(r.history[k], s.history[j]) {
        assert Covered(r.history, j, s.history[j], key);
        var l :| l in r.history && SameCell(j, l, key) && Covers(r.history[l], s.history[j]);
        assert l == k;
      }
    }
  }

  lemma HistoryOwner(s: Tables, k: (int, string))
    requires Constraints(s) && k in s.history
    ensures k.0 in s.tracks
  {
  }

  // Folding the same losers in another order gives the survivor the same history, except
  // where two rows tie.
  lemma LoserOrderIsIrrelevant(s: Tables, survivor: int, a: seq<int>, b: seq<int>, profile: string)
    requires Constraints(s) && multiset(a) == multiset(b)
    requires TT.Foldable(s, survivor, a, Membership(survivor, a))
    requires TT.Foldable(s, survivor, b, Membership(survivor, b))
    ensures var ha := T.MergeLosers(s, survivor, a).history; var hb := T.MergeLosers(s, survivor, b).history;
            var k := (survivor, profile);
            && (k in ha <==> k in hb)
            && (k in ha ==>
                 && ha[k].plays == hb[k].plays && ha[k].completed == hb[k].completed
                 && ha[k].updatedAt == hb[k].updatedAt
                 && Coalesce(ha[k].playedAt) == Coalesce(hb[k].playedAt)
                 && (NoTies(s.history, k, Membership(survivor, a)) ==> ha[k] == hb[k]))
  {
    hide Constraints, Summarises, NoTies, TT.Foldable;
    var ka, kb := Membership(survivor, a), Membership(survivor, b);
    SameElements(a, b);
    assert forall x :: ka(x) == kb(x);
    LosersAreSummarised(s, survivor, a, profile);
    LosersAreSummarised(s, survivor, b, profile);
    SameMembershipSameFolded(s.history, ka, kb);
    var ha, hb, k := T.MergeLosers(s, survivor, a).history, T.MergeLosers(s, survivor, b).history, (survivor, profile);
    if k in ha {
      SameMembershipSameSummary(s.history, k, hb[k], kb, ka);
      SummaryIsDetermined(s.history, k, ha[k], hb[k], ka);
    }
  }

  lemma SameMembershipSameFolded(rows: map<(int, string), History>, ka: Folding, kb: Folding)
    requires forall x :: ka(x) == kb(x)
    ensures Folded(rows.Keys, ka) == Folded(rows.Keys, kb)
  {
    FoldedByEqualKeys(rows, set k | k in rows :: k.0, ka, kb);
  }

  lemma SameMembershipSameSummary(rows: map<(int, string), History>, k: (int, string), row: History, ka: Folding,
                                  kb: Folding)
    requires (forall x :: ka(x) == kb(x)) && Summarises(rows, k, row, ka)
    ensures Summarises(rows, k, row, kb)
  {
    forall j | j in rows ensures SameCell(j, k, ka) <==> SameCell(j, k, kb) {
      var x: int, y: int := j.0, k.0;
      assert ka(x) == kb(x) && ka(y) == kb(y);
    }
    assert Attained(rows, k, row, ka);
  }
}
