// What folding duplicate tracks may not lose: a relation between two table states that
// is reflexive and transitive, so it can be carried through any number of merges.
// `key` maps a track id to its folded path, computed once before the transaction.
module MusicKeeping {
  import opened Text
  import opened MusicTables

  type Folding = int -> string

  ghost function Folded<X(!new)>(ks: set<(int, X)>, key: Folding): set<(string, X)> {
    set k | k in ks :: (key(k.0), k.1)
  }

  ghost predicate SameCell<X>(j: (int, X), k: (int, X), key: Folding) {
    key(j.0) == key(k.0) && j.1 == k.1
  }

  // Favourites, playlist rows: every (folded path, x) still has a row, every row comes from
  // the same (folded path, x), and rows of tracks that stay are not touched.
  ghost predicate RowsKept<X(!new), V(!new)>(before: map<(int, X), V>, after: map<(int, X), V>, staying: set<int>,
                                             key: Folding) {
    && Folded(after.Keys, key) == Folded(before.Keys, key)
    && (forall k {:trigger CameFrom(before, k, after[k], key)} :: k in after ==> CameFrom(before, k, after[k], key))
    && (forall k :: k in before && k.0 in staying ==> k in after && after[k] == before[k])
  }

  ghost predicate CameFrom<X(!new), V(!new)>(rows: map<(int, X), V>, k: (int, X), value: V, key: Folding) {
    exists j :: j in rows && SameCell(j, k, key) && rows[j] == value
  }

  ghost predicate Covers(big: History, small: History) {
    && small.plays <= big.plays && small.completed <= big.completed
    && Le(small.updatedAt, big.updatedAt)
    && Le(Coalesce(small.playedAt), Coalesce(big.playedAt))
  }

  ghost predicate Covered(rows: map<(int, string), History>, j: (int, string), row: History, key: Folding) {
    exists k :: k in rows && SameCell(j, k, key) && Covers(rows[k], row)
  }

  ghost predicate SamePoint(a: History, b: History) {
    a.updatedAt == b.updatedAt && a.position == b.position && a.duration == b.duration
  }

  // Every value of `row` was read from some row of the cell of `k`;
  // position, duration and time stamp from one and the same row.
  ghost predicate Attained(rows: map<(int, string), History>, k: (int, string), row: History, key: Folding) {
    && (exists j :: j in rows && SameCell(j, k, key) && rows[j].plays == row.plays)
    && (exists j :: j in rows && SameCell(j, k, key) && rows[j].completed == row.completed)
    && (exists j :: j in rows && SameCell(j, k, key) && rows[j].playedAt == row.playedAt)
    && (exists j :: j in rows && SameCell(j, k, key) && SamePoint(rows[j], row))
  }

  ghost predicate AllCovered(before: map<(int, string), History>, after: map<(int, string), History>, key: Folding) {
    forall j {:trigger Covered(after, j, before[j], key)} :: j in before ==> Covered(after, j, before[j], key)
  }

  ghost predicate AllAttained(before: map<(int, string), History>, after: map<(int, string), History>, key: Folding) {
    forall k {:trigger Attained(before, k, after[k], key)} :: k in after ==> Attained(before, k, after[k], key)
  }

  // Listening history: one summary per (folded path, profile) survives every merge.
  ghost predicate HistoryKept(before: map<(int, string), History>, after: map<(int, string), History>, key: Folding) {
    && Folded(after.Keys, key) == Folded(before.Keys, key)
    && AllCovered(before, after, key)
    && AllAttained(before, after, key)
  }

  ghost predicate SessionsKept(before: map<string, Session>, after: map<string, Session>, key: Folding) {
    && after.Keys == before.Keys
    && forall i :: i in before ==> after[i].other == before[i].other && key(after[i].track) == key(before[i].track)
  }

  // Some track with the folded path of `t` remains, and it is available if `t` was.
  ghost predicate Represented(tracks: map<int, Track>, t: int, available: bool, key: Folding) {
    exists u :: u in tracks && key(u) == key(t) && (available ==> tracks[u].available)
  }

  ghost predicate TracksKept(before: map<int, Track>, after: map<int, Track>, key: Folding) {
    && after.Keys <= before.Keys
    && (forall t :: t in after ==>
          && after[t].available == before[t].available
          && after[t].updatedAt == before[t].updatedAt && after[t].other == before[t].other)
    && (forall t {:trigger Represented(after, t, before[t].available, key)} ::
          t in before ==> Represented(after, t, before[t].available, key))
  }

  ghost predicate Keeps(s: Tables, r: Tables, key: Folding) {
    && TracksKept(s.tracks, r.tracks, key)
    && RowsKept(s.favorites, r.favorites, r.tracks.Keys, key)
    && RowsKept(s.playlistTracks, r.playlistTracks, r.tracks.Keys, key)
    && HistoryKept(s.history, r.history, key)
    && SessionsKept(s.sessions, r.sessions, key)
    && r.playlists == s.playlists
    && r.trackArtists == (map k | k in s.trackArtists && k.0 in r.tracks :: s.trackArtists[k])
  }

  // ---- Reflexive and transitive ----

  lemma CoversItself(row: History)
    ensures Covers(row, row)
  {
    LeReflexive(row.updatedAt);
    LeReflexive(Coalesce(row.playedAt));
  }

  lemma CoversTransitive(a: History, b: History, c: History)
    requires Covers(a, b) && Covers(b, c)
    ensures Covers(a, c)
  {
    LeTransitive(c.updatedAt, b.updatedAt, a.updatedAt);
    LeTransitive(Coalesce(c.playedAt), Coalesce(b.playedAt), Coalesce(a.playedAt));
  }

  lemma CoveredByItself(rows: map<(int, string), History>, j: (int, string), key: Folding)
    requires j in rows
    ensures Covered(rows, j, rows[j], key) && Attained(rows, j, rows[j], key)
  {
    hide Covers;
    CoversItself(rows[j]);
    assert SameCell(j, j, key);
    assert SamePoint(rows[j], rows[j]);
  }

  lemma HistoryKeptItself(rows: map<(int, string), History>, key: Folding)
    ensures HistoryKept(rows, rows, key)
  {
    hide Covered, Attained, Folded;
    forall j | j in rows ensures Covered(rows, j, rows[j], key) && Attained(rows, j, rows[j], key) {
      CoveredByItself(rows, j, key);
    }
  }

  lemma RowsKeptItself<X(!new), V(!new)>(rows: map<(int, X), V>, staying: set<int>, key: Folding)
    ensures RowsKept(rows, rows, staying, key)
  {
    forall k | k in rows ensures CameFrom(rows, k, rows[k], key) { assert SameCell(k, k, key); }
  }

  lemma KeepsItself(s: Tables, key: Folding)
    requires Constraints(s)
    ensures Keeps(s, s, key)
  {
    HistoryKeptItself(s.history, key);
    RowsKeptItself(s.favorites, s.tracks.Keys, key);
    RowsKeptItself(s.playlistTracks, s.tracks.Keys, key);
  }

  lemma RowsKeptTransitive<X(!new), V(!new)>(a: map<(int, X), V>, b: map<(int, X), V>, c: map<(int, X), V>,
                                             stayingB: set<int>, stayingC: set<int>, key: Folding)
    requires RowsKept(a, b, stayingB, key) && RowsKept(b, c, stayingC, key) && stayingC <= stayingB
    ensures RowsKept(a, c, stayingC, key)
  {
    forall k | k in c ensures CameFrom(a, k, c[k], key) {
      assert CameFrom(b, k, c[k], key);
      var i :| i in b && SameCell(i, k, key) && b[i] == c[k];
      assert CameFrom(a, i, b[i], key);
      var j :| j in a && SameCell(j, i, key) && a[j] == b[i];
      assert SameCell(j, k, key);
    }
  }

  lemma AttainedTransitive(a: map<(int, string), History>, b: map<(int, string), History>, k: (int, string),
                           row: History, key: Folding)
    requires AllAttained(a, b, key) && Attained(b, k, row, key)
    ensures Attained(a, k, row, key)
  {
    assert exists i :: i in a && SameCell(i, k, key) && a[i].plays == row.plays by {
      var j :| j in b && SameCell(j, k, key) && b[j].plays == row.plays;
      assert Attained(a, j, b[j], key);
      var i :| i in a && SameCell(i, j, key) && a[i].plays == b[j].plays;
      assert SameCell(i, k, key);
    }
    assert exists i :: i in a && SameCell(i, k, key) && a[i].completed == row.completed by {
      var j :| j in b && SameCell(j, k, key) && b[j].completed == row.completed;
      assert Attained(a, j, b[j], key);
      var i :| i in a && SameCell(i, j, key) && a[i].completed == b[j].completed;
      assert SameCell(i, k, key);
    }
    assert exists i :: i in a && SameCell(i, k, key) && a[i].playedAt == row.playedAt by {
      var j :| j in b && SameCell(j, k, key) && b[j].playedAt == row.playedAt;
      assert Attained(a, j, b[j], key);
      var i :| i in a && SameCell(i, j, key) && a[i].playedAt == b[j].playedAt;
      assert SameCell(i, k, key);
    }
    assert exists i :: i in a && SameCell(i, k, key) && SamePoint(a[i], row) by {
      var j :| j in b && SameCell(j, k, key) && SamePoint(b[j], row);
      assert Attained(a, j, b[j], key);
      var i :| i in a && SameCell(i, j, key) && SamePoint(a[i], b[j]);
      assert SameCell(i, k, key);
    }
  }

  lemma CoveredTransitive(a: map<(int, string), History>, b: map<(int, string), History>,
                          c: map<(int, string), History>, key: Folding)
    requires AllCovered(a, b, key) && AllCovered(b, c, key)
    ensures AllCovered(a, c, key)
  {
    forall j | j in a ensures Covered(c, j, a[j], key) {
      assert Covered(b, j, a[j], key);
      var i :| i in b && SameCell(j, i, key) && Covers(b[i], a[j]);
      assert Covered(c, i, b[i], key);
      var k :| k in c && SameCell(i, k, key) && Covers(c[k], b[i]);
      CoversTransitive(c[k], b[i], a[j]);
      assert SameCell(j, k, key);
    }
  }

  lemma HistoryKeptTransitive(a: map<(int, string), History>, b: map<(int, string), History>,
                              c: map<(int, string), History>, key: Folding)
    requires HistoryKept(a, b, key) && HistoryKept(b, c, key)
    ensures HistoryKept(a, c, key)
  {
    CoveredTransitive(a, b, c, key);
    forall k | k in c ensures Attained(a, k, c[k], key) {
      assert Attained(b, k, c[k], key);
      AttainedTransitive(a, b, k, c[k], key);
    }
  }

  lemma TracksKeptTransitive(a: map<int, Track>, b: map<int, Track>, c: map<int, Track>, key: Folding)
    requires TracksKept(a, b, key) && TracksKept(b, c, key)
    ensures TracksKept(a, c, key)
  {
    forall t | t in a ensures Represented(c, t, a[t].available, key) {
      assert Represented(b, t, a[t].available, key);
      var v :| v in b && key(v) == key(t) && (a[t].available ==> b[v].available);
      assert Represented(c, v, b[v].available, key);
      var u :| u in c && key(u) == key(v) && (b[v].available ==> c[u].available);
    }
  }

  lemma KeepsTransitive(a: Tables, b: Tables, c: Tables, key: Folding)
    requires Keeps(a, b, key) && Keeps(b, c, key)
    ensures Keeps(a, c, key)
  {
    TracksKeptTransitive(a.tracks, b.tracks, c.tracks, key);
    RowsKeptTransitive(a.favorites, b.favorites, c.favorites, b.tracks.Keys, c.tracks.Keys, key);
    RowsKeptTransitive(a.playlistTracks, b.playlistTracks, c.playlistTracks, b.tracks.Keys, c.tracks.Keys, key);
    HistoryKeptTransitive(a.history, b.history, c.history, key);
  }

  // ---- One loser ----

  lemma RenamingKeepsFolded<X(!new)>(ks: set<(int, X)>, survivor: int, loser: int, key: Folding)
    requires key(survivor) == key(loser)
    ensures Folded(RenamedKeys(ks, survivor, loser), key) == Folded(ks, key)
  {
    var rs := RenamedKeys(ks, survivor, loser);
    forall c | c in Folded(ks, key) ensures c in Folded(rs, key) {
      var k :| k in ks && c == (key(k.0), k.1);
      assert Renamed(k, survivor, loser) in rs;
    }
    forall c | c in Folded(rs, key) ensures c in Folded(ks, key) {
      var r :| r in rs && c == (key(r.0), r.1);
      var k :| k in ks && r == Renamed(k, survivor, loser);
    }
  }

  lemma TakeOverKeeps<X(!new), V(!new)>(rows: map<(int, X), V>, survivor: int, loser: int, staying: set<int>,
                                        key: Folding)
    requires survivor != loser && key(survivor) == key(loser) && loser !in staying
    ensures RowsKept(rows, TakeOver(rows, survivor, loser), staying, key)
  {
    var r := TakeOver(rows, survivor, loser);
    TakeOverKeys(rows, survivor, loser);
    RenamingKeepsFolded(rows.Keys, survivor, loser, key);
    forall k | k in r ensures CameFrom(rows, k, r[k], key) {
      var j := if k in rows then k else (loser, k.1);
      assert SameCell(j, k, key) && rows[j] == r[k];
    }
  }

  lemma MergedHistoryCovers(row: History, excluded: History)
    ensures Covers(MergeHistory(row, excluded), row) && Covers(MergeHistory(row, excluded), excluded)
    ensures var m := MergeHistory(row, excluded);
            && (m.plays == row.plays || m.plays == excluded.plays)
            && (m.completed == row.completed || m.completed == excluded.completed)
            && (m.playedAt == row.playedAt || m.playedAt == excluded.playedAt)
            && (SamePoint(m, row) || SamePoint(m, excluded))
  {
    CoversItself(row);
    CoversItself(excluded);
    MaxIsUpperBound(row.updatedAt, excluded.updatedAt);
    LeTotal(Coalesce(row.playedAt), Coalesce(excluded.playedAt));
  }

  lemma FoldHistoryCovers(rows: map<(int, string), History>, survivor: int, loser: int, key: Folding)
    requires survivor != loser && key(survivor) == key(loser)
    ensures AllCovered(rows, FoldHistory(rows, survivor, loser), key)
  {
    var r := FoldHistory(rows, survivor, loser);
    FoldHistoryKeys(rows, survivor, loser);
    forall j | j in rows ensures Covered(r, j, rows[j], key) {
      var k := Renamed(j, survivor, loser);
      assert k in r && SameCell(j, k, key);
      CoversItself(rows[j]);
      if (loser, j.1) in rows && (survivor, j.1) in rows {
        MergedHistoryCovers(rows[(survivor, j.1)], rows[(loser, j.1)]);
      }
    }
  }

  lemma FoldHistoryAttains(rows: map<(int, string), History>, survivor: int, loser: int, key: Folding)
    requires survivor != loser && key(survivor) == key(loser)
    ensures AllAttained(rows, FoldHistory(rows, survivor, loser), key)
  {
    var r := FoldHistory(rows, survivor, loser);
    forall k | k in r ensures Attained(rows, k, r[k], key) {
      var other := (loser, k.1);
      assert SameCell(k, k, key);
      if k.0 == survivor && other in rows {
        assert SameCell(other, k, key);
        if k in rows {
          MergedHistoryCovers(rows[k], rows[other]);
          assert SamePoint(rows[k], r[k]) || SamePoint(rows[other], r[k]);
        } else {
          assert SamePoint(rows[other], r[k]);
        }
      } else {
        assert SamePoint(rows[k], r[k]);
      }
    }
  }

  lemma FoldHistoryKeeps(rows: map<(int, string), History>, survivor: int, loser: int, key: Folding)
    requires survivor != loser && key(survivor) == key(loser)
    ensures HistoryKept(rows, FoldHistory(rows, survivor, loser), key)
  {
    FoldHistoryKeys(rows, survivor, loser);
    RenamingKeepsFolded(rows.Keys, survivor, loser, key);
    FoldHistoryCovers(rows, survivor, loser, key);
    FoldHistoryAttains(rows, survivor, loser, key);
  }
}
