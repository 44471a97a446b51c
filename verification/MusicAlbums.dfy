// The album half of the path migration: albums with one folded path are folded into the
// one with the most tracks; artist links are appended, tracks re-pointed, losers deleted.
module MusicAlbums {
  import opened Sequences
  import opened MusicTables

  // ---- Artist lists ----

  ghost predicate Lists(rows: map<(int, int), nat>, album: int, artists: set<int>, l: seq<int>) {
    && (forall i :: 0 <= i < |l| ==> (album, l[i]) in rows && l[i] in artists)
    && (forall i, j :: 0 <= i < j < |l| ==> rows[(album, l[i])] < rows[(album, l[j])])
    && (forall a :: a in artists ==> a in l)
  }

  // The artists of an album by rising position
  ghost predicate IsArtistList(rows: map<(int, int), nat>, album: int, l: seq<int>) {
    Lists(rows, album, RowsOf(rows, album), l)
  }

  lemma ListsSameFirst(rows: map<(int, int), nat>, album: int, artists: set<int>, a: seq<int>, b: seq<int>)
    requires Lists(rows, album, artists, a) && Lists(rows, album, artists, b)
    ensures (|a| > 0 <==> |b| > 0) && (|a| > 0 ==> a[0] == b[0])
  {
    if |a| > 0 {
      var x: int := a[0];
      assert x in artists && x in b;
    }
    if |b| > 0 {
      var x: int := b[0];
      assert x in artists && x in a;
    }
  }

  lemma ListsTail(rows: map<(int, int), nat>, album: int, artists: set<int>, l: seq<int>)
    requires Lists(rows, album, artists, l) && l != []
    ensures Lists(rows, album, artists - {l[0]}, l[1..])
  {
    forall a | a in artists - {l[0]} ensures a in l[1..] {
      var i :| 0 <= i < |l| && l[i] == a;
      assert l[1..][i - 1] == a;
    }
  }

  lemma {:induction false} ListIsUnique(rows: map<(int, int), nat>, album: int, artists: set<int>, a: seq<int>,
                                        b: seq<int>)
    requires Lists(rows, album, artists, a) && Lists(rows, album, artists, b)
    ensures a == b
  {
    ListsSameFirst(rows, album, artists, a, b);
    if a != [] {
      ListsTail(rows, album, artists, a);
      ListsTail(rows, album, artists, b);
      ListIsUnique(rows, album, artists - {a[0]}, a[1..], b[1..]);
      assert a == [a[0]] + a[1..] && b == [b[0]] + b[1..];
    }
  }

  lemma {:induction false} LastArtist(rows: map<(int, int), nat>, album: int, artists: set<int>, some: int)
    returns (last: int)
    requires some in artists && forall a :: a in artists ==> (album, a) in rows
    ensures last in artists && forall a :: a in artists ==> rows[(album, a)] <= rows[(album, last)]
    decreases |artists|
  {
    last := some;
    var rest := artists - {some};
    if next :| next in rest {
      var best := LastArtist(rows, album, rest, next);
      if rows[(album, some)] < rows[(album, best)] { last := best; }
    }
    forall a | a in artists ensures rows[(album, a)] <= rows[(album, last)] {
      assert a == some || a in rest;
    }
  }

  lemma PositionsDiffer(rows: map<(int, int), nat>, album: int, a: int, b: int)
    requires OneArtistPerPosition(rows) && (album, a) in rows && (album, b) in rows && a != b
    ensures rows[(album, a)] != rows[(album, b)]
  {
  }

  lemma {:induction false} ListExists(rows: map<(int, int), nat>, album: int, artists: set<int>) returns (l: seq<int>)
    requires OneArtistPerPosition(rows) && forall a :: a in artists ==> (album, a) in rows
    ensures Lists(rows, album, artists, l)
    decreases |artists|
  {
    hide OneArtistPerPosition;
    l := [];
    if some :| some in artists {
      var last := LastArtist(rows, album, artists, some);
      var front := ListExists(rows, album, artists - {last});
      l := front + [last];
      forall i | 0 <= i < |front| ensures rows[(album, front[i])] < rows[(album, last)] {
        var a: int := front[i];
        assert a in artists - {last};
        PositionsDiffer(rows, album, a, last);
      }
      forall a | a in artists ensures a in l {
        if a != last { assert a in artists - {last}; }
      }
    }
  }

  ghost function ArtistList(rows: map<(int, int), nat>, album: int): (l: seq<int>)
    ensures OneArtistPerPosition(rows) ==> IsArtistList(rows, album, l)
  {
    if exists l :: IsArtistList(rows, album, l) then (var l :| IsArtistList(rows, album, l); l) else
      assert !OneArtistPerPosition(rows) by {
        if OneArtistPerPosition(rows) {
          var l := ListExists(rows, album, RowsOf(rows, album));
          assert IsArtistList(rows, album, l);
        }
      }
      []
  }

  // The position behind the last artist of an album, 0 when it has none
  ghost predicate IsNextPosition(rows: map<(int, int), nat>, album: int, n: nat) {
    && (forall a :: a in RowsOf(rows, album) ==> rows[(album, a)] < n)
    && (n > 0 ==> exists a :: a in RowsOf(rows, album) && rows[(album, a)] == n - 1)
  }

  lemma NextPositionExists(rows: map<(int, int), nat>, album: int) returns (n: nat)
    ensures IsNextPosition(rows, album, n)
  {
    n := 0;
    if some :| some in RowsOf(rows, album) {
      var last := LastArtist(rows, album, RowsOf(rows, album), some);
      n := rows[(album, last)] + 1;
    }
  }

  ghost function NextPosition(rows: map<(int, int), nat>, album: int): (n: nat)
    ensures IsNextPosition(rows, album, n)
  {
    assert exists n :: IsNextPosition(rows, album, n) by {
      var n := NextPositionExists(rows, album);
    }
    var n :| IsNextPosition(rows, album, n);
    n
  }

  // One pass of the artist loop: known artists are skipped, new ones go behind the last.
  ghost function AddArtist(rows: map<(int, int), nat>, album: int, artist: int): map<(int, int), nat> {
    if (album, artist) in rows then rows else rows[(album, artist) := NextPosition(rows, album)]
  }

  ghost function AddArtists(rows: map<(int, int), nat>, album: int, l: seq<int>): map<(int, int), nat>
    decreases |l|
  {
    if l == [] then rows else AddArtists(AddArtist(rows, album, l[0]), album, l[1..])
  }

  // ---- First-occurrence de-duplication ----

  function AppendNew(l: seq<int>, more: seq<int>): seq<int>
    decreases |more|
  {
    if more == [] then l
    else AppendNew(if more[0] in l then l else l + [more[0]], more[1..])
  }

  function FirstOccurrences(l: seq<int>): seq<int> {
    AppendNew([], l)
  }

  lemma {:induction false} AppendNewConcat(l: seq<int>, a: seq<int>, b: seq<int>)
    ensures AppendNew(l, a + b) == AppendNew(AppendNew(l, a), b)
    decreases |a|
  {
    if a == [] {
      assert a + b == b;
    } else {
      assert (a + b)[0] == a[0] && (a + b)[1..] == a[1..] + b;
      AppendNewConcat(if a[0] in l then l else l + [a[0]], a[1..], b);
    }
  }

  lemma {:induction false} AppendNewDistinct(l: seq<int>, more: seq<int>)
    requires Distinct(l + more)
    ensures AppendNew(l, more) == l + more
    decreases |more|
  {
    if more == [] {
      assert l + more == l;
    } else {
      assert (l + more)[|l|] == more[0];
      forall i | 0 <= i < |l| ensures l[i] != more[0] { assert (l + more)[i] == l[i]; }
      assert (l + [more[0]]) + more[1..] == l + more;
      AppendNewDistinct(l + [more[0]], more[1..]);
    }
  }

  // Appending the unknown artists is de-duplicating the concatenation.
  lemma AppendNewIsFirstOccurrences(l: seq<int>, more: seq<int>)
    requires Distinct(l)
    ensures AppendNew(l, more) == FirstOccurrences(l + more)
  {
    AppendNewConcat([], l, more);
    assert [] + l == l;
    AppendNewDistinct([], l);
  }

  lemma AddArtistAppends(rows: map<(int, int), nat>, album: int, artist: int, l: seq<int>)
    requires IsArtistList(rows, album, l)
    ensures IsArtistList(AddArtist(rows, album, artist), album, AppendNew(l, [artist]))
  {
    var r := AddArtist(rows, album, artist);
    if (album, artist) in rows {
      assert artist in RowsOf(rows, album);
    } else {
      assert artist !in l;
      var m := l + [artist];
      assert AppendNew(l, [artist]) == AppendNew(m, []);
      forall a | a in RowsOf(r, album) ensures a in m {
        if a != artist { assert a in RowsOf(rows, album); assert a in l; }
      }
      forall i | 0 <= i < |l| ensures l[i] in RowsOf(r, album) && r[(album, l[i])] < r[(album, artist)] {
        var a: int := l[i];
        assert a in RowsOf(rows, album) && a in RowsOf(r, album);
      }
      assert artist in RowsOf(r, album);
    }
  }

  lemma {:induction false} AddArtistsAppends(rows: map<(int, int), nat>, album: int, l: seq<int>, more: seq<int>)
    requires IsArtistList(rows, album, l)
    ensures IsArtistList(AddArtists(rows, album, more), album, AppendNew(l, more))
    decreases |more|
  {
    if more != [] {
      AddArtistAppends(rows, album, more[0], l);
      AddArtistsAppends(AddArtist(rows, album, more[0]), album, AppendNew(l, [more[0]]), more[1..]);
      assert more == [more[0]] + more[1..];
      AppendNewConcat(l, [more[0]], more[1..]);
    }
  }

  lemma {:induction false} AddArtistsFrame(rows: map<(int, int), nat>, album: int, l: seq<int>, other: int)
    requires other != album
    ensures var r := AddArtists(rows, album, l);
            && RowsOf(r, other) == RowsOf(rows, other)
            && forall a :: a in RowsOf(rows, other) ==> r[(other, a)] == rows[(other, a)]
    decreases |l|
  {
    if l != [] {
      AddArtistsFrame(AddArtist(rows, album, l[0]), album, l[1..], other);
      assert RowsOf(AddArtist(rows, album, l[0]), other) == RowsOf(rows, other);
    }
  }

  lemma SameRowsSameList(rows: map<(int, int), nat>, r: map<(int, int), nat>, album: int, l: seq<int>)
    requires RowsOf(r, album) == RowsOf(rows, album)
    requires forall a :: a in RowsOf(rows, album) ==> r[(album, a)] == rows[(album, a)]
    requires IsArtistList(rows, album, l)
    ensures IsArtistList(r, album, l)
  {
    forall i | 0 <= i < |l| ensures (album, l[i]) in r && r[(album, l[i])] == rows[(album, l[i])] {
      var a: int := l[i];
      assert a in RowsOf(rows, album);
    }
  }
}
