// What a listener sees: a list of tracks with a cursor. Every operation of the play queue
// is the plain list operation, in every mode.
module PlayList {
  import opened Text
  import opened Sequences
  import opened FisherYates
  import opened PlayQueue

  // `entered`: the tracks in order of entry; `playing`: in the order they will be played.
  datatype Playlist = Playlist(entered: seq<Song>, playing: seq<Song>, cursor: int, mode: Mode)

  ghost function Seen(p: Player): Playlist
    requires Valid(p)
  {
    Playlist(p.queue, View(p), p.position, p.mode)
  }

  // ---- The list operations ----

  ghost function AppendList(l: Playlist, added: seq<Song>): Playlist {
    l.(entered := l.entered + added, playing := l.playing + added,
       cursor := if l.cursor < 0 && added != [] then 0 else l.cursor)
  }

  ghost function RemoveList(l: Playlist, id: string): Playlist {
    var e, i := IndexOf(l.entered, id), IndexOf(l.playing, id);
    if e < 0 || i < 0 then l
    else
      l.(entered := Drop(l.entered, e), playing := Drop(l.playing, i),
         cursor := if i < l.cursor then l.cursor - 1
                   else if i > l.cursor || i + 1 < |l.playing| then l.cursor
                   else if |l.playing| > 1 then 0 else -1)
  }

  ghost function SelectList(l: Playlist, id: string): Playlist {
    var i := IndexOf(l.playing, id);
    if i < 0 then l else l.(cursor := i)
  }

  // Where the element at `cursor` goes when the one at `source` moves to `target`.
  function CursorAfterMove(cursor: int, source: int, target: int): int {
    if cursor == source then target
    else if source < cursor <= target then cursor - 1
    else if target <= cursor < source then cursor + 1
    else cursor
  }

  ghost function MoveList(l: Playlist, id: string, target: int): Playlist {
    var source := IndexOf(l.playing, id);
    if source < 0 || |l.playing| < 2 || source == Clamped(target, |l.playing|) then l
    else
      var bounded := Clamped(target, |l.playing|);
      var moved := MoveWithin(l.playing, source, bounded);
      Playlist(moved, moved, CursorAfterMove(l.cursor, source, bounded), Normal)
  }

  // ---- Views and ids ----

  lemma ViewIdsDiffer(p: Player)
    requires Valid(p)
    ensures DistinctIds(View(p))
  {
    forall i, j | 0 <= i < j < |View(p)| ensures View(p)[i].id != View(p)[j].id {
      assert p.order[i] != p.order[j];
    }
  }

  lemma IndexOfUnique(queue: seq<Song>, i: nat)
    requires DistinctIds(queue) && i < |queue|
    ensures IndexOf(queue, queue[i].id) == i
  {
  }

  lemma PositionOfUnique(order: seq<int>, i: nat)
    requires Distinct(order) && i < |order|
    ensures PositionOf(order, order[i]) == i
  {
  }

  // Looking a track up in the queue and then in the order is looking it up in the view.
  lemma FindInView(p: Player, id: string)
    requires Valid(p)
    ensures var q := IndexOf(p.queue, id); var i := IndexOf(View(p), id);
            (q < 0 <==> i < 0) && (q >= 0 ==> PositionOf(p.order, q) == i)
  {
    var q, i := IndexOf(p.queue, id), IndexOf(View(p), id);
    ViewIdsDiffer(p);
    if q >= 0 {
      assert q in p.order;
      var k :| 0 <= k < |p.order| && p.order[k] == q;
      PositionOfUnique(p.order, k);
      assert View(p)[k].id == id;
      IndexOfUnique(View(p), k);
    }
    if i >= 0 {
      assert p.queue[p.order[i]].id == id;
    }
  }

  lemma ViewOfIdentity(queue: seq<Song>, position: int, mode: Mode, calls: nat)
    ensures View(Player(queue, Identity(|queue|), position, mode, calls)) == queue
  {
  }

  // ---- Append ----

  lemma AppendKeepsIds(queue: seq<Song>, values: seq<Option<Song>>)
    requires DistinctIds(queue)
    ensures DistinctIds(queue + Fresh(Ids(queue), values))
  {
    var added := Fresh(Ids(queue), values);
    FreshIsDistinct(Ids(queue), values);
    forall i, j | 0 <= i < |queue| && 0 <= j < |added| ensures queue[i].id != added[j].id {
      assert queue[i].id in Ids(queue);
    }
  }

  lemma ExtendedOrder(order: seq<int>, n: nat, m: nat)
    requires IsOrder(order, n)
    ensures IsOrder(order + NewIndices(n, m), n + m)
    ensures order == Identity(n) ==> order + NewIndices(n, m) == Identity(n + m)
  {
    var r := order + NewIndices(n, m);
    forall q | 0 <= q < n + m ensures q in r {
      if q >= n { assert r[q] == q; } else { assert q in order; }
    }
  }

  lemma AppendRefines(p: Player, values: seq<Option<Song>>)
    requires Valid(p)
    ensures Valid(Append(p, values))
    ensures Seen(Append(p, values)) == AppendList(Seen(p), Fresh(Ids(p.queue), values))
  {
    var added := Fresh(Ids(p.queue), values);
    AppendKeepsIds(p.queue, values);
    ExtendedOrder(p.order, |p.queue|, |added|);
    var r := Append(p, values);
    assert Valid(r);
    assert View(r) == View(p) + added;
  }

  // ---- Remove ----

  function Shifted(order: seq<int>, q: int): (r: seq<int>)
    ensures |r| == |order| && forall k :: 0 <= k < |r| ==> r[k] == if order[k] > q then order[k] - 1 else order[k]
  {
    seq(|order|, k requires 0 <= k < |order| => if order[k] > q then order[k] - 1 else order[k])
  }

  lemma {:induction false} RenumberOthers(order: seq<int>, q: int)
    requires q !in order
    ensures Renumber(order, q) == Shifted(order, q)
  {
    if order != [] { RenumberOthers(order[1..], q); }
  }

  lemma ShiftedCons(x: int, rest: seq<int>, q: int)
    ensures Shifted([x] + rest, q) == [if x > q then x - 1 else x] + Shifted(rest, q)
  {
  }

  lemma DropCons<T>(s: seq<T>, i: nat)
    requires 0 < i < |s|
    ensures Drop(s, i) == [s[0]] + Drop(s[1..], i - 1)
  {
  }

  lemma {:induction false} RenumberDrops(order: seq<int>, i: nat)
    requires Distinct(order) && i < |order|
    ensures Renumber(order, order[i]) == Shifted(Drop(order, i), order[i])
  {
    hide Shifted, Drop;
    var q, rest := order[i], order[1..];
    if i == 0 {
      assert rest == Drop(order, 0);
      RenumberOthers(rest, q);
    } else {
      assert order[0] != q && rest[i - 1] == q;
      RenumberDrops(rest, i - 1);
      DropCons(order, i);
      ShiftedCons(order[0], Drop(rest, i - 1), q);
    }
  }

  lemma ShiftedOrder(order: seq<int>, i: nat, n: nat)
    requires IsOrder(order, n) && i < n
    ensures IsOrder(Shifted(Drop(order, i), order[i]), n - 1)
  {
    var q, d := order[i], Drop(order, i);
    var r := Shifted(d, q);
    forall k | 0 <= k < |d| ensures d[k] != q && 0 <= d[k] < n {}
    forall j, k | 0 <= j < k < |r| ensures r[j] != r[k] {
      assert d[j] != d[k];
    }
    forall x | 0 <= x < n - 1 ensures x in r {
      var y := if x < q then x else x + 1;
      assert y in order;
      var k :| 0 <= k < |order| && order[k] == y;
      assert d[if k < i then k else k - 1] == y;
      assert r[if k < i then k else k - 1] == x;
    }
  }

  lemma IdentityDrop(n: nat, i: nat)
    requires i < n
    ensures Shifted(Drop(Identity(n), i), i) == Identity(n - 1)
  {
  }

  lemma DropKeepsIds(queue: seq<Song>, q: nat)
    requires DistinctIds(queue) && q < |queue|
    ensures DistinctIds(Drop(queue, q))
  {
  }

  // Reading the shortened queue through the renumbered order.
  lemma DropView(p: Player, r: Player, i: nat)
    requires Valid(p) && i < |p.order|
    requires r.queue == Drop(p.queue, p.order[i]) && r.order == Shifted(Drop(p.order, i), p.order[i])
    ensures forall k :: 0 <= k < |r.order| ==> 0 <= r.order[k] < |r.queue|
    ensures View(r) == Drop(View(p), i)
  {
    var q := p.order[i];
    forall k | 0 <= k < |r.order| ensures 0 <= r.order[k] < |r.queue| && r.queue[r.order[k]] == Drop(View(p), i)[k] {
      var o := Drop(p.order, i)[k];
      assert o != q && 0 <= o < |p.queue|;
    }
  }

  // Remove, spelled out for a track at place i of the view.
  lemma RemovedPlayer(p: Player, id: string, i: nat)
    requires Valid(p) && IndexOf(View(p), id) == i
    ensures IndexOf(p.queue, id) == p.order[i]
    ensures Remove(p, id) ==
      p.(queue := Drop(p.queue, p.order[i]), order := Shifted(Drop(p.order, i), p.order[i]),
         position := if i < p.position then p.position - 1
                     else if i > p.position || i + 1 < |p.order| then p.position
                     else if |p.order| > 1 then 0 else -1)
  {
    hide Renumber, Shifted, DistinctIds, Onto, Distinct, IndexOf, PositionOf, Drop;
    FindInView(p, id);
    OrderIsDistinct(p);
    RenumberDrops(p.order, i);
  }

  lemma RemovedIsValid(p: Player, id: string, i: nat)
    requires Valid(p) && IndexOf(View(p), id) == i
    ensures Valid(Remove(p, id))
  {
    hide Remove, Shifted, DistinctIds, Onto, Distinct, IndexOf, Drop;
    RemovedPlayer(p, id, i);
    ShiftedOrder(p.order, i, |p.queue|);
    IdentityDrop(|p.queue|, i);
    DropKeepsIds(p.queue, p.order[i]);
  }

  lemma RemoveRefines(p: Player, id: string)
    requires Valid(p)
    ensures Valid(Remove(p, id))
    ensures Seen(Remove(p, id)) == RemoveList(Seen(p), id)
  {
    hide Renumber, Shifted, DistinctIds, Onto, Distinct, IndexOf, PositionOf, Drop;
    FindInView(p, id);
    var i := IndexOf(View(p), id);
    if i >= 0 {
      RemovedPlayer(p, id, i);
      RemovedIsValid(p, id, i);
      DropView(p, Remove(p, id), i);
    }
  }

  lemma OrderIsDistinct(p: Player)
    requires Valid(p)
    ensures Distinct(p.order)
  {
  }

  // ---- Select ----

  lemma SelectRefines(p: Player, id: string)
    requires Valid(p)
    ensures Valid(Select(p, id))
    ensures Seen(Select(p, id)) == SelectList(Seen(p), id)
  {
    FindInView(p, id);
  }

  // ---- Move ----

  lemma MoveWithinAt<T>(s: seq<T>, source: nat, target: nat, k: nat)
    requires source < |s| && target < |s| && k < |s|
    ensures 0 <= CursorAfterMove(k, source, target) < |s|
    ensures MoveWithin(s, source, target)[CursorAfterMove(k, source, target)] == s[k]
  {
  }

  // The moved element stands at the target, the others keep their order.
  lemma MoveTakesOneOut<T>(s: seq<T>, source: nat, target: nat)
    requires source < |s| && target < |s|
    ensures MoveWithin(s, source, target)[target] == s[source]
    ensures Drop(MoveWithin(s, source, target), target) == Drop(s, source)
  {
  }

  lemma MoveKeepsIds(v: seq<Song>, source: nat, target: nat)
    requires DistinctIds(v) && source < |v| && target < |v|
    ensures DistinctIds(MoveWithin(v, source, target))
  {
    hide MoveWithin, Origin;
    var r := MoveWithin(v, source, target);
    forall i, j | 0 <= i < j < |r| ensures r[i].id != r[j].id {
      var a, b := Origin(|v|, source, target, i), Origin(|v|, source, target, j);
      MoveWithinAt(v, source, target, a);
      MoveWithinAt(v, source, target, b);
      assert r[i] == v[a] && r[j] == v[b] && a != b;
    }
  }

  // Which element stands at k after the move.
  ghost function Origin(n: nat, source: nat, target: nat, k: nat): (o: nat)
    requires source < n && target < n && k < n
    ensures o < n && CursorAfterMove(o, source, target) == k
  {
    CursorAfterMove(k, target, source)
  }

  lemma MoveRefines(p: Player, id: string, target: int)
    requires Valid(p)
    ensures Valid(Move(p, id, target))
    ensures Seen(Move(p, id, target)) == MoveList(Seen(p), id, target)
  {
    var v := View(p);
    var source := IndexOf(v, id);
    if source >= 0 && |p.order| >= 2 && source != Clamped(target, |p.order|) {
      var bounded := Clamped(target, |p.order|);
      var queue := MoveWithin(v, source, bounded);
      ViewIdsDiffer(p);
      MoveKeepsIds(v, source, bounded);
      MoveWithinAt(v, source, bounded, p.position);
      IndexOfUnique(queue, CursorAfterMove(p.position, source, bounded));
      IdentityIsOrder(|queue|);
      var r := Move(p, id, target);
      ViewOfIdentity(queue, r.position, Normal, r.calls);
    }
  }

  // ---- Mode changes ----

  lemma OthersAre(n: nat, active: int)
    requires 0 <= active < n
    ensures |Others(n, active)| == n - 1 && Distinct(Others(n, active))
    ensures forall x :: x in Others(n, active) <==> 0 <= x < n && x != active
  {
    var r := Others(n, active);
    forall k | 0 <= k < n - 1 ensures r[k] == if k < active then k else k + 1 {}
    forall x | 0 <= x < n && x != active ensures x in r {
      assert r[if x < active then x else x - 1] == x;
    }
  }

  lemma ShuffledOrder(n: nat, active: int, rest: seq<int>)
    requires 0 <= active < n && multiset(rest) == multiset(Others(n, active))
    ensures IsOrder([active] + rest, n)
  {
    OthersAre(n, active);
    DistinctPermutation(Others(n, active), rest);
    forall x ensures x in rest <==> 0 <= x < n && x != active {
      assert x in rest <==> x in multiset(rest);
      assert x in multiset(rest) <==> x in Others(n, active);
    }
    var order := [active] + rest;
    forall i | 0 <= i < n ensures 0 <= order[i] < n && (i > 0 ==> order[i] != active) {
      if i > 0 { assert order[i] in rest; }
    }
    forall q | 0 <= q < n ensures q in order {
      if q == active { assert order[0] == q; } else { assert q in rest; }
    }
  }

  // A mode change keeps the tracks and the current track. Entering shuffle puts the current
  // track first and the others behind it in some order; leaving it restores order of entry.
  lemma ModeRefines(p: Player, next: Mode, random: nat -> Candidate)
    requires Valid(p)
    ensures var r := SetMode(p, next, random);
            && Valid(r) && r.mode == next && r.queue == p.queue && Current(r) == Current(p)
            && (p.mode != next && next == Shuffling && p.queue != [] ==> r.position == 0)
            && (next != Shuffling ==> View(r) == r.queue)
            && r.calls == p.calls + if p.mode != next && next == Shuffling && |p.queue| > 2 then |p.queue| - 2 else 0
  {
    hide Onto, Distinct, DistinctIds, Shuffled, Drawn, Others;
    var r := SetMode(p, next, random);
    IdentityIsOrder(|p.queue|);
    if p.mode != next && p.queue != [] && next == Shuffling {
      var active := p.order[p.position];
      var remaining := Others(|p.queue|, active);
      ShuffledPermutes(remaining, Drawn(random, p.calls, |remaining|));
      ShuffledOrder(|p.queue|, active, Shuffled(remaining, Drawn(random, p.calls, |remaining|)));
    }
  }

  lemma RebuildIgnoresTheMode(p: Player, normal: Player, random: nat -> Candidate)
    requires Valid(p) && Valid(normal) && normal == p.(mode := Normal) && p.mode == Shuffling
    ensures SetMode(normal, Shuffling, random) == Rebuild(p, Shuffling, random)
  {
    hide Valid, Shuffled, Drawn;
  }

  lemma SetQueueRefines(p: Player, values: seq<Option<Song>>, start: string, random: nat -> Candidate)
    requires Valid(p)
    ensures var r := SetQueue(p, values, start, random); var queue := Fresh({}, values);
            && Valid(r) && r.mode == p.mode && r.queue == queue
            && (queue == [] ==> Current(r) == None)
            && (queue != [] ==>
                  Current(r) == Some(queue[if IndexOf(queue, start) >= 0 then IndexOf(queue, start) else 0]))
            && (queue != [] && p.mode == Shuffling ==> r.position == 0)
            && (p.mode != Shuffling ==> View(r) == queue)
  {
    hide Onto, Distinct, DistinctIds, Fresh, IndexOf, Rebuild;
    var queue := Fresh({}, values);
    FreshIsDistinct({}, values);
    IdentityIsOrder(|queue|);
    var requested := IndexOf(queue, start);
    var q := p.(queue := queue, order := Identity(|queue|),
                position := if requested >= 0 then requested else if queue != [] then 0 else -1);
    if p.mode == Shuffling && queue != [] {
      var normal := q.(mode := Normal);
      ModeRefines(normal, Shuffling, random);
      RebuildIgnoresTheMode(q, normal, random);
    }
  }
}
