// The play queue as its code keeps it (tracks in order of entry, an order of indices, a
// cursor, a mode) and the list with a cursor that a listener sees.
module PlayQueue {
  import opened Text
  import opened Sequences
  import opened FisherYates

  // A track accepted by normalizeTrack: its id is a non-empty trimmed text.
  datatype Track = Track(id: string, rest: string)
  type Song = t: Track | t.id != "" witness Track("track", "")

  datatype Mode = Normal | Shuffling | Repeat | RepeatOne

  function NextMode(mode: Mode): Mode {
    match mode
    case Normal => Shuffling
    case Shuffling => Repeat
    case Repeat => RepeatOne
    case RepeatOne => Normal
  }

  // `calls` counts how often the random source was asked.
  datatype Player = Player(queue: seq<Song>, order: seq<int>, position: int, mode: Mode, calls: nat)

  // ---- Well-formed states ----

  function Identity(n: nat): (r: seq<int>)
    ensures |r| == n && forall i :: 0 <= i < n ==> r[i] == i
  {
    seq(n, i => i)
  }

  // A permutation of 0..n-1
  ghost predicate IsOrder(order: seq<int>, n: nat) {
    && |order| == n
    && (forall i :: 0 <= i < n ==> 0 <= order[i] < n)
    && Distinct(order)
    && Onto(order, n)
  }

  ghost predicate Onto(order: seq<int>, n: nat) {
    forall q :: 0 <= q < n ==> q in order
  }

  ghost predicate DistinctIds(queue: seq<Song>) {
    forall i, j :: 0 <= i < j < |queue| ==> queue[i].id != queue[j].id
  }

  ghost predicate Valid(p: Player) {
    && DistinctIds(p.queue)
    && IsOrder(p.order, |p.queue|)
    && (p.queue == [] ==> p.position == -1)
    && (p.queue != [] ==> 0 <= p.position < |p.queue|)
    && (p.mode != Shuffling ==> p.order == Identity(|p.queue|))
  }

  // ---- Reading ----

  // Where the first track with this id is, -1 when there is none
  function IndexOf(queue: seq<Song>, id: string): (i: int)
    ensures -1 <= i < |queue|
    ensures i >= 0 ==> queue[i].id == id && forall k :: 0 <= k < i ==> queue[k].id != id
    ensures i < 0 ==> forall k :: 0 <= k < |queue| ==> queue[k].id != id
  {
    if queue == [] then -1
    else if queue[0].id == id then 0
    else
      var r := IndexOf(queue[1..], id);
      if r < 0 then -1 else r + 1
  }

  // Where the order lists the index q first, -1 when it does not
  function PositionOf(order: seq<int>, q: int): (i: int)
    ensures -1 <= i < |order|
    ensures i >= 0 ==> order[i] == q
    ensures i < 0 ==> q !in order
  {
    if order == [] then -1
    else if order[0] == q then 0
    else
      var r := PositionOf(order[1..], q);
      if r < 0 then -1 else r + 1
  }

  // The queue read through the order.
  function View(p: Player): (v: seq<Song>)
    requires forall i :: 0 <= i < |p.order| ==> 0 <= p.order[i] < |p.queue|
    ensures |v| == |p.order| && forall i :: 0 <= i < |v| ==> v[i] == p.queue[p.order[i]]
  {
    seq(|p.order|, i requires 0 <= i < |p.order| => p.queue[p.order[i]])
  }

  function Current(p: Player): Option<Song>
    requires Valid(p)
  {
    if p.position < 0 then None else Some(p.queue[p.order[p.position]])
  }

  // ---- Operations, as coded ----

  // The values that appendTracks and setQueue accept: valid, and new by id.
  function Fresh(seen: set<string>, values: seq<Option<Song>>): seq<Song>
    decreases |values|
  {
    if values == [] then []
    else if values[0].None? || values[0].value.id in seen then Fresh(seen, values[1..])
    else [values[0].value] + Fresh(seen + {values[0].value.id}, values[1..])
  }

  function Ids(queue: seq<Song>): set<string> {
    set t | t in queue :: t.id
  }

  // The indices of m tracks pushed behind n others.
  function NewIndices(n: nat, m: nat): (r: seq<int>)
    ensures |r| == m && forall i :: 0 <= i < m ==> r[i] == n + i
  {
    seq(m, i => n + i)
  }

  function Append(p: Player, values: seq<Option<Song>>): Player {
    var added := Fresh(Ids(p.queue), values);
    var order := p.order + NewIndices(|p.queue|, |added|);
    p.(queue := p.queue + added, order := order,
       position := if p.position < 0 && added != [] then |order| - |added| else p.position)
  }

  function Others(n: nat, active: int): seq<int>
    requires 0 <= active < n
  {
    Identity(n)[..active] + Identity(n)[active + 1..]
  }

  function Rebuild(p: Player, next: Mode, random: nat -> Candidate): Player
    requires Valid(p)
  {
    if p.queue == [] then p.(order := [], position := -1)
    else
      var active := p.order[p.position];
      if next == Shuffling then
        var remaining := Others(|p.queue|, active);
        p.(order := [active] + Shuffled(remaining, Drawn(random, p.calls, |remaining|)), position := 0,
           calls := p.calls + CallsNeeded(|remaining|))
      else
        p.(order := Identity(|p.queue|), position := active)
  }

  function SetMode(p: Player, next: Mode, random: nat -> Candidate): Player
    requires Valid(p)
  {
    if p.mode == next then p else Rebuild(p, next, random).(mode := next)
  }

  function SetQueue(p: Player, values: seq<Option<Song>>, start: string, random: nat -> Candidate): Player {
    var queue := Fresh({}, values);
    var requested := IndexOf(queue, start);
    var q := p.(queue := queue, order := Identity(|queue|),
                position := if requested >= 0 then requested else if queue != [] then 0 else -1);
    FreshIsDistinct({}, values);
    IdentityIsOrder(|queue|);
    if p.mode == Shuffling && queue != [] then Rebuild(q, Shuffling, random) else q
  }

  function Select(p: Player, id: string): Player {
    var q := IndexOf(p.queue, id);
    var i := PositionOf(p.order, q);
    if id == "" || q < 0 || i < 0 then p else p.(position := i)
  }

  function Drop<T>(s: seq<T>, i: nat): (r: seq<T>)
    requires i < |s|
    ensures |r| == |s| - 1 && forall k :: 0 <= k < |r| ==> r[k] == if k < i then s[k] else s[k + 1]
  {
    s[..i] + s[i + 1..]
  }

  // The order without q, with the indices behind it one lower
  function Renumber(order: seq<int>, q: int): seq<int> {
    if order == [] then []
    else (if order[0] == q then [] else [if order[0] > q then order[0] - 1 else order[0]]) + Renumber(order[1..], q)
  }

  function Remove(p: Player, id: string): Player {
    var q := IndexOf(p.queue, id);
    var i := PositionOf(p.order, q);
    if q < 0 || i < 0 then p
    else
      var order := Renumber(p.order, q);
      p.(queue := Drop(p.queue, q), order := order,
         position := if i == p.position then (if i + 1 < |p.order| then i else if order != [] then 0 else -1)
                     else if i < p.position then p.position - 1 else p.position)
  }

  // Takes the element at `source` out and puts it back at `target`.
  function MoveWithin<T>(s: seq<T>, source: nat, target: nat): (r: seq<T>)
    requires source < |s| && target < |s|
    ensures |r| == |s|
  {
    var rest := Drop(s, source);
    rest[..target] + [s[source]] + rest[target..]
  }

  // The index nearest to `target`
  function Clamped(target: int, n: nat): (t: nat)
    requires n > 0
    ensures t < n
    ensures t == target || (target < 0 && t == 0) || (target > n - 1 && t == n - 1)
  {
    var low := if target < 0 then 0 else target;
    if low > n - 1 then n - 1 else low
  }

  // `target` is what parseInt made of the argument, 0 for NaN.
  function Move(p: Player, id: string, target: int): Player
    requires Valid(p)
  {
    var v := View(p);
    var source := IndexOf(v, id);
    if source < 0 || |p.order| < 2 then p
    else
      var bounded := Clamped(target, |p.order|);
      if source == bounded then p
      else
        var queue := MoveWithin(v, source, bounded);
        p.(queue := queue, order := Identity(|queue|),
           position := if Current(p).Some? then IndexOf(queue, Current(p).value.id) else -1, mode := Normal)
  }

  function Clear(p: Player): Player {
    p.(queue := [], order := [], position := -1)
  }

  datatype Outcome = Nothing | Playing(track: Song, replay: bool, changed: bool)

  function Next(p: Player, automatic: bool): (Outcome, Player)
    requires Valid(p)
  {
    if Current(p).None? then (Nothing, p)
    else if automatic && p.mode == RepeatOne then (Playing(Current(p).value, true, false), p)
    else if p.position + 1 < |p.order| then
      (Playing(p.queue[p.order[p.position + 1]], false, true), p.(position := p.position + 1))
    else if p.mode == Repeat then (Playing(p.queue[p.order[0]], false, true), p.(position := 0))
    else (Nothing, p)
  }

  function Previous(p: Player): (Outcome, Player)
    requires Valid(p)
  {
    if Current(p).None? then (Nothing, p)
    else if p.position > 0 then
      (Playing(p.queue[p.order[p.position - 1]], false, true), p.(position := p.position - 1))
    else if p.mode == Repeat && |p.order| > 1 then
      (Playing(p.queue[p.order[|p.order| - 1]], false, true), p.(position := |p.order| - 1))
    else (Playing(Current(p).value, false, false), p)
  }

  // ---- What is accepted ----

  // A value that is valid and whose id is neither among those seen nor that of an earlier one
  ghost predicate Accepted(seen: set<string>, values: seq<Option<Song>>, k: nat)
    requires k < |values|
  {
    && values[k].Some? && values[k].value.id !in seen
    && forall j :: 0 <= j < k && values[j].Some? ==> values[j].value.id != values[k].value.id
  }

  lemma FreshNext(seen: set<string>, values: seq<Option<Song>>)
    requires values != []
    ensures Fresh(seen, values) ==
              if values[0].None? || values[0].value.id in seen then Fresh(seen, values[1..])
              else [values[0].value] + Fresh(seen + {values[0].value.id}, values[1..])
  {
  }

  // Fresh gives exactly the accepted values, in their order.
  lemma {:induction false} FreshAccepts(seen: set<string>, values: seq<Option<Song>>) returns (places: seq<nat>)
    ensures |places| == |Fresh(seen, values)|
    ensures forall i :: 0 <= i < |places| ==>
              places[i] < |values| && values[places[i]] == Some(Fresh(seen, values)[i])
    ensures forall i, j :: 0 <= i < j < |places| ==> places[i] < places[j]
    ensures forall k :: 0 <= k < |values| ==> (k in places <==> Accepted(seen, values, k))
    decreases |values|
  {
    hide Accepted;
    if values == [] {
      places := [];
    } else {
      hide Fresh;
      FreshNext(seen, values);
      var take := values[0].Some? && values[0].value.id !in seen;
      var now := if take then seen + {values[0].value.id} else seen;
      var more := FreshAccepts(now, values[1..]);
      var later: seq<nat> := seq(|more|, i requires 0 <= i < |more| => more[i] + 1);
      places := if take then [0] + later else later;
      forall k | 0 <= k < |values| ensures k in places <==> Accepted(seen, values, k) {
        OneHigher(more, later, k);
        if k > 0 { LaterIsAccepted(seen, values, k); } else { FirstIsAccepted(seen, values); }
      }
    }
  }

  lemma OneHigher(more: seq<nat>, later: seq<nat>, k: nat)
    requires |later| == |more| && forall i :: 0 <= i < |more| ==> later[i] == more[i] + 1
    ensures k in later <==> k > 0 && k - 1 in more
  {
    if k > 0 && k - 1 in more {
      var i :| 0 <= i < |more| && more[i] == k - 1;
      assert later[i] == k;
    }
  }

  lemma FirstIsAccepted(seen: set<string>, values: seq<Option<Song>>)
    requires values != []
    ensures Accepted(seen, values, 0) <==> values[0].Some? && values[0].value.id !in seen
  {
  }

  lemma LaterIsAccepted(seen: set<string>, values: seq<Option<Song>>, k: nat)
    requires 0 < k < |values|
    ensures var take := values[0].Some? && values[0].value.id !in seen;
            Accepted(seen, values, k)
            <==> Accepted(if take then seen + {values[0].value.id} else seen, values[1..], k - 1)
  {
    assert forall j :: 1 <= j <= k ==> values[1..][j - 1] == values[j];
  }

  // ---- Facts the operations need ----

  lemma IdentityIsOrder(n: nat)
    ensures IsOrder(Identity(n), n)
  {
    forall q | 0 <= q < n ensures q in Identity(n) { assert Identity(n)[q] == q; }
  }

  lemma {:induction false} FreshIsDistinct(seen: set<string>, values: seq<Option<Song>>)
    ensures DistinctIds(Fresh(seen, values))
    ensures forall k :: 0 <= k < |Fresh(seen, values)| ==> Fresh(seen, values)[k].id !in seen
    decreases |values|
  {
    if values != [] {
      if values[0].None? || values[0].value.id in seen {
        FreshIsDistinct(seen, values[1..]);
      } else {
        FreshIsDistinct(seen + {values[0].value.id}, values[1..]);
      }
    }
  }
}
