// That shuffle shuffles: which orders entering shuffle can give, over all random sources.
module PlayShuffle {
  import opened Text
  import opened Sequences
  import opened FisherYates
  import opened PlayQueue
  import opened PlayList

  // ---- A source for every choice of targets ----

  function Drawing(k: nat, index: nat): Candidate {
    if k == index then Finite(1.0) else Finite(k as real / (index + 1) as real)
  }

  lemma DrawingDraws(k: nat, index: nat)
    requires k <= index < 1_000_000_000
    ensures Target(Drawing(k, index), index) == k
  {
    var n := (index + 1) as real;
    if k < index {
      Quotient(k, index + 1);
      assert Bounded(Drawing(k, index)) * n == k as real;
    } else {
      assert LARGEST * n == n - n / 1_000_000_000.0;
    }
  }

  // Gives the targets from the last one down, beginning with the call numbered `start`.
  function SourceFor(targets: seq<nat>, start: nat): nat -> Candidate {
    call => if start <= call < start + |targets|
            then Drawing(targets[|targets| - 1 - (call - start)], |targets| - 1 - (call - start))
            else NotFinite
  }

  lemma {:induction false} SourceGivesTargets(targets: seq<nat>, start: nat, m: nat)
    requires Choices(targets, |targets|) && m <= |targets| <= 1_000_000_000
    ensures Drawn(SourceFor(targets, start), start + (|targets| - m), m) == targets[..m]
  {
    hide Drawing, Target;
    if m > 0 {
      SourceGivesTargets(targets, start, m - 1);
      DrawingDraws(targets[m - 1], m - 1);
      assert targets[..m] == targets[..m - 1] + [targets[m - 1]];
    }
  }

  // Beyond 10^9 elements the clamp keeps the last one from being drawn.
  lemma LastIsNeverDrawn(c: Candidate, index: nat)
    requires index >= 1_000_000_000
    ensures Target(c, index) < index
  {
    var n := (index + 1) as real;
    assert Bounded(c) * n <= LARGEST * n;
    assert LARGEST * n < n - 1.0;
  }

  // ---- Orders ----

  lemma {:induction false} OccursOnce<T>(s: seq<T>, x: T)
    requires Distinct(s)
    ensures multiset(s)[x] == if x in s then 1 else 0
  {
    DistinctOnce(s, x);
    assert x in s <==> x in multiset(s);
  }

  // The rest of an order that begins with `active` is a permutation of the other indices.
  lemma RestPermutesOthers(n: nat, active: nat, rest: seq<int>)
    requires active < n && IsOrder([active] + rest, n)
    ensures multiset(rest) == multiset(Others(n, active))
  {
    hide Others;
    OthersAre(n, active);
    var order, others := [active] + rest, Others(n, active);
    assert forall i :: 0 <= i < |rest| ==> rest[i] == order[i + 1];
    forall x ensures multiset(rest)[x] == multiset(others)[x] {
      assert x in rest <==> x in others by {
        if x in rest {
          var i :| 0 <= i < |rest| && rest[i] == x;
          assert order[i + 1] == x && order[0] == active;
        }
        if x in others {
          assert x in order;
        }
      }
      OccursOnce(rest, x);
      OccursOnce(others, x);
    }
  }

  lemma EntersShuffle(p: Player, random: nat -> Candidate)
    requires Valid(p) && p.queue != [] && p.mode != Shuffling
    ensures var others := Others(|p.queue|, p.order[p.position]);
            SetMode(p, Shuffling, random).order
            == [p.order[p.position]] + Shuffled(others, Drawn(random, p.calls, |others|))
  {
  }

  ghost predicate CanBecome(p: Player, order: seq<int>)
    requires Valid(p)
  {
    exists random :: SetMode(p, Shuffling, random).order == order
  }

  lemma OrderCanBeDrawn(p: Player, rest: seq<int>)
    requires Valid(p) && p.queue != [] && p.mode != Shuffling && |p.queue| - 1 <= 1_000_000_000
    requires IsOrder([p.order[p.position]] + rest, |p.queue|)
    ensures CanBecome(p, [p.order[p.position]] + rest)
  {
    hide Others, Shuffled, Drawn, SetMode, Distinct, Onto;
    var active := p.order[p.position];
    var others := Others(|p.queue|, active);
    RestPermutesOthers(|p.queue|, active, rest);
    OthersAre(|p.queue|, active);
    var targets := ShuffledIsSurjective(others, rest);
    var random := SourceFor(targets, p.calls);
    SourceGivesTargets(targets, p.calls, |targets|);
    assert targets[..|targets|] == targets;
    EntersShuffle(p, random);
  }

  // With more other tracks than that, the natural order of the others is out of reach.
  lemma NaturalOrderIsOutOfReach(p: Player)
    requires Valid(p) && p.queue != [] && p.mode != Shuffling && |p.queue| - 1 > 1_000_000_000
    ensures var order := [p.order[p.position]] + Others(|p.queue|, p.order[p.position]);
            IsOrder(order, |p.queue|) && !CanBecome(p, order)
  {
    hide Others, Shuffled, Drawn, SetMode, IsOrder, Distinct;
    var active := p.order[p.position];
    var others := Others(|p.queue|, active);
    ActiveIsAnIndex(p);
    ShuffledOrder(|p.queue|, active, others);
    OthersAre(|p.queue|, active);
    forall random ensures SetMode(p, Shuffling, random).order != [active] + others {
      EntersShuffle(p, random);
      LastMovesAway(others, random, p.calls);
      var shuffled := Shuffled(others, Drawn(random, p.calls, |others|));
      assert ([active] + shuffled)[1..] == shuffled && ([active] + others)[1..] == others;
    }
  }

  lemma LastMovesAway(s: seq<int>, random: nat -> Candidate, start: nat)
    requires Distinct(s) && |s| > 1_000_000_000
    ensures Shuffled(s, Drawn(random, start, |s|)) != s
  {
    hide Shuffled, Drawn, Target, Distinct;
    var last := |s| - 1;
    var targets := Drawn(random, start, |s|);
    DrawnStep(random, start, |s|);
    LastIsNeverDrawn(random(start), last);
    ShuffledStep(s, targets);
    SwappedLast(s, targets[last]);
    if s[targets[last]] == s[last] { SameIndex(s, targets[last], last); }
  }

  lemma ActiveIsAnIndex(p: Player)
    requires Valid(p) && p.queue != []
    ensures 0 <= p.position < |p.order| && 0 <= p.order[p.position] < |p.queue|
  {
  }

  // Entering shuffle can give every order of the other tracks behind the current one, if and
  // only if there are at most 10^9 of them.
  lemma EveryOrderCanBeDrawnIff(p: Player)
    requires Valid(p) && p.queue != [] && p.mode != Shuffling
    ensures (forall rest :: IsOrder([p.order[p.position]] + rest, |p.queue|) ==>
               exists random :: SetMode(p, Shuffling, random).order == [p.order[p.position]] + rest)
            <==> |p.queue| - 1 <= 1_000_000_000
  {
    hide Valid, SetMode, Others, IsOrder;
    ActiveIsAnIndex(p);
    var active := p.order[p.position];
    if |p.queue| - 1 <= 1_000_000_000 {
      forall rest | IsOrder([active] + rest, |p.queue|)
        ensures exists random :: SetMode(p, Shuffling, random).order == [active] + rest
      {
        OrderCanBeDrawn(p, rest);
      }
    } else {
      NaturalOrderIsOutOfReach(p);
      var others := Others(|p.queue|, active);
      assert IsOrder([active] + others, |p.queue|);
    }
  }

  // The track played last is the one whose share of the unit interval the first draw hit.
  lemma LastIsTheDrawnOne(p: Player, random: nat -> Candidate, t: nat)
    requires Valid(p) && |p.queue| > 2 && p.mode != Shuffling && t < |p.queue| - 1
    requires var n := (|p.queue| - 1) as real;
             random(p.calls).Finite? && 0.0 <= random(p.calls).value <= 0.999999999
             && t as real <= random(p.calls).value * n < t as real + 1.0
    ensures var order := SetMode(p, Shuffling, random).order;
            order[|order| - 1] == if t < p.order[p.position] then t else t + 1
  {
    hide Shuffled, Drawn, SetMode;
    var others := Others(|p.queue|, p.order[p.position]);
    EntersShuffle(p, random);
    DrawnStep(random, p.calls, |others|);
    var targets := Drawn(random, p.calls, |others|);
    ShuffledStep(others, targets);
    SwappedLast(others, targets[|others| - 1]);
    assert Target(random(p.calls), |others| - 1) == t;
  }

  // A new queue in shuffle mode: the requested track, or the first one, plays, and the others
  // can come in every order, under the same condition.
  lemma NewQueueIsShuffledIff(p: Player, values: seq<Option<Song>>, start: string)
    requires Valid(p) && p.mode == Shuffling && Fresh({}, values) != []
    ensures var queue := Fresh({}, values);
            var first := if IndexOf(queue, start) >= 0 then IndexOf(queue, start) else 0;
            (forall rest :: IsOrder([first] + rest, |queue|) ==>
               exists random :: SetQueue(p, values, start, random).order == [first] + rest)
            <==> |queue| - 1 <= 1_000_000_000
  {
    hide Valid, SetMode, SetQueue, IsOrder, Fresh, IndexOf;
    var queue := Fresh({}, values);
    var first := if IndexOf(queue, start) >= 0 then IndexOf(queue, start) else 0;
    var normal := Player(queue, Identity(|queue|), first, Normal, p.calls);
    forall random ensures Valid(normal) && SetQueue(p, values, start, random) == SetMode(normal, Shuffling, random) {
      SetQueueEntersShuffle(p, values, start, random);
    }
    var any: nat -> Candidate := call => NotFinite;
    SetQueueEntersShuffle(p, values, start, any);
    assert normal.order[normal.position] == first;
    EveryOrderCanBeDrawnIff(normal);
    forall rest | IsOrder([first] + rest, |queue|)
      ensures (exists random :: SetMode(normal, Shuffling, random).order == [first] + rest)
              <==> (exists random :: SetQueue(p, values, start, random).order == [first] + rest)
    {
      if random :| SetMode(normal, Shuffling, random).order == [first] + rest {
        assert SetQueue(p, values, start, random).order == [first] + rest;
      }
      if random :| SetQueue(p, values, start, random).order == [first] + rest {
        assert SetMode(normal, Shuffling, random).order == [first] + rest;
      }
    }
  }

  lemma SetQueueEntersShuffle(p: Player, values: seq<Option<Song>>, start: string, random: nat -> Candidate)
    requires Valid(p) && p.mode == Shuffling && Fresh({}, values) != []
    ensures var queue := Fresh({}, values);
            var first := if IndexOf(queue, start) >= 0 then IndexOf(queue, start) else 0;
            var normal := Player(queue, Identity(|queue|), first, Normal, p.calls);
            Valid(normal) && SetQueue(p, values, start, random) == SetMode(normal, Shuffling, random)
  {
    hide Fresh, IndexOf, Shuffled, Drawn;
    FreshIsDistinct({}, values);
    IdentityIsOrder(|Fresh({}, values)|);
  }
}
