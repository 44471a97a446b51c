// Whole runs of the play queue: what stays true, what leaving shuffle restores, and what
// playing on to the end plays.
module PlayRuns {
  import opened Text
  import opened Sequences
  import opened FisherYates
  import opened PlayQueue
  import opened PlayList

  datatype Op =
    | SetOp(values: seq<Option<Song>>, start: string)
    | AppendOp(values: seq<Option<Song>>)
    | MoveOp(id: string, target: int)
    | RemoveOp(id: string)
    | ClearOp
    | SelectOp(id: string)
    | ModeOp(mode: Mode)
    | NextOp(automatic: bool)
    | PreviousOp

  const INITIAL := Player([], [], -1, Normal, 0)

  ghost function Apply(p: Player, op: Op, random: nat -> Candidate): (r: Player)
    requires Valid(p)
    ensures Valid(r)
  {
    match op
    case SetOp(values, start) => SetQueueRefines(p, values, start, random); SetQueue(p, values, start, random)
    case AppendOp(values) => AppendRefines(p, values); Append(p, values)
    case MoveOp(id, target) => MoveRefines(p, id, target); Move(p, id, target)
    case RemoveOp(id) => RemoveRefines(p, id); Remove(p, id)
    case ClearOp => Clear(p)
    case SelectOp(id) => SelectRefines(p, id); Select(p, id)
    case ModeOp(mode) => ModeRefines(p, mode, random); SetMode(p, mode, random)
    case NextOp(automatic) => Next(p, automatic).1
    case PreviousOp => Previous(p).1
  }

  // Every reachable state is valid.
  ghost function Run(p: Player, ops: seq<Op>, random: nat -> Candidate): (r: Player)
    requires Valid(p)
    ensures Valid(r)
    decreases |ops|
  {
    if ops == [] then p else Run(Apply(p, ops[0], random), ops[1..], random)
  }

  // From the empty queue, whatever was done: ids are distinct, the order is a permutation of
  // the queue's indices and outside shuffle the natural one, and there is a current track
  // exactly when there is a queue.
  lemma EveryReachableStateIsSound(ops: seq<Op>, random: nat -> Candidate)
    ensures Valid(INITIAL)
    ensures var p := Run(INITIAL, ops, random);
            && DistinctIds(p.queue)
            && IsOrder(p.order, |p.queue|)
            && (p.mode != Shuffling ==> p.order == Identity(|p.queue|))
            && (p.position == -1 <==> p.queue == [])
            && -1 <= p.position < |p.queue|
            && (Current(p).Some? <==> p.queue != [])
  {
    hide Run;
  }

  // ---- Leaving shuffle ----

  ghost predicate KeepsEntryOrder(op: Op) {
    op.AppendOp? || op.RemoveOp? || op.SelectOp? || op.ModeOp? || op.NextOp? || op.PreviousOp?
  }

  // The tracks in order of entry: appends at the end, removals taken out, nothing else.
  function Entered(queue: seq<Song>, ops: seq<Op>): seq<Song>
    decreases |ops|
  {
    if ops == [] then queue
    else
      var now := match ops[0]
        case AppendOp(values) => queue + Fresh(Ids(queue), values)
        case RemoveOp(id) => if IndexOf(queue, id) < 0 then queue else Drop(queue, IndexOf(queue, id))
        case _ => queue;
      Entered(now, ops[1..])
  }

  lemma {:induction false} RunKeepsEntryOrder(p: Player, ops: seq<Op>, random: nat -> Candidate)
    requires Valid(p) && forall i :: 0 <= i < |ops| ==> KeepsEntryOrder(ops[i])
    ensures Run(p, ops, random).queue == Entered(p.queue, ops)
    decreases |ops|
  {
    hide DistinctIds, IsOrder, Fresh, Rebuild, Renumber, IndexOf, PositionOf, View;
    if ops != [] {
      var q := Apply(p, ops[0], random);
      assert KeepsEntryOrder(ops[0]);
      match ops[0] {
        case AppendOp(values) => AppendRefines(p, values);
        case RemoveOp(id) => FindInView(p, id);
        case ModeOp(mode) => ModeRefines(p, mode, random);
        case _ =>
      }
      forall i | 0 <= i < |ops[1..]| ensures KeepsEntryOrder(ops[1..][i]) { assert KeepsEntryOrder(ops[i + 1]); }
      RunKeepsEntryOrder(q, ops[1..], random);
    }
  }

  // However often shuffle was entered on the way, leaving it restores the order of entry
  // minus the removed tracks, and the current track plays on.
  lemma LeavingShuffleRestoresEntryOrder(p: Player, ops: seq<Op>, mode: Mode, random: nat -> Candidate)
    requires Valid(p) && mode != Shuffling && forall i :: 0 <= i < |ops| ==> KeepsEntryOrder(ops[i])
    ensures var q := Run(p, ops, random); var r := SetMode(q, mode, random);
            Valid(r) && View(r) == Entered(p.queue, ops) && Current(r) == Current(q)
  {
    RunKeepsEntryOrder(p, ops, random);
    ModeRefines(Run(p, ops, random), mode, random);
  }

  // ---- Playing on ----

  // The state after n automatic steps, and the tracks they started.
  ghost function After(p: Player, n: nat): (r: Player)
    requires Valid(p)
    ensures Valid(r) && r.queue == p.queue && r.order == p.order && r.mode == p.mode
  {
    if n == 0 then p else Next(After(p, n - 1), true).1
  }

  ghost function Played(p: Player, n: nat): seq<Song>
    requires Valid(p)
  {
    if n == 0 then []
    else
      match Next(After(p, n - 1), true).0
      case Nothing => Played(p, n - 1)
      case Playing(track, _, _) => Played(p, n - 1) + [track]
  }

  // The position after one more step that does not leave the list, wrapping round at its end.
  function Wrapped(position: int, n: nat): int {
    if position < n then position else position - n
  }

  lemma NextStep(p: Player)
    requires Valid(p) && p.queue != [] && p.mode != RepeatOne
    ensures p.position + 1 < |p.order| ==>
              Next(p, true) == (Playing(View(p)[p.position + 1], false, true), p.(position := p.position + 1))
    ensures p.position + 1 == |p.order| && p.mode == Repeat ==>
        Next(p, true) == (Playing(View(p)[0], false, true), p.(position := 0))
    ensures p.position + 1 == |p.order| && p.mode != Repeat ==> Next(p, true) == (Nothing, p)
  {
  }

  lemma OneMore(p: Player, n: nat)
    requires Valid(p)
    ensures After(p, 0) == p && Played(p, 0) == []
    ensures n > 0 ==> After(p, n) == Next(After(p, n - 1), true).1
    ensures n > 0 && Next(After(p, n - 1), true).0.Nothing? ==> Played(p, n) == Played(p, n - 1)
    ensures n > 0 && Next(After(p, n - 1), true).0.Playing? ==>
              Played(p, n) == Played(p, n - 1) + [Next(After(p, n - 1), true).0.track]
  {
    hide Valid, Next, View;
  }

  lemma {:induction false} PlayingOn(p: Player, n: nat)
    requires Valid(p) && p.queue != [] && (p.mode == Normal || p.mode == Shuffling) && p.position + n < |p.order|
    ensures After(p, n) == p.(position := p.position + n)
    ensures Played(p, n) == View(p)[p.position + 1..p.position + 1 + n]
  {
    hide Onto, Distinct, DistinctIds, Next, After, Played;
    OneMore(p, n);
    if n > 0 {
      PlayingOn(p, n - 1);
      NextStep(After(p, n - 1));
      assert View(After(p, n - 1)) == View(p);
      assert View(p)[p.position + 1..p.position + 1 + n]
        == View(p)[p.position + 1..p.position + n] + [View(p)[p.position + n]];
    }
  }

  // Automatic play in normal or shuffle mode starts each remaining entry exactly once, in
  // the order shown, and then stops for good.
  lemma PlaysTheRestOnce(p: Player)
    requires Valid(p) && p.queue != [] && (p.mode == Normal || p.mode == Shuffling)
    ensures var n := |p.order| - 1 - p.position;
            && Played(p, n) == View(p)[p.position + 1..]
            && DistinctIds(View(p))
            && Next(After(p, n), true) == (Nothing, After(p, n))
  {
    hide Onto, Distinct, DistinctIds, Next, After, Played, Identity;
    PlayingOn(p, |p.order| - 1 - p.position);
    NextStep(After(p, |p.order| - 1 - p.position));
    ViewIdsDiffer(p);
  }

  // Turning shuffle on and letting it run plays every track of the queue exactly once,
  // beginning with the one that was playing.
  lemma ShufflePlaysEverythingOnce(p: Player, random: nat -> Candidate)
    requires Valid(p) && p.queue != [] && p.mode != Shuffling
    ensures var s := SetMode(p, Shuffling, random);
            && Valid(s) && Current(s) == Current(p)
            && var played := [Current(s).value] + Played(s, |p.queue| - 1);
            && |played| == |p.queue| && DistinctIds(played)
            && (forall t :: t in p.queue <==> t in played)
            && Next(After(s, |p.queue| - 1), true).0 == Nothing
  {
    hide Onto, Distinct, DistinctIds, Next, After, Played, SetMode;
    ModeRefines(p, Shuffling, random);
    var s := SetMode(p, Shuffling, random);
    PlaysTheRestOnce(s);
    var played := [Current(s).value] + Played(s, |p.queue| - 1);
    assert played == View(s);
    ViewHasSameTracks(s);
  }

  lemma ViewHasSameTracks(s: Player)
    requires Valid(s)
    ensures forall t :: t in s.queue <==> t in View(s)
  {
    hide Distinct, DistinctIds;
    forall t ensures t in s.queue <==> t in View(s) {
      if t in s.queue {
        var q :| 0 <= q < |s.queue| && s.queue[q] == t;
        assert q in s.order;
        var i :| 0 <= i < |s.order| && s.order[i] == q;
        assert View(s)[i] == t;
      }
      if t in View(s) {
        var i :| 0 <= i < |View(s)| && View(s)[i] == t;
        assert s.queue[s.order[i]] == t;
      }
    }
  }

  lemma {:induction false} RepeatGoesRound(p: Player, n: nat)
    requires Valid(p) && p.queue != [] && p.mode == Repeat && n <= |p.order|
    ensures After(p, n) == p.(position := Wrapped(p.position + n, |p.order|))
    ensures |Played(p, n)| == n
    ensures forall k :: 0 <= k < n ==> Played(p, n)[k] == View(p)[Wrapped(p.position + 1 + k, |p.order|)]
  {
    hide Onto, Distinct, DistinctIds, Next, After, Played;
    OneMore(p, n);
    if n > 0 {
      RepeatGoesRound(p, n - 1);
      NextStep(After(p, n - 1));
      assert View(After(p, n - 1)) == View(p);
    }
  }

  // In repeat mode as many steps as there are tracks play each of them and lead back to
  // the start.
  lemma RepeatReturns(p: Player)
    requires Valid(p) && p.queue != [] && p.mode == Repeat
    ensures After(p, |p.order|) == p
    ensures forall t :: t in p.queue <==> t in Played(p, |p.order|)
    ensures |Played(p, |p.order|)| == |p.queue|
  {
    hide Onto, Distinct, DistinctIds, Next, After, Played;
    RepeatGoesRound(p, |p.order|);
    ViewHasSameTracks(p);
    var played := Played(p, |p.order|);
    forall t ensures t in View(p) <==> t in played {
      if t in View(p) {
        var i :| 0 <= i < |View(p)| && View(p)[i] == t;
        var k := if i > p.position then i - p.position - 1 else i + |p.order| - p.position - 1;
        assert played[k] == t;
      }
      if t in played {
        var k :| 0 <= k < |played| && played[k] == t;
        assert View(p)[Wrapped(p.position + 1 + k, |p.order|)] == t;
      }
    }
  }

  // In repeat-one mode automatic play starts the current track over and over.
  lemma {:induction false} RepeatOneReplays(p: Player, n: nat)
    requires Valid(p) && p.queue != [] && p.mode == RepeatOne
    ensures Next(p, true) == (Playing(View(p)[p.position], true, false), p)
    ensures After(p, n) == p && Played(p, n) == seq(n, i => View(p)[p.position])
  {
    hide Onto, Distinct, DistinctIds;
    if n > 0 { RepeatOneReplays(p, n - 1); }
  }

  // A `next` that the listener asks for moves in repeat-one mode as in normal mode, and in
  // every other mode as an automatic one.
  lemma ManualNextMoves(p: Player)
    requires Valid(p)
    ensures p.mode != RepeatOne ==> Next(p, false) == Next(p, true)
    ensures p.mode == RepeatOne ==>
              var moved := Next(p.(mode := Normal), true);
              Valid(p.(mode := Normal)) && Next(p, false) == (moved.0, moved.1.(mode := RepeatOne))
  {
  }

  // ---- Going back ----

  // `previous` undoes every `next` that moved on, also the one that starts a single track anew.
  lemma PreviousUndoesNext(p: Player, automatic: bool)
    requires Valid(p) && Next(p, automatic).0.Playing? && Next(p, automatic).0.changed
    ensures Previous(Next(p, automatic).1).1 == p
    ensures Previous(Next(p, automatic).1).0 == Playing(Current(p).value, false, |p.queue| > 1)
  {
  }

  // On the first track `previous` stays and starts it again, unless repeat leads to the last
  // one; with an empty queue there is nothing to play.
  lemma PreviousAtTheStart(p: Player)
    requires Valid(p) && p.position <= 0
    ensures p.queue == [] ==> Previous(p) == (Nothing, p) && forall automatic :: Next(p, automatic) == (Nothing, p)
    ensures p.queue != [] && (p.mode != Repeat || |p.queue| == 1) ==>
              Previous(p) == (Playing(View(p)[0], false, false), p)
    ensures p.mode == Repeat && |p.queue| > 1 ==>
              var last := |p.queue| - 1;
              Previous(p) == (Playing(View(p)[last], false, true), p.(position := last))
  {
  }
}
