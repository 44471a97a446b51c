// The player state object: its closure variables, changed by every operation.
module PlayerState {
  import opened Text
  import opened FisherYates
  import opened PlayQueue
  import opened PlayList

  lemma FreshNone(seen: set<string>)
    ensures Fresh(seen, []) == []
  {
  }

  lemma OneMoreIndex(order: seq<int>, n: nat, m: nat)
    ensures order + NewIndices(n, m) + [n + m] == order + NewIndices(n, m + 1)
  {
  }

  lemma AppendStaysValid(p: Player, values: seq<Option<Song>>)
    requires Valid(p)
    ensures Valid(Append(p, values)) && (p.position < 0 <==> p.queue == [])
  {
    AppendRefines(p, values);
  }

  // What RemoveTrack reports of the track it takes out.
  lemma RemovedTrack(p: Player, id: string)
    requires Valid(p)
    ensures var q := IndexOf(p.queue, id); var i := PositionOf(p.order, q);
            && Valid(Remove(p, id))
            && (q >= 0 ==> 0 <= i < |p.order|)
            && (q >= 0 ==> (i == p.position <==> Current(p) == Some(p.queue[q])))
  {
    hide Remove, Renumber;
    RemoveRefines(p, id);
    FindInView(p, id);
    var q := IndexOf(p.queue, id);
    if q >= 0 && Current(p) == Some(p.queue[q]) {
      assert p.queue[p.order[p.position]].id == p.queue[q].id;
      assert p.order[p.position] == q;
      PositionOfUnique(p.order, p.position);
    }
  }

  class PlayerState {
    const random: nat -> Candidate
    var queue: seq<Song>
    var order: seq<int>
    var position: int
    var mode: Mode
    var calls: nat

    function State(): Player
      reads this
    {
      Player(queue, order, position, mode, calls)
    }

    constructor (random: nat -> Candidate)
      ensures Valid(State()) && State() == Player([], [], -1, Normal, 0) && this.random == random
    {
      this.random := random;
      queue, order, position, mode, calls := [], [], -1, Normal, 0;
    }

    method CurrentTrack() returns (r: Option<Song>)
      requires Valid(State())
      ensures r == Current(State())
    {
      r := if 0 <= position < |order| then Some(queue[order[position]]) else None;
    }

    // The indices in natural order, without the active one
    method Remaining(active: int) returns (r: seq<int>)
      requires 0 <= active < |queue|
      ensures r == Others(|queue|, active)
    {
      r := [];
      for i := 0 to |queue|
        invariant i <= active ==> r == Identity(i)
        invariant i > active ==> r == Identity(|queue|)[..active] + Identity(|queue|)[active + 1..i]
      {
        if i != active { r := r + [i]; }
      }
      assert Identity(|queue|)[active + 1..|queue|] == Identity(|queue|)[active + 1..];
    }

    method RebuildOrder(next: Mode)
      requires Valid(State())
      modifies this`order, this`position, this`calls
      ensures State() == Rebuild(old(State()), next, random)
    {
      if queue == [] {
        order, position := [], -1;
        return;
      }
      var active := order[position];
      if next == Shuffling {
        var remaining := Remaining(active);
        var shuffled := Shuffle(remaining, random, calls);
        order, position := [active] + shuffled, 0;
        calls := calls + CallsNeeded(|remaining|);
      } else {
        order, position := Identity(|queue|), active;
      }
    }

    method SwitchMode(next: Mode)
      requires Valid(State())
      modifies this
      ensures State() == SetMode(old(State()), next, random) && Valid(State())
    {
      ModeRefines(State(), next, random);
      if mode == next { return; }
      RebuildOrder(next);
      mode := next;
    }

    method CycleMode()
      requires Valid(State())
      modifies this
      ensures Valid(State())
      ensures (old(mode), mode) in {(Normal, Shuffling), (Shuffling, Repeat), (Repeat, RepeatOne), (RepeatOne, Normal)}
      ensures State() == SetMode(old(State()), mode, random)
    {
      var next := NextMode(mode);
      ModeRefines(State(), next, random);
      SwitchMode(next);
    }

    // The filter with the set of ids already seen.
    method AcceptNew(seen: set<string>, values: seq<Option<Song>>) returns (added: seq<Song>)
      ensures added == Fresh(seen, values)
    {
      added := [];
      var now := seen;
      for i := 0 to |values|
        invariant added + Fresh(now, values[i..]) == Fresh(seen, values)
      {
        hide Fresh;
        FreshNext(now, values[i..]);
        assert values[i..][0] == values[i] && values[i..][1..] == values[i + 1..];
        if values[i].Some? && values[i].value.id !in now {
          added := added + [values[i].value];
          now := now + {values[i].value.id};
        }
      }
      assert values[|values|..] == [];
    }

    method ReplaceQueue(values: seq<Option<Song>>, start: string) returns (current: Option<Song>)
      requires Valid(State())
      modifies this
      ensures State() == SetQueue(old(State()), values, start, random) && Valid(State())
      ensures current == Current(State())
    {
      SetQueueRefines(State(), values, start, random);
      FreshIsDistinct({}, values);
      queue := AcceptNew({}, values);
      IdentityIsOrder(|queue|);
      var requested := IndexOf(queue, start);
      order := Identity(|queue|);
      position := if requested >= 0 then requested else if queue != [] then 0 else -1;
      if mode == Shuffling && queue != [] {
        RebuildOrder(Shuffling);
      }
      current := CurrentTrack();
    }

    method SelectTrack(id: string) returns (found: Option<Song>, changed: bool)
      requires Valid(State())
      modifies this`position
      ensures State() == Select(old(State()), id) && Valid(State())
      ensures found.Some? <==> exists t :: t in queue && t.id == id
      ensures found.Some? ==> found == Current(State()) && found.value.id == id
      ensures changed <==> found.Some? && position != old(position)
    {
      SelectRefines(State(), id);
      FindInView(State(), id);
      found, changed := None, false;
      var q := IndexOf(queue, id);
      if id == "" || q < 0 { return; }
      var i := PositionOf(order, q);
      if i < 0 { return; }
      changed := i != position;
      position := i;
      found := CurrentTrack();
    }

    method AppendTracks(values: seq<Option<Song>>) returns (added: seq<Song>, selectedFirst: bool)
      requires Valid(State())
      modifies this
      ensures State() == Append(old(State()), values) && Valid(State())
      ensures added == Fresh(Ids(old(queue)), values)
      ensures selectedFirst <==> old(queue) == [] && added != []
    {
      hide Fresh, Valid, NewIndices, Ids;
      AppendStaysValid(State(), values);
      ghost var before := State();
      var seen := Ids(queue);
      added := [];
      for i := 0 to |values|
        invariant position == before.position && mode == before.mode && calls == before.calls
        invariant queue == before.queue + added
        invariant order == before.order + NewIndices(|before.queue|, |added|)
        invariant added + Fresh(seen, values[i..]) == Fresh(Ids(before.queue), values)
      {
        FreshNext(seen, values[i..]);
        assert values[i..][0] == values[i] && values[i..][1..] == values[i + 1..];
        if values[i].None? || values[i].value.id in seen { continue; }
        var track := values[i].value;
        seen := seen + {track.id};
        queue := queue + [track];
        OneMoreIndex(before.order, |before.queue|, |added|);
        order := order + [|queue| - 1];
        added := added + [track];
      }
      assert values[|values|..] == [];
      FreshNone(seen);
      selectedFirst := position < 0 && |added| > 0;
      if selectedFirst { position := |order| - |added|; }
    }

    method MoveTrack(id: string, target: int) returns (found: bool, changed: bool, modeChanged: bool)
      requires Valid(State())
      modifies this
      ensures State() == Move(old(State()), id, target) && Valid(State())
      ensures found <==> IndexOf(View(old(State())), id) >= 0 && |old(order)| >= 2
      ensures changed <==> found && IndexOf(View(old(State())), id) != Clamped(target, |old(order)|)
      ensures modeChanged <==> changed && old(mode) != Normal
      ensures !changed ==> State() == old(State())
    {
      hide DistinctIds, Onto, MoveWithin, IndexOf, Identity;
      MoveRefines(State(), id, target);
      var ordered := View(State());
      var source := IndexOf(ordered, id);
      if source < 0 || |order| < 2 { return false, false, false; }
      var bounded := Clamped(target, |order|);
      if source == bounded { return true, false, false; }
      var current := CurrentTrack();
      queue := MoveWithin(ordered, source, bounded);
      order := Identity(|queue|);
      position := if current.Some? then IndexOf(queue, current.value.id) else -1;
      modeChanged := mode != Normal;
      mode := Normal;
      found, changed := true, true;
    }

    method RemoveTrack(id: string) returns (removed: Option<Song>, wasCurrent: bool, hadNext: bool)
      requires Valid(State())
      modifies this
      ensures State() == Remove(old(State()), id) && Valid(State())
      ensures removed == if IndexOf(old(queue), id) < 0 then None else Some(old(queue)[IndexOf(old(queue), id)])
      ensures wasCurrent <==> removed.Some? && removed == Current(old(State()))
      ensures hadNext <==> wasCurrent && old(position) + 1 < |old(order)|
    {
      hide Valid, Renumber, IndexOf, PositionOf;
      RemovedTrack(State(), id);
      removed, wasCurrent, hadNext := None, false, false;
      var q := IndexOf(queue, id);
      if q < 0 { return; }
      var i := PositionOf(order, q);
      if i < 0 { return; }
      removed := Some(queue[q]);
      wasCurrent := i == position;
      hadNext := wasCurrent && i + 1 < |order|;
      queue := Drop(queue, q);
      order := Renumber(order, q);
      if wasCurrent {
        position := if hadNext then i else if |order| > 0 then 0 else -1;
      } else if i < position {
        position := position - 1;
      }
    }

    method ClearQueue() returns (count: nat)
      requires Valid(State())
      modifies this
      ensures State() == Clear(old(State())) && Valid(State()) && count == |old(queue)|
      ensures queue == [] && order == [] && position == -1 && mode == old(mode)
    {
      count := |queue|;
      queue, order, position := [], [], -1;
    }

    method PlayNext(automatic: bool) returns (r: Outcome)
      requires Valid(State())
      modifies this`position
      ensures (r, State()) == Next(old(State()), automatic) && Valid(State())
    {
      var current := CurrentTrack();
      if current.None? { return Nothing; }
      if automatic && mode == RepeatOne { return Playing(current.value, true, false); }
      if position + 1 < |order| {
        position := position + 1;
        r := Playing(queue[order[position]], false, true);
      } else if mode == Repeat {
        position := 0;
        r := Playing(queue[order[position]], false, true);
      } else {
        r := Nothing;
      }
    }

    method PlayPrevious() returns (r: Outcome)
      requires Valid(State())
      modifies this`position
      ensures (r, State()) == Previous(old(State())) && Valid(State())
    {
      var current := CurrentTrack();
      if current.None? { return Nothing; }
      if position > 0 {
        position := position - 1;
        r := Playing(queue[order[position]], false, true);
      } else if mode == Repeat && |order| > 1 {
        position := |order| - 1;
        r := Playing(queue[order[position]], false, true);
      } else {
        r := Playing(current.value, false, false);
      }
    }
  }
}
