// The Fisher-Yates loop of the play queue, over any random source.
module FisherYates {
  import opened Sequences

  // What the random source can give, as a number: NaN and the infinities are not finite.
  datatype Candidate = NotFinite | Finite(value: real)

  const LARGEST: real := 0.999999999

  function Bounded(c: Candidate): real {
    match c
    case NotFinite => 0.0
    case Finite(v) => if v < 0.0 then 0.0 else if v > LARGEST then LARGEST else v
  }

  // The drawn number, scaled and rounded down, is an index of the part still to be shuffled.
  function Target(c: Candidate, index: nat): (t: nat)
    ensures t <= index
  {
    var product := Bounded(c) * (index + 1) as real;
    assert 0.0 <= product < (index + 1) as real by { BoundedProduct(Bounded(c), (index + 1) as real); }
    product.Floor
  }

  lemma BoundedProduct(b: real, n: real)
    requires 0.0 <= b <= LARGEST && n > 0.0
    ensures 0.0 <= b * n < n
  {
    assert b * n <= LARGEST * n;
  }

  // Each index of the part is drawn by its own share of the unit interval; what is no number
  // or below draws the first, what is above draws as the largest number permitted does.
  lemma TargetIs(c: Candidate, index: nat)
    ensures c.NotFinite? || c.value < 0.0 ==> Target(c, index) == 0
    ensures c.Finite? && c.value > 0.999999999 ==> Target(c, index) == Target(Finite(0.999999999), index)
    ensures c.Finite? && 0.0 <= c.value <= 0.999999999 ==>
              Target(c, index) as real <= c.value * (index + 1) as real < Target(c, index) as real + 1.0
  {
    assert 0.0 * (index + 1) as real == 0.0;
  }

  ghost predicate CanDraw(k: nat, index: nat) {
    exists c :: Target(c, index) == k
  }

  // Every index can be drawn, as long as the clamp at 0.999999999 leaves room for the last one.
  lemma EveryTargetCanBeDrawn(index: nat)
    ensures (forall k: nat :: k <= index ==> CanDraw(k, index)) <==> index + 1 <= 1_000_000_000
  {
    var n := (index + 1) as real;
    if index + 1 <= 1_000_000_000 {
      assert LARGEST * n == n - n / 1_000_000_000.0;
      assert Target(Finite(1.0), index) == index;
      forall k: nat | k <= index ensures CanDraw(k, index) {
        if k < index {
          Quotient(k, index + 1);
          var c := Finite(k as real / n);
          assert Bounded(c) * n == k as real;
          assert Target(c, index) == k;
        }
      }
    } else {
      forall c ensures Target(c, index) != index {
        assert Bounded(c) * n <= LARGEST * n;
        assert LARGEST * n < n - 1.0;
      }
      assert !CanDraw(index, index);
    }
  }

  lemma Quotient(k: nat, n: nat)
    requires k + 1 < n <= 1_000_000_000
    ensures 0.0 <= k as real / n as real <= LARGEST && (k as real / n as real) * n as real == k as real
  {
    var m := n as real;
    assert m / 1_000_000_000.0 <= 1.0;
    assert k as real < m - 1.0 <= LARGEST * m;
    DivideBelow(k as real, m, LARGEST);
  }

  lemma DivideBelow(k: real, m: real, bound: real)
    requires m > 0.0 && k <= bound * m
    ensures k / m <= bound
  {
    var q := k / m;
    assert q * m == k;
    if q > bound { assert (q - bound) * m > 0.0; }
  }

  // ---- The loop as a function of the chosen targets ----

  // targets[i] is the target of round `index == i`; round 0 does not take place.
  ghost predicate Choices(targets: seq<nat>, n: nat) {
    |targets| == n && forall i :: 0 <= i < n ==> targets[i] <= i
  }

  function Swap<T>(s: seq<T>, i: nat, j: nat): (r: seq<T>)
    requires i < |s| && j < |s|
    ensures |r| == |s|
  {
    s[i := s[j]][j := s[i]]
  }

  function Shuffled<T>(s: seq<T>, targets: seq<nat>): (r: seq<T>)
    requires |targets| == |s| && forall i :: 0 <= i < |s| ==> targets[i] <= i
    ensures |r| == |s|
    decreases |s|
  {
    if s == [] then []
    else
      var last := |s| - 1;
      var t := Swap(s, last, targets[last]);
      Shuffled(t[..last], targets[..last]) + [t[last]]
  }

  lemma ShuffledStep<T>(s: seq<T>, targets: seq<nat>)
    requires Choices(targets, |s|) && s != []
    ensures var last := |s| - 1; var t := Swap(s, last, targets[last]);
            Shuffled(s, targets) == Shuffled(t[..last], targets[..last]) + [t[last]]
  {
  }

  lemma SwapPermutes<T>(s: seq<T>, i: nat, j: nat)
    requires i < |s| && j < |s|
    ensures multiset(Swap(s, i, j)) == multiset(s)
  {
  }

  // Any choice of targets gives a permutation.
  lemma {:induction false} ShuffledPermutes<T>(s: seq<T>, targets: seq<nat>)
    requires Choices(targets, |s|)
    ensures multiset(Shuffled(s, targets)) == multiset(s)
    decreases |s|
  {
    hide Shuffled;
    if s == [] {
      assert Shuffled(s, targets) == [];
    } else {
      ShuffledStep(s, targets);
      var last := |s| - 1;
      var t := Swap(s, last, targets[last]);
      SwapPermutes(s, last, targets[last]);
      ShuffledPermutes(t[..last], targets[..last]);
      FrontAndLast(t, Shuffled(t[..last], targets[..last]));
    }
  }

  lemma FrontAndLast<T>(t: seq<T>, front: seq<T>)
    requires t != [] && multiset(front) == multiset(t[..|t| - 1])
    ensures multiset(front + [t[|t| - 1]]) == multiset(t)
  {
    assert t == t[..|t| - 1] + [t[|t| - 1]];
  }

  lemma DistinctPermutation<T>(s: seq<T>, p: seq<T>)
    requires Distinct(s) && multiset(p) == multiset(s)
    ensures Distinct(p) && |p| == |s|
  {
    assert |multiset(p)| == |p| && |multiset(s)| == |s|;
    forall i, j | 0 <= i < j < |p| ensures p[i] != p[j] {
      if p[i] == p[j] {
        assert p == p[..i] + [p[i]] + p[i + 1..j] + [p[j]] + p[j + 1..];
        assert multiset(p)[p[i]] >= 2;
        DistinctOnce(s, p[i]);
      }
    }
  }

  lemma {:induction false} DistinctOnce<T>(s: seq<T>, x: T)
    requires Distinct(s)
    ensures multiset(s)[x] <= 1
  {
    if s != [] {
      assert s == [s[0]] + s[1..];
      DistinctOnce(s[1..], x);
      if s[0] == x {
        assert x !in s[1..];
      }
    }
  }

  lemma SwapDistinct<T>(s: seq<T>, i: nat, j: nat)
    requires i < |s| && j < |s| && Distinct(s)
    ensures Distinct(Swap(s, i, j))
  {
  }

  lemma SwappedLast<T>(s: seq<T>, i: nat)
    requires i < |s|
    ensures Swap(s, |s| - 1, i)[|s| - 1] == s[i]
  {
  }

  lemma SameIndex<T>(s: seq<T>, i: nat, j: nat)
    requires Distinct(s) && i < |s| && j < |s| && s[i] == s[j]
    ensures i == j
  {
  }

  lemma SameEnds<T>(a: seq<T>, x: T, b: seq<T>, y: T)
    requires a + [x] == b + [y]
    ensures a == b && x == y
  {
    assert |a| == |a + [x]| - 1 == |b|;
    assert a == (a + [x])[..|a|] && b == (b + [y])[..|b|];
    assert (a + [x])[|a|] == x && (b + [y])[|b|] == y;
  }

  // Different choices give different permutations.
  lemma {:induction false} ShuffledIsInjective<T>(s: seq<T>, a: seq<nat>, b: seq<nat>)
    requires Choices(a, |s|) && Choices(b, |s|) && Distinct(s)
    requires Shuffled(s, a) == Shuffled(s, b)
    ensures a == b
    decreases |s|
  {
    hide Shuffled, Swap, Distinct;
    if s != [] {
      var last := |s| - 1;
      ShuffledStep(s, a);
      ShuffledStep(s, b);
      var ta, tb := Swap(s, last, a[last]), Swap(s, last, b[last]);
      SameEnds(Shuffled(ta[..last], a[..last]), ta[last], Shuffled(tb[..last], b[..last]), tb[last]);
      SwappedLast(s, a[last]);
      SwappedLast(s, b[last]);
      SameIndex(s, a[last], b[last]);
      SwapDistinct(s, last, a[last]);
      DistinctPrefix(ta, last);
      ShuffledIsInjective(ta[..last], a[..last], b[..last]);
      assert a == a[..last] + [a[last]] && b == b[..last] + [b[last]];
    }
  }

  lemma SameFront<T>(s: seq<T>, p: seq<T>)
    requires |s| == |p| > 0 && multiset(p) == multiset(s) && p[|p| - 1] == s[|s| - 1]
    ensures multiset(p[..|p| - 1]) == multiset(s[..|s| - 1])
  {
    assert s == s[..|s| - 1] + [s[|s| - 1]] && p == p[..|p| - 1] + [p[|p| - 1]];
    assert multiset(p[..|p| - 1]) == multiset(p) - multiset{p[|p| - 1]};
    assert multiset(s[..|s| - 1]) == multiset(s) - multiset{s[|s| - 1]};
  }

  lemma DistinctPrefix<T>(s: seq<T>, n: nat)
    requires Distinct(s) && n <= |s|
    ensures Distinct(s[..n])
  {
  }

  lemma FindLast<T>(s: seq<T>, p: seq<T>) returns (k: nat)
    requires |s| == |p| > 0 && multiset(p) == multiset(s)
    ensures k < |s| && s[k] == p[|p| - 1]
  {
    var x := p[|p| - 1];
    assert x in multiset(p);
    assert x in multiset(s);
    assert x in s;
    k :| 0 <= k < |s| && s[k] == x;
  }

  // Every permutation is reached: from the back, the wanted element is swapped into place.
  lemma {:induction false} ShuffledIsSurjective<T>(s: seq<T>, p: seq<T>) returns (targets: seq<nat>)
    requires Distinct(s) && multiset(p) == multiset(s)
    ensures Choices(targets, |s|) && Shuffled(s, targets) == p
    decreases |s|
  {
    hide Shuffled, Distinct, Swap;
    DistinctPermutation(s, p);
    if s == [] {
      targets := [];
      assert Shuffled(s, targets) == [] == p;
    } else {
      var last := |s| - 1;
      var k := FindLast(s, p);
      var t := Swap(s, last, k);
      SwappedLast(s, k);
      SwapPermutes(s, last, k);
      SwapDistinct(s, last, k);
      SameFront(t, p);
      DistinctPrefix(t, last);
      var front := ShuffledIsSurjective(t[..last], p[..last]);
      targets := front + [k];
      assert targets[..last] == front && targets[last] == k;
      assert Choices(targets, |s|);
      ShuffledStep(s, targets);
      assert p == p[..last] + [p[last]];
    }
  }

  // The targets that the loop takes from the calls start, start + 1, ... of the source:
  // the last round index comes first, round 0 does not take place.
  function Drawn(random: nat -> Candidate, start: nat, n: nat): (targets: seq<nat>)
    ensures |targets| == n && forall i :: 0 <= i < n ==> targets[i] <= i
    decreases n
  {
    if n == 0 then [] else Drawn(random, start + 1, n - 1) + [Target(random(start), n - 1)]
  }

  lemma DrawnStep(random: nat -> Candidate, start: nat, n: nat)
    requires n > 0
    ensures Drawn(random, start, n)[..n - 1] == Drawn(random, start + 1, n - 1)
    ensures Drawn(random, start, n)[n - 1] == Target(random(start), n - 1)
  {
  }

  // How often the loop asks the source.
  function CallsNeeded(n: nat): nat {
    if n == 0 then 0 else n - 1
  }

  // What the rounds index, index - 1, ..., 1 still make of `now`.
  ghost function RoundsLeft(now: seq<int>, random: nat -> Candidate, call: nat, index: nat): seq<int>
    requires index < |now|
  {
    Shuffled(now[..index + 1], Drawn(random, call, index + 1)) + now[index + 1..]
  }

  // One round: the element at `index` is final, the rest is shuffled by the later rounds.
  lemma Round(before: seq<int>, random: nat -> Candidate, call: nat, index: nat)
    requires 0 < index < |before|
    ensures RoundsLeft(Swap(before, index, Target(random(call), index)), random, call + 1, index - 1)
            == RoundsLeft(before, random, call, index)
  {
    hide Shuffled, Drawn, Target;
    var targets := Drawn(random, call, index + 1);
    DrawnStep(random, call, index + 1);
    var part, after := before[..index + 1], Swap(before, index, targets[index]);
    ShuffledStep(part, targets);
    assert Swap(part, index, targets[index])[..index] == after[..index];
    assert after[index..] == [after[index]] + before[index + 1..];
  }

  lemma AllRoundsLeft(values: seq<int>, random: nat -> Candidate, call: nat)
    requires values != []
    ensures RoundsLeft(values, random, call, |values| - 1) == Shuffled(values, Drawn(random, call, |values|))
  {
    hide Shuffled, Drawn;
    assert values[..|values|] == values;
  }

  lemma NoRoundLeft(now: seq<int>, random: nat -> Candidate, call: nat)
    requires now != []
    ensures RoundsLeft(now, random, call, 0) == now
  {
    OneIsShuffled(now[..1], Drawn(random, call, 1));
    assert now == now[..1] + now[1..];
  }

  // Exchanges two elements in place.
  method SwapIn(a: array<int>, i: nat, j: nat)
    requires i < a.Length && j < a.Length
    modifies a
    ensures a[..] == Swap(old(a[..]), i, j)
  {
    a[i], a[j] := a[j], a[i];
  }

  method Shuffle(values: seq<int>, random: nat -> Candidate, start: nat) returns (r: seq<int>)
    ensures r == Shuffled(values, Drawn(random, start, |values|))
    ensures multiset(r) == multiset(values)
  {
    hide Shuffled, Drawn, Target, Swap, RoundsLeft;
    ShuffledPermutes(values, Drawn(random, start, |values|));
    if values == [] { return []; }
    var result := new int[|values|](i requires 0 <= i < |values| => values[i]);
    var index := |values| - 1;
    var call := start;
    ghost var now := values;
    AllRoundsLeft(values, random, start);
    while index > 0
      invariant 0 <= index < |now| == |values| && result[..] == now
      invariant RoundsLeft(now, random, call, index) == Shuffled(values, Drawn(random, start, |values|))
    {
      Round(now, random, call, index);
      var target := Target(random(call), index);
      SwapIn(result, index, target);
      now := Swap(now, index, target);
      index, call := index - 1, call + 1;
    }
    NoRoundLeft(now, random, call);
    r := result[..];
  }

  lemma OneIsShuffled(s: seq<int>, targets: seq<nat>)
    requires |s| == |targets| == 1 && targets[0] == 0
    ensures Shuffled(s, targets) == s
  {
    ShuffledStep(s, targets);
    assert Swap(s, 0, 0) == s && s[..0] == [];
  }
}
