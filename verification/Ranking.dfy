// The survivor of every duplicate group is the first row after a sort whose comparator
// is a chain of numeric differences joined by `||` and closed by the row id.
module Ranking {
  import opened Sequences

  // The numbers a comparator looks at, most significant first. Unused places hold 0.
  datatype Rank = Rank(first: int, second: int, third: int, fourth: int, id: int)

  // Negative exactly when `left` is sorted before `right`: larger numbers come first.
  function Compare(left: Rank, right: Rank): int {
    if right.first != left.first then right.first - left.first
    else if right.second != left.second then right.second - left.second
    else if right.third != left.third then right.third - left.third
    else if right.fourth != left.fourth then right.fourth - left.fourth
    else right.id - left.id
  }

  // Every row is ranked and its rank ends in its own id, so no two rows tie.
  ghost predicate Ranked(ids: seq<int>, rank: map<int, Rank>) {
    forall k :: 0 <= k < |ids| ==> ids[k] in rank && rank[ids[k]].id == ids[k]
  }

  ghost predicate Sorted(ids: seq<int>, rank: map<int, Rank>)
    requires Ranked(ids, rank)
  {
    forall i, j :: 0 <= i < j < |ids| ==> Compare(rank[ids[i]], rank[ids[j]]) < 0
  }

  // The rank `id` comes before every row of `ids`.
  ghost predicate Leads(id: int, ids: seq<int>, rank: map<int, Rank>)
    requires id in rank && Ranked(ids, rank)
  {
    forall k :: 0 <= k < |ids| ==> Compare(rank[id], rank[ids[k]]) < 0
  }

  function Insert(id: int, sorted: seq<int>, rank: map<int, Rank>): seq<int>
    requires id in rank && forall k :: 0 <= k < |sorted| ==> sorted[k] in rank
  {
    if sorted == [] || Compare(rank[id], rank[sorted[0]]) < 0 then [id] + sorted
    else [sorted[0]] + Insert(id, sorted[1..], rank)
  }

  function Sort(ids: seq<int>, rank: map<int, Rank>): (r: seq<int>)
    requires forall k :: 0 <= k < |ids| ==> ids[k] in rank
    ensures multiset(r) == multiset(ids)
  {
    if ids == [] then []
    else
      var rest := Sort(ids[1..], rank);
      SameElements(rest, ids[1..]);
      InsertElements(ids[0], rest, rank);
      assert ids == [ids[0]] + ids[1..];
      Insert(ids[0], rest, rank)
  }

  lemma SameElements(a: seq<int>, b: seq<int>)
    requires multiset(a) == multiset(b)
    ensures forall i :: i in a <==> i in b
    ensures forall k :: 0 <= k < |a| ==> a[k] in b
    ensures forall k :: 0 <= k < |b| ==> b[k] in a
    ensures |a| == |b|
  {
    forall i ensures i in a <==> i in b {
      assert i in a <==> i in multiset(a);
      assert i in b <==> i in multiset(b);
    }
    assert |multiset(a)| == |a| && |multiset(b)| == |b|;
  }

  lemma {:induction false} InsertElements(id: int, sorted: seq<int>, rank: map<int, Rank>)
    requires id in rank && forall k :: 0 <= k < |sorted| ==> sorted[k] in rank
    ensures multiset(Insert(id, sorted, rank)) == multiset([id]) + multiset(sorted)
  {
    if sorted == [] || Compare(rank[id], rank[sorted[0]]) < 0 {
    } else {
      InsertElements(id, sorted[1..], rank);
      assert sorted == [sorted[0]] + sorted[1..];
    }
  }

  lemma CompareTransitive(a: Rank, b: Rank, c: Rank)
    ensures Compare(a, b) < 0 && Compare(b, c) < 0 ==> Compare(a, c) < 0
  {
  }

  lemma CompareIsStrict(a: Rank, b: Rank)
    ensures Compare(a, b) < 0 ==> !(Compare(b, a) < 0)
    ensures a.id != b.id && !(Compare(a, b) < 0) ==> Compare(b, a) < 0
  {
  }

  lemma SortedCons(id: int, ids: seq<int>, rank: map<int, Rank>)
    requires id in rank && rank[id].id == id
    requires Ranked(ids, rank) && Sorted(ids, rank) && Leads(id, ids, rank)
    ensures Ranked([id] + ids, rank) && Sorted([id] + ids, rank)
  {
    hide Compare;
  }

  // What leads both the row put in and the others leads them together.
  lemma {:induction false} InsertKeepsLeads(x: int, id: int, sorted: seq<int>, rank: map<int, Rank>)
    requires x in rank && id in rank && rank[id].id == id && Ranked(sorted, rank)
    requires Leads(x, sorted, rank) && Compare(rank[x], rank[id]) < 0
    ensures Ranked(Insert(id, sorted, rank), rank) && Leads(x, Insert(id, sorted, rank), rank)
  {
    hide Compare;
    if sorted != [] && !(Compare(rank[id], rank[sorted[0]]) < 0) {
      InsertKeepsLeads(x, id, sorted[1..], rank);
    }
  }

  lemma {:induction false} InsertSorted(id: int, sorted: seq<int>, rank: map<int, Rank>)
    requires id in rank && rank[id].id == id && id !in sorted
    requires Ranked(sorted, rank) && Sorted(sorted, rank)
    ensures Ranked(Insert(id, sorted, rank), rank)
    ensures Sorted(Insert(id, sorted, rank), rank)
  {
    hide Compare;
    if sorted != [] {
      assert forall k :: 1 <= k < |sorted| ==> Compare(rank[sorted[0]], rank[sorted[k]]) < 0;
      if Compare(rank[id], rank[sorted[0]]) < 0 {
        forall k | 0 <= k < |sorted| ensures Compare(rank[id], rank[sorted[k]]) < 0 {
          CompareTransitive(rank[id], rank[sorted[0]], rank[sorted[k]]);
        }
        SortedCons(id, sorted, rank);
      } else {
        InsertSorted(id, sorted[1..], rank);
        CompareIsStrict(rank[id], rank[sorted[0]]);
        assert Leads(sorted[0], sorted[1..], rank);
        InsertKeepsLeads(sorted[0], id, sorted[1..], rank);
        SortedCons(sorted[0], Insert(id, sorted[1..], rank), rank);
      }
    }
  }

  // Sorting a duplicate-free group gives a strictly ordered group.
  lemma {:induction false} SortSorts(ids: seq<int>, rank: map<int, Rank>)
    requires Ranked(ids, rank) && Distinct(ids)
    ensures Ranked(Sort(ids, rank), rank) && Sorted(Sort(ids, rank), rank)
  {
    hide Compare;
    if ids != [] {
      SortSorts(ids[1..], rank);
      SameElements(Sort(ids[1..], rank), ids[1..]);
      InsertSorted(ids[0], Sort(ids[1..], rank), rank);
    }
  }

  lemma SortedIsDistinct(ids: seq<int>, rank: map<int, Rank>)
    requires Ranked(ids, rank) && Sorted(ids, rank)
    ensures Distinct(ids)
  {
  }

  // The order is determined by the ranks alone: any two strictly ordered
  // arrangements of the same rows are the same sequence.
  lemma {:induction false} SortedIsUnique(a: seq<int>, b: seq<int>, rank: map<int, Rank>)
    requires Ranked(a, rank) && Sorted(a, rank)
    requires Ranked(b, rank) && Sorted(b, rank)
    requires multiset(a) == multiset(b)
    ensures a == b
  {
    hide Compare;
    SameElements(a, b);
    if a != [] {
      FirstPrecedes(a, b[0], rank);
      FirstPrecedes(b, a[0], rank);
      CompareIsStrict(rank[a[0]], rank[b[0]]);
      SameTail(a, b);
      SortedIsUnique(a[1..], b[1..], rank);
      assert a == [a[0]] + a[1..];
    }
  }

  lemma FirstPrecedes(a: seq<int>, x: int, rank: map<int, Rank>)
    requires Ranked(a, rank) && Sorted(a, rank) && x in a
    ensures x in rank && (a[0] == x || Compare(rank[a[0]], rank[x]) < 0)
  {
    var j :| 0 <= j < |a| && a[j] == x;
  }

  lemma SameTail(a: seq<int>, b: seq<int>)
    requires |a| > 0 && |b| > 0 && a[0] == b[0] && multiset(a) == multiset(b)
    ensures multiset(a[1..]) == multiset(b[1..])
  {
    assert a == [a[0]] + a[1..] && b == [b[0]] + b[1..];
    assert multiset(a[1..]) == multiset(a) - multiset{a[0]};
    assert multiset(b[1..]) == multiset(b) - multiset{b[0]};
  }

  // The survivor outranks every other row of its group, whatever order the rows came in.
  lemma SurvivorIsTheBest(ids: seq<int>, rank: map<int, Rank>)
    requires Ranked(ids, rank) && Distinct(ids) && ids != []
    ensures var sorted := Sort(ids, rank);
            && sorted != [] && sorted[0] in ids && sorted[0] in rank
            && forall i :: i in ids && i != sorted[0] ==> i in rank && Compare(rank[sorted[0]], rank[i]) < 0
  {
    hide Compare, Sort;
    var sorted := Sort(ids, rank);
    SortSorts(ids, rank);
    SameElements(sorted, ids);
    assert sorted[0] in sorted;
    forall i | i in ids && i != sorted[0]
      ensures i in rank && Compare(rank[sorted[0]], rank[i]) < 0
    {
      assert i in sorted;
      var j :| 0 <= j < |sorted| && sorted[j] == i;
    }
  }
}
