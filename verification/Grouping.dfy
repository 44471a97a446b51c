// Rows collected into groups with the same key, in order of first appearance:
// a JavaScript Map from key to array, read back with values().
module Grouping {
  import opened Sequences

  datatype Groups = Groups(keys: seq<string>, members: map<string, seq<int>>)

  function Add(g: Groups, key: string, id: int): Groups {
    if key in g.members then g.(members := g.members[key := g.members[key] + [id]])
    else Groups(g.keys + [key], g.members[key := [id]])
  }

  function GroupBy(ids: seq<int>, key: int -> string): (g: Groups)
    ensures forall i :: 0 <= i < |g.keys| ==> g.keys[i] in g.members
  {
    if ids == [] then Groups([], map[])
    else Add(GroupBy(ids[..|ids| - 1], key), key(ids[|ids| - 1]), ids[|ids| - 1])
  }

  function Values(g: Groups): (r: seq<seq<int>>)
    requires forall i :: 0 <= i < |g.keys| ==> g.keys[i] in g.members
    ensures |r| == |g.keys| && forall i :: 0 <= i < |r| ==> r[i] == g.members[g.keys[i]]
  {
    seq(|g.keys|, i requires 0 <= i < |g.keys| => g.members[g.keys[i]])
  }

  // Non-empty, duplicate-free groups, one per key, that together hold exactly `ids`.
  ghost predicate Partition(groups: seq<seq<int>>, ids: set<int>, key: int -> string) {
    && (forall i :: 0 <= i < |groups| ==> groups[i] != [] && Distinct(groups[i]))
    && (forall i, x :: 0 <= i < |groups| && x in groups[i] ==> x in ids && key(x) == key(groups[i][0]))
    && (forall i, j :: 0 <= i < j < |groups| ==> key(groups[i][0]) != key(groups[j][0]))
    && (forall x :: x in ids ==> InSome(groups, x))
  }

  ghost predicate InSome(groups: seq<seq<int>>, x: int) {
    exists i :: 0 <= i < |groups| && x in groups[i]
  }

  // The rows of one key, in their original order.
  ghost function Select(ids: seq<int>, key: int -> string, k: string): seq<int> {
    if ids == [] then []
    else
      var front, last := Select(ids[..|ids| - 1], key, k), ids[|ids| - 1];
      if key(last) == k then front + [last] else front
  }

  lemma {:induction false} SelectContains(ids: seq<int>, key: int -> string, k: string, x: int)
    ensures x in Select(ids, key, k) <==> x in ids && key(x) == k
  {
    if ids != [] {
      SelectContains(ids[..|ids| - 1], key, k, x);
      assert ids == ids[..|ids| - 1] + [ids[|ids| - 1]];
    }
  }

  lemma {:induction false} SelectIsDistinct(ids: seq<int>, key: int -> string, k: string)
    requires Distinct(ids)
    ensures Distinct(Select(ids, key, k))
  {
    if ids != [] {
      SelectIsDistinct(ids[..|ids| - 1], key, k);
      SelectContains(ids[..|ids| - 1], key, k, ids[|ids| - 1]);
    }
  }

  // The Map holds, per key, exactly the rows of that key; its keys are listed once each.
  lemma {:induction false} GroupByCollects(ids: seq<int>, key: int -> string, k: string)
    ensures var g := GroupBy(ids, key);
            && (k in g.members <==> Select(ids, key, k) != [])
            && (k in g.members <==> k in g.keys)
            && (k in g.members ==> g.members[k] == Select(ids, key, k))
  {
    if ids != [] { GroupByCollects(ids[..|ids| - 1], key, k); }
  }

  lemma {:induction false} GroupByKeysDiffer(ids: seq<int>, key: int -> string)
    ensures forall i, j :: 0 <= i < j < |GroupBy(ids, key).keys| ==>
        GroupBy(ids, key).keys[i] != GroupBy(ids, key).keys[j]
  {
    if ids != [] {
      GroupByKeysDiffer(ids[..|ids| - 1], key);
      GroupByCollects(ids[..|ids| - 1], key, key(ids[|ids| - 1]));
    }
  }

  lemma GroupIsSelect(ids: seq<int>, key: int -> string, i: nat)
    requires Distinct(ids) && i < |GroupBy(ids, key).keys|
    ensures var g := GroupBy(ids, key); var group := Values(g)[i];
            && group == Select(ids, key, g.keys[i]) && group != [] && Distinct(group)
            && key(group[0]) == g.keys[i]
            && forall x :: x in group ==> x in ids && key(x) == g.keys[i]
  {
    var g := GroupBy(ids, key);
    var group := Values(g)[i];
    GroupByCollects(ids, key, g.keys[i]);
    SelectIsDistinct(ids, key, g.keys[i]);
    forall x | x in group ensures x in ids && key(x) == g.keys[i] {
      SelectContains(ids, key, g.keys[i], x);
    }
    assert group[0] in group;
  }

  // The groups partition the rows by key.
  lemma GroupByPartitions(ids: seq<int>, key: int -> string)
    requires Distinct(ids)
    ensures Partition(Values(GroupBy(ids, key)), (set x | x in ids), key)
  {
    var groups := Values(GroupBy(ids, key));
    forall i | 0 <= i < |groups|
      ensures groups[i] != [] && Distinct(groups[i])
      ensures key(groups[i][0]) == GroupBy(ids, key).keys[i]
      ensures forall x :: x in groups[i] ==> x in ids && key(x) == key(groups[i][0])
    {
      GroupIsSelect(ids, key, i);
    }
    GroupByKeysDiffer(ids, key);
    forall x | x in ids ensures InSome(groups, x) {
      SelectContains(ids, key, key(x), x);
      GroupByCollects(ids, key, key(x));
      var i :| 0 <= i < |groups| && GroupBy(ids, key).keys[i] == key(x);
      assert x in groups[i];
    }
  }

  lemma PartitionGroup(groups: seq<seq<int>>, ids: set<int>, key: int -> string, i: nat)
    requires Partition(groups, ids, key) && i < |groups|
    ensures groups[i] != [] && Distinct(groups[i])
    ensures forall k :: 0 <= k < |groups[i]| ==> groups[i][k] in ids && key(groups[i][k]) == key(groups[i][0])
  {
    forall k | 0 <= k < |groups[i]| ensures groups[i][k] in ids && key(groups[i][k]) == key(groups[i][0]) {
      var x: int := groups[i][k];
      assert x in groups[i];
    }
  }

  lemma PartitionKeysDiffer(groups: seq<seq<int>>, ids: set<int>, key: int -> string)
    requires Partition(groups, ids, key)
    ensures forall i, j :: 0 <= i < j < |groups| ==> key(groups[i][0]) != key(groups[j][0])
  {
  }

  // ---- ORDER BY id ----

  ghost predicate Ascending(r: seq<int>, ids: set<int>) {
    && (forall i, j :: 0 <= i < j < |r| ==> r[i] < r[j])
    && (forall i :: 0 <= i < |r| ==> r[i] in ids)
    && (forall x :: x in ids ==> x in r)
  }

  // There is one ascending listing, so a query result with ORDER BY id is determined.
  lemma {:induction false} AscendingIsUnique(a: seq<int>, b: seq<int>, ids: set<int>)
    requires Ascending(a, ids) && Ascending(b, ids)
    ensures a == b
  {
    AscendingSameFirst(a, b, ids);
    if a != [] {
      AscendingTail(a, ids);
      AscendingTail(b, ids);
      AscendingIsUnique(a[1..], b[1..], ids - {a[0]});
      assert a == [a[0]] + a[1..] && b == [b[0]] + b[1..];
    }
  }

  lemma AscendingSameFirst(a: seq<int>, b: seq<int>, ids: set<int>)
    requires Ascending(a, ids) && Ascending(b, ids)
    ensures |a| > 0 <==> |b| > 0
    ensures |a| > 0 ==> a[0] == b[0]
  {
    if |a| > 0 {
      var x: int := a[0];
      assert x in ids && x in b;
    }
    if |b| > 0 {
      var x: int := b[0];
      assert x in ids && x in a;
    }
  }

  lemma AscendingTail(a: seq<int>, ids: set<int>)
    requires Ascending(a, ids) && a != []
    ensures Ascending(a[1..], ids - {a[0]})
  {
    forall x | x in ids - {a[0]} ensures x in a[1..] {
      var i :| 0 <= i < |a| && a[i] == x;
      assert a[1..][i - 1] == x;
    }
  }

  ghost function AsSet(ids: seq<int>): set<int> {
    set x | x in ids
  }

  lemma {:induction false} AscendingExists(ids: set<int>) returns (r: seq<int>)
    ensures Ascending(r, ids)
    decreases |ids|
  {
    r := [];
    if some :| some in ids {
      var last := Largest(ids, some);
      var front := AscendingExists(ids - {last});
      r := front + [last];
      forall i | 0 <= i < |front| ensures front[i] < last {
        var x: int := front[i];
        assert x in ids - {last};
      }
      forall x | x in ids ensures x in r {
        if x != last { assert x in ids - {last}; }
      }
    }
  }

  lemma {:induction false} Largest(ids: set<int>, some: int) returns (m: int)
    requires some in ids
    ensures m in ids && forall x :: x in ids ==> x <= m
    decreases |ids|
  {
    m := some;
    var rest := ids - {some};
    if next :| next in rest {
      var best := Largest(rest, next);
      if some < best { m := best; }
    }
    forall x | x in ids ensures x <= m {
      assert x == some || x in rest;
    }
  }

  ghost function IdsInOrder(ids: set<int>): (r: seq<int>)
    ensures Ascending(r, ids) && Distinct(r) && AsSet(r) == ids
  {
    assert exists r :: Ascending(r, ids) by { var r := AscendingExists(ids); }
    var r :| Ascending(r, ids);
    AscendingIsSet(r, ids);
    r
  }

  lemma AscendingIsSet(r: seq<int>, ids: set<int>)
    requires Ascending(r, ids)
    ensures AsSet(r) == ids
  {
    forall x ensures x in AsSet(r) <==> x in ids {
      if x in r {
        var i :| 0 <= i < |r| && r[i] == x;
      }
    }
  }

  // The ids of the rows that a query lists by rising id
  method SelectIds(ids: set<int>) returns (r: seq<int>)
    ensures Ascending(r, ids)
  {
    r := [];
    var rest := ids;
    while true
      invariant rest <= ids
      invariant forall i, j :: 0 <= i < j < |r| ==> r[i] < r[j]
      invariant forall i :: 0 <= i < |r| ==> r[i] in ids
      invariant forall x, i :: x in rest && 0 <= i < |r| ==> r[i] < x
      invariant forall x :: x in ids ==> x in rest || x in r
      decreases rest
    {
      if some :| some in rest {
        assert exists m :: m in rest && forall x :: x in rest ==> m <= x by { var m := Smallest(rest, some); }
        var m :| m in rest && forall x :: x in rest ==> m <= x;
        r := r + [m];
        rest := rest - {m};
      } else {
        break;
      }
    }
  }

  lemma {:induction false} Smallest(ids: set<int>, some: int) returns (m: int)
    requires some in ids
    ensures m in ids && forall x :: x in ids ==> m <= x
    decreases |ids|
  {
    m := some;
    var rest := ids - {some};
    if next :| next in rest {
      var least := Smallest(rest, next);
      if least < m { m := least; }
    }
    forall x | x in ids ensures m <= x {
      assert x == some || x in rest;
    }
  }

  // One pass over the rows: each joins the group of its key, which is opened when it is new.
  method CollectGroups(ids: seq<int>, key: int -> string) returns (g: Groups)
    ensures g == GroupBy(ids, key)
  {
    g := Groups([], map[]);
    for i := 0 to |ids|
      invariant g == GroupBy(ids[..i], key)
    {
      assert ids[..i + 1][..|ids[..i + 1]| - 1] == ids[..i];
      g := Add(g, key(ids[i]), ids[i]);
    }
    assert ids[..|ids|] == ids;
  }
}
