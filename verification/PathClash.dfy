// When giving one row of every group a new value of a UNIQUE column succeeds.
// `stored` maps a row id to its value; group i keeps row winners[i], which takes news[i],
// and drops its other rows. Groups are handled one after the other.
module PathClash {
  import opened Grouping

  ghost predicate Shaped(groups: seq<seq<int>>, winners: seq<int>, news: seq<string>) {
    && |winners| == |groups| == |news|
    && (forall i :: 0 <= i < |groups| ==> winners[i] in groups[i])
    && (forall i, j :: 0 <= i < j < |news| ==> news[i] != news[j])
  }

  ghost function Moved(stored: map<int, string>, group: seq<int>, winner: int, path: string): map<int, string> {
    (stored - (AsSet(group) - {winner}))[winner := path]
  }

  // What the loop does: each group is checked against the rows as they are at that moment.
  ghost predicate AllAccepted(stored: map<int, string>, groups: seq<seq<int>>, winners: seq<int>, news: seq<string>)
    requires Shaped(groups, winners, news)
    decreases |groups|
  {
    groups == [] ||
    (&& (forall u :: u in stored && u !in groups[0] ==> stored[u] != news[0])
     && AllAccepted(Moved(stored, groups[0], winners[0], news[0]), groups[1..], winners[1..], news[1..]))
  }

  // What can be seen beforehand: the new path of group i is stored by no row outside the
  // groups handled so far.
  ghost predicate FreeAt(stored: map<int, string>, groups: seq<seq<int>>, news: seq<string>, i: nat)
    requires i < |groups| == |news|
  {
    forall u :: u in stored && !InSome(groups[..i + 1], u) ==> stored[u] != news[i]
  }

  ghost predicate PathsAreFree(stored: map<int, string>, groups: seq<seq<int>>, news: seq<string>)
    requires |groups| == |news|
  {
    forall i :: 0 <= i < |groups| ==> FreeAt(stored, groups, news, i)
  }

  lemma InSomeSplit(groups: seq<seq<int>>, n: nat, u: int)
    requires n < |groups|
    ensures InSome(groups[..n + 1], u) <==> u in groups[0] || InSome(groups[1..][..n], u)
  {
    if InSome(groups[..n + 1], u) && u !in groups[0] {
      var k :| 0 <= k < n + 1 && u in groups[..n + 1][k];
      assert u in groups[1..][..n][k - 1];
    }
    if InSome(groups[1..][..n], u) {
      var k :| 0 <= k < n && u in groups[1..][..n][k];
      assert u in groups[..n + 1][k + 1];
    }
    if u in groups[0] { assert u in groups[..n + 1][0]; }
  }

  lemma FreeAtHead(stored: map<int, string>, groups: seq<seq<int>>, news: seq<string>)
    requires 0 < |groups| == |news|
    ensures FreeAt(stored, groups, news, 0) <==> forall u :: u in stored && u !in groups[0] ==> stored[u] != news[0]
  {
    forall u ensures InSome(groups[..1], u) <==> u in groups[0] {
      if u in groups[0] { assert u in groups[..1][0]; }
    }
    assert groups[..0 + 1] == groups[..1];
  }

  lemma FreeAtTail(stored: map<int, string>, groups: seq<seq<int>>, winners: seq<int>, news: seq<string>, i: nat)
    requires Shaped(groups, winners, news) && 0 < i < |groups|
    ensures FreeAt(stored, groups, news, i)
            <==> FreeAt(Moved(stored, groups[0], winners[0], news[0]), groups[1..], news[1..], i - 1)
  {
    var after := Moved(stored, groups[0], winners[0], news[0]);
    forall u ensures InSome(groups[..i + 1], u) <==> u in groups[0] || InSome(groups[1..][..i], u) {
      InSomeSplit(groups, i, u);
    }
    assert groups[1..][..(i - 1) + 1] == groups[1..][..i] && news[1..][i - 1] == news[i];
    if FreeAt(stored, groups, news, i) {
      forall u | u in after && !InSome(groups[1..][..i], u) ensures after[u] != news[i] {
        if u != winners[0] { assert u in stored && u !in groups[0]; }
      }
    }
    if FreeAt(after, groups[1..], news[1..], i - 1) {
      forall u | u in stored && !InSome(groups[..i + 1], u) ensures stored[u] != news[i] {
        assert u !in groups[0] && u in after && after[u] == stored[u];
      }
    }
  }

  lemma {:induction false} AcceptedIffFree(stored: map<int, string>, groups: seq<seq<int>>, winners: seq<int>,
                                           news: seq<string>)
    requires Shaped(groups, winners, news)
    ensures AllAccepted(stored, groups, winners, news) <==> PathsAreFree(stored, groups, news)
    decreases |groups|
  {
    hide FreeAt, Moved;
    if groups != [] {
      var after := Moved(stored, groups[0], winners[0], news[0]);
      FreeAtHead(stored, groups, news);
      assert Shaped(groups[1..], winners[1..], news[1..]);
      AcceptedIffFree(after, groups[1..], winners[1..], news[1..]);
      forall i | 0 < i < |groups|
        ensures FreeAt(stored, groups, news, i) <==> FreeAt(after, groups[1..], news[1..], i - 1)
      {
        FreeAtTail(stored, groups, winners, news, i);
      }
      if PathsAreFree(stored, groups, news) {
        forall i | 0 <= i < |groups[1..]| ensures FreeAt(after, groups[1..], news[1..], i) {
          assert FreeAt(stored, groups, news, i + 1);
        }
      }
    }
  }
}
