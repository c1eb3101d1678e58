/** Breadth-first search over claims, on numbers as the solver stores them. */
module ClaimSearch {
  import opened Pigeonhole
  import opened Cells
  import opened Solutions
  import opened Marks
  import opened Deductions

  /** A claim's number: node times two, plus one when on. */
  type Entry = e: int | 0 <= e < 1458

  function EntryOf(y: Claim): (e: Entry) {
    (y.cell * 9 + y.digit - 1) * 2 + if y.on then 1 else 0
  }

  function ClaimOf(e: Entry): Claim {
    Claim(e / 2 / 9, e / 2 % 9 + 1, e % 2 == 1)
  }

  lemma EntryInverse(y: Claim)
    ensures ClaimOf(EntryOf(y)) == y
  {
  }

  /** Distances by entry, -1 where unseen, with the seen entries in the order they were queued. */
  ghost predicate Layout(dist: seq<int>, order: seq<int>) {
    && |dist| == 1458
    && (forall i :: 0 <= i < |order| ==> 0 <= order[i] < 1458)
    && (forall i, j :: 0 <= i < j < |order| ==> order[i] != order[j])
    && (forall e: Entry :: e in order <==> dist[e] >= 0)
  }

  /** Each entry is queued once, so the queue never outgrows its buffer. */
  lemma QueueFits(dist: seq<int>, order: seq<int>)
    requires Layout(dist, order)
    ensures |order| <= 1458
    ensures forall e: Entry :: dist[e] < 0 ==> |order| < 1458
  {
    var all := set e: Entry | dist[e] >= 0;
    EntryCount();
    var every := set e: Entry | IsEntry(e);
    forall i | 0 <= i < |order| ensures order[i] in all { var e: Entry := order[i]; assert e in order; }
    DistinctLength(order, all);
    SubsetSize(all, every);
    if e: Entry :| dist[e] < 0 {
      assert all <= every - {e as int};
      SubsetSize(all, every - {e as int});
    }
  }

  predicate IsEntry(e: int) { 0 <= e < 1458 }

  lemma EntryCount()
    ensures |set e: Entry | IsEntry(e)| == 1458
  {
    CountBelow(1458);
    assert (set e: Entry | IsEntry(e)) == set e: int | 0 <= e < 1458 && IsEntry(e);
  }

  lemma {:induction false} CountBelow(n: nat)
    requires n <= 1458
    ensures |set e: int | 0 <= e < n && IsEntry(e)| == n
  {
    if n == 0 {
      assert (set e: int | 0 <= e < n && IsEntry(e)) == {};
    } else {
      CountBelow(n - 1);
      assert (set e: int | 0 <= e < n && IsEntry(e)) == (set e: int | 0 <= e < n - 1 && IsEntry(e)) + {n - 1};
    }
  }

  /** What has been found so far is reachable in its distance. */
  ghost predicate Reached(m: State, cell: Cell, digit: Digit, links: nat, dist: seq<int>)
    requires |dist| == 1458
  {
    forall e: Entry :: dist[e] >= 0 ==> dist[e] <= links && ClaimOf(e) in Reach(m, cell, digit, dist[e])
  }

  /** The first `head` queued claims have had their links followed. */
  ghost predicate Followed(m: State, links: nat, dist: seq<int>, order: seq<int>, head: nat)
    requires Layout(dist, order) && head <= |order|
  {
    forall i, y :: 0 <= i < head && dist[order[i]] < links && Link(m, ClaimOf(order[i]), y) ==>
      0 <= dist[EntryOf(y)] <= dist[order[i]] + 1
  }

  /** Claims are queued in order of distance, at most one apart from the claim being followed. */
  ghost predicate Graded(dist: seq<int>, order: seq<int>, head: nat)
    requires Layout(dist, order) && head <= |order|
  {
    && (forall i, j :: 0 <= i < j < |order| ==> dist[order[i]] <= dist[order[j]])
    && (forall j :: 0 <= j < |order| ==> dist[order[j]] <= dist[order[if head > 0 then head - 1 else 0]] + 1)
  }

  /** The search found new claims one link further than x and nothing else changed. */
  ghost predicate Grown(m: State, x: Claim, distance: int, dist0: seq<int>, order0: seq<int>, dist: seq<int>,
      order: seq<int>) {
    && Layout(dist0, order0) && Layout(dist, order)
    && order0 <= order
    && (forall e: Entry :: dist0[e] >= 0 ==> dist[e] == dist0[e])
    && (forall e: Entry :: dist0[e] < 0 && dist[e] >= 0 ==> dist[e] == distance + 1 && Link(m, x, ClaimOf(e)))
  }

  lemma ReachedGrows(m: State, cell: Cell, digit: Digit, links: nat, dist0: seq<int>, order0: seq<int>,
                     dist: seq<int>, order: seq<int>, x: Claim, distance: nat)
    requires Layout(dist0, order0) && Reached(m, cell, digit, links, dist0)
    requires distance < links && x in Reach(m, cell, digit, distance) &&
      Grown(m, x, distance, dist0, order0, dist, order)
    ensures Reached(m, cell, digit, links, dist)
  {
    hide Link, EntryOf, ClaimOf, Reach;
    forall e: Entry | dist[e] >= 0 ensures dist[e] <= links && ClaimOf(e) in Reach(m, cell, digit, dist[e]) {
      if dist0[e] < 0 { OneLinkFurther(m, cell, digit, distance, x, ClaimOf(e)); }
    }
  }

  /** Following one more claim keeps the search on course. */
  lemma FollowOne(m: State, cell: Cell, digit: Digit, links: nat, dist0: seq<int>, order0: seq<int>,
                  dist: seq<int>, order: seq<int>, head: nat)
    requires Layout(dist0, order0) && head < |order0|
    requires Reached(m, cell, digit, links, dist0) && Followed(m, links, dist0, order0, head) &&
      Graded(dist0, order0, head)
    requires dist0[order0[head]] < links
    requires Grown(m, ClaimOf(order0[head]), dist0[order0[head]], dist0, order0, dist, order)
    requires forall y :: Link(m, ClaimOf(order0[head]), y) ==> dist[EntryOf(y)] >= 0
    ensures Reached(m, cell, digit, links, dist) && Graded(dist, order, head + 1)
    ensures Followed(m, links, dist, order, head + 1)
  {
    hide Link, EntryOf, ClaimOf;
    var x, distance := ClaimOf(order0[head]), dist0[order0[head]];
    assert dist[order[head]] == distance by { assert order[head] == order0[head] && order0[head] in order0; }
    assert x in Reach(m, cell, digit, distance) by { assert order0[head] in order0; }
    ReachedGrows(m, cell, digit, links, dist0, order0, dist, order, x, distance);
    hide Reached, Reach;
    GradedStays(m, links, dist0, order0, dist, order, head);
    forall i, y | 0 <= i < head + 1 && dist[order[i]] < links && Link(m, ClaimOf(order[i]), y)
      ensures 0 <= dist[EntryOf(y)] <= dist[order[i]] + 1
    {
      assert order[i] == order0[i];
      var e := EntryOf(y);
      if i == head {
        assert e in order;
      }
    }
  }

  lemma GradedStays(m: State, links: nat, dist0: seq<int>, order0: seq<int>, dist: seq<int>, order: seq<int>, head: nat)
    requires Layout(dist0, order0) && head < |order0| && Graded(dist0, order0, head)
    requires Grown(m, ClaimOf(order0[head]), dist0[order0[head]], dist0, order0, dist, order)
    ensures Graded(dist, order, head + 1)
  {
  }

  lemma OneLinkFurther(m: State, cell: Cell, digit: Digit, distance: nat, x: Claim, y: Claim)
    requires x in Reach(m, cell, digit, distance) && Link(m, x, y)
    ensures y in Reach(m, cell, digit, distance + 1)
  {
  }

  lemma {:induction false} ReachGrows(m: State, cell: Cell, digit: Digit, k: nat, links: nat)
    requires k <= links
    ensures Reach(m, cell, digit, k) <= Reach(m, cell, digit, links)
    decreases links - k
  {
    if k < links { ReachGrows(m, cell, digit, k + 1, links); }
  }

  /** An exhausted search has found every claim within its links, at its true distance or less. */
  lemma {:induction false} FoundAll(m: State, cell: Cell, digit: Digit, links: nat, dist: seq<int>, order: seq<int>,
      k: nat)
    requires Layout(dist, order) && Followed(m, links, dist, order, |order|) && k <= links
    requires dist[EntryOf(Claim(cell, digit, false))] == 0
    ensures forall y :: y in Reach(m, cell, digit, k) ==> 0 <= dist[EntryOf(y)] <= k
  {
    hide Link, EntryOf, ClaimOf;
    if k > 0 {
      FoundAll(m, cell, digit, links, dist, order, k - 1);
      var near := Reach(m, cell, digit, k - 1);
      forall y | y in Reach(m, cell, digit, k) && y !in near ensures 0 <= dist[EntryOf(y)] <= k {
        var x :| x in near && Link(m, x, y);
        var e := EntryOf(x);
        assert e in order;
        var i :| 0 <= i < |order| && order[i] == e;
        EntryInverse(x);
      }
    }
  }

  /** At the end the numbers and the definition agree. */
  lemma SearchExact(m: State, cell: Cell, digit: Digit, links: nat, dist: seq<int>, order: seq<int>, y: Claim)
    requires Layout(dist, order) && Followed(m, links, dist, order, |order|)
    requires Reached(m, cell, digit, links, dist) && dist[EntryOf(Claim(cell, digit, false))] == 0
    ensures dist[EntryOf(y)] >= 0 <==> y in Reach(m, cell, digit, links)
  {
    hide Link, EntryOf, ClaimOf;
    FoundAll(m, cell, digit, links, dist, order, links);
    if dist[EntryOf(y)] >= 0 {
      EntryInverse(y);
      ReachGrows(m, cell, digit, dist[EntryOf(y)], links);
    }
  }
}
