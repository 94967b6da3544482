/** Least-loaded placement over a fixed set of nodes: what the greedy rule achieves, and that no other
    placement does better (master/master.go, Assign and addResources). */
module Placement {
  import opened Sums

  /** Payload by node id. */
  type Loads = map<string, int>

  ghost predicate Least(l: Loads, id: string) {
    id in l && forall other | other in l :: l[id] <= l[other]
  }

  ghost predicate IsMax(l: Loads, m: int) {
    (exists id :: id in l && l[id] == m) && forall id | id in l :: l[id] <= m
  }

  function Bump(l: Loads, id: string): Loads
    requires id in l
  {
    l[id := l[id] + 1]
  }

  /** Every pick names a node. */
  predicate Within(l: Loads, picks: seq<string>) {
    forall id | id in picks :: id in l
  }

  /** One unit placed on each id in turn. */
  function Placed(l: Loads, picks: seq<string>): Loads
    requires Within(l, picks)
    ensures Placed(l, picks).Keys == l.Keys
  {
    if |picks| == 0 then l else Bump(Placed(l, picks[..|picks| - 1]), picks[|picks| - 1])
  }

  /** Every pick was a least-loaded node when it was made. */
  ghost predicate Greedy(l: Loads, picks: seq<string>) {
    && Within(l, picks)
    && (|picks| > 0 ==>
          && Greedy(l, picks[..|picks| - 1])
          && Least(Placed(l, picks[..|picks| - 1]), picks[|picks| - 1]))
  }

  // ---------------------------------------------------------------- totals

  ghost function Total(l: Loads): int
    decreases |l|
  {
    if l == map[] then 0
    else
      var id :| id in l;
      l[id] + Total(l - {id})
  }

  /** The total does not depend on the order in which nodes are added up. */
  lemma {:induction false} TotalSplit(l: Loads, id: string)
    requires id in l
    ensures Total(l) == l[id] + Total(l - {id})
    decreases |l|
  {
    var first :| first in l && Total(l) == l[first] + Total(l - {first});
    if first != id {
      TotalSplit(l - {first}, id);
      TotalSplit(l - {id}, first);
      assert l - {first} - {id} == l - {id} - {first};
    }
  }

  lemma {:induction false} TotalBump(l: Loads, id: string)
    requires id in l
    ensures Total(Bump(l, id)) == Total(l) + 1
  {
    TotalSplit(l, id);
    TotalSplit(Bump(l, id), id);
    assert Bump(l, id) - {id} == l - {id};
  }

  lemma {:induction false} TotalPlaced(l: Loads, picks: seq<string>)
    requires Within(l, picks)
    ensures Total(Placed(l, picks)) == Total(l) + |picks|
  {
    if |picks| == 0 {
    } else {
      TotalPlaced(l, picks[..|picks| - 1]);
      TotalBump(Placed(l, picks[..|picks| - 1]), picks[|picks| - 1]);
    }
  }

  lemma {:induction false} OneFewer(l: Loads, id: string, m: int)
    requires id in l
    ensures |l - {id}| * m + m == |l| * m
  {
    assert (l - {id}).Keys == l.Keys - {id};
    assert (|l| - 1) * m + m == |l| * m;
  }

  lemma {:induction false} TotalAtMost(l: Loads, m: int)
    requires forall id | id in l :: l[id] <= m
    ensures Total(l) <= |l| * m
    decreases |l|
  {
    if l != map[] {
      var id :| id in l;
      TotalSplit(l, id);
      TotalAtMost(l - {id}, m);
      OneFewer(l, id, m);
    }
  }

  lemma {:induction false} TotalLevel(l: Loads, m: int)
    requires forall id | id in l :: l[id] == m
    ensures Total(l) == |l| * m
    decreases |l|
  {
    if l != map[] {
      var id :| id in l;
      TotalSplit(l, id);
      TotalLevel(l - {id}, m);
      OneFewer(l, id, m);
    }
  }

  // ---------------------------------------------------------------- the maximum

  /** The total divided by n, rounded up (CeilBounds says so). */
  function CeilDiv(total: int, n: nat): int
    requires n > 0
    decreases if total > 0 then total else n - total + 1
  {
    if total > n then CeilDiv(total - n, n) + 1
    else if total <= 0 then CeilDiv(total + n, n) - 1
    else 1
  }

  lemma {:induction false} CeilBounds(total: int, n: nat)
    requires n > 0
    ensures (CeilDiv(total, n) - 1) * n < total <= CeilDiv(total, n) * n
    decreases if total > 0 then total else n - total + 1
  {
    if total > n {
      CeilBounds(total - n, n);
      Shift(CeilDiv(total - n, n), n);
    } else if total <= 0 {
      CeilBounds(total + n, n);
      Shift(CeilDiv(total + n, n) - 1, n);
      Shift(CeilDiv(total + n, n) - 2, n);
    }
  }

  lemma {:induction false} Shift(m: int, n: nat)
    ensures (m + 1) * n == m * n + n
  {
  }

  lemma {:induction false} CeilIsLeast(total: int, n: nat, m: int)
    requires n > 0 && total <= m * n
    ensures CeilDiv(total, n) <= m
  {
    CeilBounds(total, n);
    MulOrder(m, CeilDiv(total, n) - 1, n);
  }

  lemma {:induction false} MulOrder(a: int, b: int, n: nat)
    ensures a <= b ==> a * n <= b * n
  {
  }

  lemma {:induction false} CeilMonotone(total: int, more: int, n: nat)
    requires n > 0 && total <= more
    ensures CeilDiv(total, n) <= CeilDiv(more, n)
  {
    CeilBounds(more, n);
    CeilIsLeast(total, n, CeilDiv(more, n));
  }

  /** The maximum a greedy run must end with, given the initial maximum. */
  function Balanced(initial: int, total: int, n: nat): int
    requires n > 0
  {
    Max(initial, CeilDiv(total, n))
  }

  lemma {:induction false} PlacedAtLeast(l: Loads, picks: seq<string>, id: string)
    requires Within(l, picks) && id in l
    ensures Placed(l, picks)[id] >= l[id]
  {
    if |picks| == 0 {
    } else {
      PlacedAtLeast(l, picks[..|picks| - 1], id);
    }
  }

  /** No placement of k units, greedy or not, ends below the balanced maximum. */
  lemma {:induction false} NoPlacementBeats(l: Loads, picks: seq<string>, initial: int, m: int)
    requires |l| > 0 && Within(l, picks)
    requires IsMax(l, initial) && IsMax(Placed(l, picks), m)
    ensures Balanced(initial, Total(l) + |picks|, |l|) <= m
  {
    var top :| top in l && l[top] == initial;
    PlacedAtLeast(l, picks, top);
    TotalPlaced(l, picks);
    TotalAtMost(Placed(l, picks), m);
    assert |Placed(l, picks)| == |Placed(l, picks).Keys| == |l.Keys| == |l|;
    CeilIsLeast(Total(l) + |picks|, |l|, m);
  }

  lemma {:induction false} GreedyStep(l: Loads, id: string, initial: int, total: int, n: nat)
    requires n == |l| > 0 && total == Total(l) && Least(l, id)
    requires IsMax(l, Balanced(initial, total, n))
    ensures IsMax(Bump(l, id), Balanced(initial, total + 1, n))
  {
    var m := Balanced(initial, total, n);
    var after := Bump(l, id);
    CeilMonotone(total, total + 1, n);
    TotalBump(l, id);
    assert after.Keys == l.Keys;
    if l[id] < m {
      var top :| top in l && l[top] == m;
      assert after[top] == m;
      TotalAtMost(after, m);
      CeilIsLeast(total + 1, n, m);
    } else {
      TotalLevel(l, m);
      FullLevel(n, m);
      assert after[id] == m + 1;
    }
  }

  lemma {:induction false} FullLevel(n: nat, m: int)
    requires n > 0
    ensures CeilDiv(n * m, n) == m && CeilDiv(n * m + 1, n) == m + 1
  {
    CeilIsLeast(n * m, n, m);
    assert (m + 1) * n == m * n + n;
    CeilIsLeast(n * m + 1, n, m + 1);
    var c, d := CeilDiv(n * m, n), CeilDiv(n * m + 1, n);
    CeilBounds(n * m, n);
    CeilBounds(n * m + 1, n);
    MulOrder(c, m - 1, n);
    assert (m - 1) * n == m * n - n;
    MulOrder(d, m, n);
  }

  lemma {:induction false} NothingPlaced(l: Loads, initial: int)
    requires |l| > 0 && IsMax(l, initial)
    ensures Balanced(initial, Total(l), |l|) == initial
  {
    TotalAtMost(l, initial);
    CeilIsLeast(Total(l), |l|, initial);
  }

  /** Greedy placement of k units on n nodes with total S and maximum M ends with the maximum
      max(M, ceil((S + k) / n)). */
  lemma {:induction false} GreedyMax(l: Loads, picks: seq<string>, initial: int)
    requires |l| > 0 && Greedy(l, picks) && IsMax(l, initial)
    ensures IsMax(Placed(l, picks), Balanced(initial, Total(l) + |picks|, |l|))
  {
    if |picks| == 0 {
      NothingPlaced(l, initial);
    } else {
      var front, last := picks[..|picks| - 1], picks[|picks| - 1];
      GreedyMax(l, front, initial);
      GreedyMaxSnoc(l, front, last, initial);
      assert Placed(l, picks) == Bump(Placed(l, front), last);
    }
  }

  lemma {:induction false} GreedyMaxSnoc(l: Loads, front: seq<string>, last: string, initial: int)
    requires |l| > 0 && Within(l, front) && Least(Placed(l, front), last)
    requires IsMax(Placed(l, front), Balanced(initial, Total(l) + |front|, |l|))
    ensures IsMax(Bump(Placed(l, front), last), Balanced(initial, Total(l) + |front| + 1, |l|))
  {
    var before := Placed(l, front);
    TotalPlaced(l, front);
    assert |before| == |before.Keys| == |l.Keys| == |l|;
    GreedyStep(before, last, initial, Total(l) + |front|, |l|);
  }

  /** From a largest payload of M, the final loads have the maximum max(M, ceil((S + k) / n)), and no other
      way of placing k units on the same nodes has a smaller one. */
  ghost predicate Optimal(l: Loads, final: Loads, k: nat, initial: int)
    requires |l| > 0
  {
    var best := Balanced(initial, Total(l) + k, |l|);
    IsMax(final, best) && Unbeaten(l, k, best)
  }

  ghost predicate Unbeaten(l: Loads, k: nat, best: int) {
    forall others, m | |others| == k && Within(l, others) && IsMax(Placed(l, others), m) :: best <= m
  }

  /** So greedy placement is optimal. */
  lemma {:induction false} GreedyIsOptimal(l: Loads, picks: seq<string>, initial: int)
    requires |l| > 0 && Greedy(l, picks) && IsMax(l, initial)
    ensures Optimal(l, Placed(l, picks), |picks|, initial)
  {
    var final := Placed(l, picks);
    assert IsMax(final, Balanced(initial, Total(l) + |picks|, |l|)) by { GreedyMax(l, picks, initial); }
    OptimalAtMax(l, final, |picks|, initial);
  }

  lemma {:induction false} OptimalAtMax(l: Loads, final: Loads, k: nat, initial: int)
    requires |l| > 0 && IsMax(l, initial) && IsMax(final, Balanced(initial, Total(l) + k, |l|))
    ensures Optimal(l, final, k, initial)
  {
    NothingBeats(l, k, initial);
  }

  lemma {:induction false} NothingBeats(l: Loads, k: nat, initial: int)
    requires |l| > 0 && IsMax(l, initial)
    ensures Unbeaten(l, k, Balanced(initial, Total(l) + k, |l|))
  {
    forall others, m | |others| == k && Within(l, others) && IsMax(Placed(l, others), m)
      ensures Balanced(initial, Total(l) + k, |l|) <= m
    {
      NoPlacementBeats(l, others, initial, m);
    }
  }

  /** There is always a maximum to start from. */
  lemma {:induction false} MaxExists(l: Loads) returns (m: int)
    requires |l| > 0
    ensures IsMax(l, m)
    decreases |l|
  {
    var id :| id in l;
    var rest := l - {id};
    assert forall other | other in l && other != id :: other in rest && rest[other] == l[other];
    if rest == map[] {
      m := l[id];
    } else {
      var below := MaxExists(rest);
      var top :| top in rest && rest[top] == below;
      m := Max(below, l[id]);
      assert l[if below < l[id] then id else top] == m;
      assert forall other | other in rest :: rest[other] <= below;
    }
  }

  // ---------------------------------------------------------------- the spread

  ghost predicate SpreadAtMost(l: Loads, d: int) {
    forall a, b | a in l && b in l :: l[a] - l[b] <= d
  }

  /** Greedy placement never widens the gap between two nodes beyond the initial gap or one. */
  lemma {:induction false} GreedySpread(l: Loads, picks: seq<string>, d: int)
    requires Greedy(l, picks) && SpreadAtMost(l, d) && d >= 1
    ensures SpreadAtMost(Placed(l, picks), d)
  {
    if |picks| == 0 {
    } else {
      var front, last := picks[..|picks| - 1], picks[|picks| - 1];
      GreedySpread(l, front, d);
      SpreadStep(Placed(l, front), last, d);
    }
  }

  lemma {:induction false} SpreadStep(l: Loads, id: string, d: int)
    requires Least(l, id) && SpreadAtMost(l, d) && d >= 1
    ensures SpreadAtMost(Bump(l, id), d)
  {
  }

  /** A greedy run continued by one least-loaded pick. */
  lemma {:induction false} GreedySnoc(l: Loads, picks: seq<string>, id: string)
    requires Greedy(l, picks) && Least(Placed(l, picks), id)
    ensures Greedy(l, picks + [id]) && Placed(l, picks + [id]) == Bump(Placed(l, picks), id)
  {
    assert (picks + [id])[..|picks|] == picks;
  }
}
