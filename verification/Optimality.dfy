/**
 * Serving the shortest remaining time first is optimal: at every clock value it has completed
 * at least as many processes as any other preemptive schedule of one CPU.
 *
 * The argument is majorization. A schedule's state is the vector of remaining times of the
 * arrived processes. `Kept(v, D)` is what is left of v when the positions D are dropped; one
 * vector dominates another when, for every number of dropped positions, the best choice for the
 * first leaves no more than the best choice for the second.
 */
module Optimality {
  import opened Jobs
  import opened Traces

  ghost function Kept(v: seq<nat>, D: set<int>): nat {
    if v == [] then 0 else
      var n := |v| - 1;
      Kept(v[..n], D) + if n in D then 0 else v[n]
  }

  /** Dropping no more positions from a than D, no more is left of a than of b without D. */
  ghost predicate Matched(a: seq<nat>, b: seq<nat>, D: set<int>) {
    exists E: set<int> :: |E| <= |D| && Kept(a, E) <= Kept(b, D)
  }

  ghost predicate Dominates(a: seq<nat>, b: seq<nat>) {
    forall D: set<int> :: Matched(a, b, D)
  }

  // ---------- How Kept changes ----------

  lemma {:induction false} KeptUpdate(v: seq<nat>, j: nat, x: nat, D: set<int>)
    requires j < |v|
    ensures Kept(v[j := x], D) == Kept(v, D) + if j in D then 0 else x - v[j]
  {
    var n := |v| - 1;
    if j == n {
      assert v[j := x][..n] == v[..n];
    } else {
      assert v[j := x][..n] == v[..n][j := x];
      KeptUpdate(v[..n], j, x, D);
    }
  }

  /** Dropping one more position j saves what stands there. */
  lemma {:induction false} KeptDropMore(v: seq<nat>, j: nat, D: set<int>)
    requires j < |v| && j !in D
    ensures Kept(v, D + {j}) == Kept(v, D) - v[j]
  {
    var n := |v| - 1;
    if j == n {
      KeptSame(v[..n], D + {j}, D);
    } else {
      KeptDropMore(v[..n], j, D);
    }
  }

  lemma {:induction false} KeptSame(v: seq<nat>, D: set<int>, E: set<int>)
    requires forall i :: 0 <= i < |v| ==> (i in D <==> i in E)
    ensures Kept(v, D) == Kept(v, E)
  {
    if v != [] {
      KeptSame(v[..|v| - 1], D, E);
    }
  }

  lemma {:induction false} KeptZero(v: seq<nat>, D: set<int>)
    ensures Kept(v, D) == 0 <==> forall i :: 0 <= i < |v| && i !in D ==> v[i] == 0
  {
    if v != [] {
      KeptZero(v[..|v| - 1], D);
    }
  }

  // ---------- One time unit: service ----------

  /** When something is left, it costs nothing to keep the smallest positive entry. */
  lemma {:induction false} KeepSmallest(a: seq<nat>, j: nat, E: set<int>) returns (F: set<int>)
    requires j < |a| && forall i :: 0 <= i < |a| && a[i] > 0 ==> a[j] <= a[i]
    requires Kept(a, E) > 0
    ensures j !in F && |F| <= |E| && Kept(a, F) <= Kept(a, E)
  {
    if j !in E {
      F := E;
    } else {
      KeptZero(a, E);
      var q :| 0 <= q < |a| && q !in E && a[q] > 0;
      var base := E - {j};
      F := base + {q};
      KeptDropMore(a, q, base);
      KeptDropMore(a, j, base);
      assert base + {j} == E;
    }
  }

  /** b loses at most one unit somewhere; a loses one unit at its smallest positive entry. */
  lemma {:induction false} ServiceKeeps(a: seq<nat>, j: nat, b: seq<nat>, b': seq<nat>)
    requires Dominates(a, b)
    requires j < |a| && a[j] > 0 && forall i :: 0 <= i < |a| && a[i] > 0 ==> a[j] <= a[i]
    requires b' == b || exists i :: 0 <= i < |b| && b[i] > 0 && b' == b[i := b[i] - 1]
    ensures Dominates(a[j := a[j] - 1], b')
  {
    var a' := a[j := a[j] - 1];
    forall D: set<int> ensures Matched(a', b', D) {
      assert Matched(a, b, D);
      var E: set<int> :| |E| <= |D| && Kept(a, E) <= Kept(b, D);
      assert Kept(b', D) >= Kept(b, D) - 1 by {
        if b' != b {
          var i :| 0 <= i < |b| && b[i] > 0 && b' == b[i := b[i] - 1];
          KeptUpdate(b, i, b[i] - 1, D);
        }
      }
      if Kept(a, E) == 0 {
        KeptUpdate(a, j, a[j] - 1, E);
        assert Kept(a', E) <= Kept(b', D);
      } else {
        var F := KeepSmallest(a, j, E);
        KeptUpdate(a, j, a[j] - 1, F);
        assert Kept(a', F) <= Kept(b', D);
      }
    }
  }

  /** A vector of zeros dominates everything. */
  lemma {:induction false} ZeroDominates(a: seq<nat>, b: seq<nat>)
    requires forall i :: 0 <= i < |a| ==> a[i] == 0
    ensures Dominates(a, b)
  {
    forall D: set<int> ensures Matched(a, b, D) {
      KeptZero(a, D);
      assert Kept(a, D) <= Kept(b, D);
    }
  }

  // ---------- One time unit: arrivals ----------

  /** The entries `news` go from zero in both vectors to the same value in both. */
  ghost predicate Arrive(v: seq<nat>, v': seq<nat>, full: seq<nat>, news: set<int>) {
    && |v| == |v'| == |full|
    && forall i :: 0 <= i < |v| ==>
         if i in news then v[i] == 0 && v'[i] == full[i] else v'[i] == v[i]
  }

  lemma {:induction false} ArriveKept(a: seq<nat>, a': seq<nat>, b: seq<nat>, b': seq<nat>,
                                      full: seq<nat>, news: set<int>, D: set<int>, E: set<int>)
    requires |a| == |b| && Arrive(a, a', full, news) && Arrive(b, b', full, news)
    requires D * news <= E
    ensures Kept(a', E) + Kept(b, D - news) <= Kept(a, E - (D * news)) + Kept(b', D)
  {
    if a != [] {
      var n := |a| - 1;
      ArriveKept(a[..n], a'[..n], b[..n], b'[..n], full[..n], news, D, E);
    }
  }

  lemma {:induction false} ArrivalKeeps(a: seq<nat>, a': seq<nat>, b: seq<nat>, b': seq<nat>, full: seq<nat>, news: set<int>)
    requires |a| == |b| && Arrive(a, a', full, news) && Arrive(b, b', full, news)
    requires Dominates(a, b)
    ensures Dominates(a', b')
  {
    forall D: set<int> ensures Matched(a', b', D) {
      var old_ := D - news;
      assert Matched(a, b, old_);
      var E: set<int> :| |E| <= |old_| && Kept(a, E) <= Kept(b, old_);
      var F := E + D * news;
      assert |D| == |old_| + |D * news| by { assert D == old_ + D * news; }
      assert |F| <= |E| + |D * news|;
      ArriveKept(a, a', b, b', full, news, D, F);
      KeptShrink(a, F - (D * news), E, news);
      assert Kept(a', F) <= Kept(b', D);
    }
  }

  /** Whether positions holding zero are dropped makes no difference. */
  lemma {:induction false} KeptShrink(v: seq<nat>, D: set<int>, E: set<int>, zeros: set<int>)
    requires forall i :: 0 <= i < |v| && i in zeros ==> v[i] == 0
    requires forall i :: i !in zeros ==> (i in D <==> i in E)
    ensures Kept(v, D) == Kept(v, E)
  {
    if v != [] {
      KeptShrink(v[..|v| - 1], D, E, zeros);
    }
  }

  // ---------- Whole schedules ----------

  /** What has been run by clock t; after its end a schedule idles. */
  function Upto(tr: Trace, t: nat): Trace { if t <= |tr| then tr[..t] else tr }

  /** Remaining times at clock t, as a vector; zero for processes that are not there yet. */
  ghost function Waiting(w: seq<Job>, tr: Trace, t: nat): (v: seq<nat>)
    ensures |v| == |w|
  {
    seq(|w|, i requires 0 <= i < |w| =>
      if w[i].ready <= t && Ran(Upto(tr, t), i) < w[i].exec then w[i].exec - Ran(Upto(tr, t), i) else 0)
  }

  /** The vector after the unit [t, t + 1), before the arrivals at t + 1. */
  ghost function Served(w: seq<Job>, tr: Trace, t: nat): seq<nat> {
    var v := Waiting(w, tr, t);
    if t < |tr| && 0 <= tr[t] < |w| && v[tr[t]] > 0 then v[tr[t] := v[tr[t]] - 1] else v
  }

  ghost function News(w: seq<Job>, t: nat): set<int> { set i | 0 <= i < |w| && w[i].ready == t }

  lemma {:induction false} ArrivalsAfterService(w: seq<Job>, tr: Trace, t: nat)
    requires Feasible(w, tr)
    ensures Arrive(Served(w, tr, t), Waiting(w, tr, t + 1), Execs(w), News(w, t + 1))
  {
    Prefix(w, tr, |Upto(tr, t)|);
    assert Feasible(w, Upto(tr, t)) by { assert tr[..|tr|] == tr; }
    FeasibleBounds(w, Upto(tr, t));
    FeasibleBounds(w, Upto(tr, t + 1)) by {
      Prefix(w, tr, |Upto(tr, t + 1)|);
      assert tr[..|tr|] == tr;
    }
    if t < |tr| {
      assert tr[..t + 1] == tr[..t] + [tr[t]];
      RanSnoc(tr[..t], tr[t]);
      assert tr[t] == IDLE || CanRun(w, tr[..t], tr[t]);
    }
  }

  lemma {:induction false} DominanceAt(w: seq<Job>, best: Trace, other: Trace, t: nat)
    requires Feasible(w, best) && ShortestFirst(w, best) && Feasible(w, other)
    requires t <= |best|
    ensures Dominates(Waiting(w, best, t), Waiting(w, other, t))
  {
    if t == 0 {
      assert Waiting(w, best, 0) == Waiting(w, other, 0);
      forall D: set<int> ensures Matched(Waiting(w, best, 0), Waiting(w, other, 0), D) {
        assert Kept(Waiting(w, best, 0), D) <= Kept(Waiting(w, other, 0), D);
      }
    } else {
      DominanceAt(w, best, other, t - 1);
      ServiceTick(w, best, other, t - 1);
      ArrivalsAfterService(w, best, t - 1);
      ArrivalsAfterService(w, other, t - 1);
      ArrivalKeeps(Served(w, best, t - 1), Waiting(w, best, t), Served(w, other, t - 1), Waiting(w, other, t),
                   Execs(w), News(w, t));
    }
  }

  lemma {:induction false} ServiceTick(w: seq<Job>, best: Trace, other: Trace, t: nat)
    requires Feasible(w, best) && ShortestFirst(w, best) && Feasible(w, other)
    requires t < |best| && Dominates(Waiting(w, best, t), Waiting(w, other, t))
    ensures Dominates(Served(w, best, t), Served(w, other, t))
  {
    var a, b := Waiting(w, best, t), Waiting(w, other, t);
    assert forall i :: 0 <= i < |w| ==> (a[i] > 0 <==> CanRun(w, best[..t], i));
    assert forall i :: 0 <= i < |w| && a[i] > 0 ==> a[i] == Left(w, best[..t], i);
    if forall i :: 0 <= i < |w| ==> a[i] == 0 {
      ZeroDominates(Served(w, best, t), Served(w, other, t));
    } else {
      ServiceKeeps(a, best[t], b, Served(w, other, t));
    }
  }

  /** Fewer positive entries are left in the dominating vector. */
  lemma {:induction false} FewerPositive(a: seq<nat>, b: seq<nat>)
    requires Dominates(a, b) && |a| == |b|
    ensures |Positive(a)| <= |Positive(b)|
  {
    var D := Positive(b);
    KeptZero(b, D);
    assert Matched(a, b, D);
    var E: set<int> :| |E| <= |D| && Kept(a, E) <= Kept(b, D);
    KeptZero(a, E);
    Subset(Positive(a), E);
  }

  ghost function Positive(v: seq<nat>): set<int> { set i | 0 <= i < |v| && v[i] > 0 }

  lemma {:induction false} Subset(s: set<int>, r: set<int>)
    requires s <= r
    ensures |s| <= |r|
  {
    assert r == s + (r - s);
  }

  // ---------- Completions ----------

  ghost predicate DoneBy(w: seq<Job>, tr: Trace, t: nat, p: int)
    requires 0 <= p < |w|
  {
    w[p].ready <= t && Ran(Upto(tr, t), p) == w[p].exec
  }

  ghost function CompletedBy(w: seq<Job>, tr: Trace, t: nat): set<int> {
    set p | 0 <= p < |w| && DoneBy(w, tr, t, p)
  }

  /** At every clock value, shortest remaining time first has completed the most processes. */
  lemma {:induction false} ShortestFirstCompletesMost(w: seq<Job>, best: Trace, other: Trace, t: nat)
    requires Feasible(w, best) && ShortestFirst(w, best) && AllDone(w, best)
    requires Feasible(w, other)
    ensures |CompletedBy(w, best, t)| >= |CompletedBy(w, other, t)|
  {
    var a, b := Waiting(w, best, t), Waiting(w, other, t);
    if t <= |best| {
      DominanceAt(w, best, other, t);
    } else {
      forall i | 0 <= i < |w| ensures a[i] == 0 {
        assert Done(w, best, i);
      }
      ZeroDominates(a, b);
    }
    FewerPositive(a, b);
    CompletedAndWaiting(w, best, t);
    CompletedAndWaiting(w, other, t);
  }

  lemma {:induction false} CompletedAndWaiting(w: seq<Job>, tr: Trace, t: nat)
    requires Feasible(w, tr)
    ensures |CompletedBy(w, tr, t)| + |Positive(Waiting(w, tr, t))| == |set i | 0 <= i < |w| && w[i].ready <= t|
  {
    var u := if t <= |tr| then t else |tr|;
    Prefix(w, tr, u);
    assert tr[..|tr|] == tr;
    assert Upto(tr, t) == tr[..u];
    FeasibleBounds(w, tr[..u]);
    assert (set i | 0 <= i < |w| && w[i].ready <= t) == CompletedBy(w, tr, t) + Positive(Waiting(w, tr, t));
  }

  // ---------- Total completion time ----------

  lemma {:induction false} RanGrows(tr: Trace, t: nat, u: nat, p: int)
    requires t <= u <= |tr|
    ensures Ran(tr[..t], p) <= Ran(tr[..u], p)
    decreases u
  {
    if t < u {
      assert tr[..u] == tr[..u - 1] + [tr[u - 1]];
      RanSnoc(tr[..u - 1], tr[u - 1]);
      RanGrows(tr, t, u - 1, p);
    }
  }

  /** Once done, a process stays done. */
  lemma {:induction false} DoneStays(w: seq<Job>, tr: Trace, t: nat, u: nat, p: int)
    requires Feasible(w, tr) && 0 <= p < |w| && t <= u && DoneBy(w, tr, t, p)
    ensures DoneBy(w, tr, u, p)
  {
    assert tr[..|tr|] == tr;
    RanGrows(tr, |Upto(tr, t)|, |Upto(tr, u)|, p);
    Prefix(w, tr, |Upto(tr, u)|);
    FeasibleBounds(w, Upto(tr, u));
  }

  /** The clock value at which process p is completed, looking back from clock t. */
  ghost function CompletionTime(w: seq<Job>, tr: Trace, p: int, t: nat): (c: nat)
    requires 0 <= p < |w| && DoneBy(w, tr, t, p)
    ensures c <= t && DoneBy(w, tr, c, p) && (c > 0 ==> !DoneBy(w, tr, c - 1, p))
  {
    if t > 0 && DoneBy(w, tr, t - 1, p) then CompletionTime(w, tr, p, t - 1) else t
  }

  ghost function TotalCompletion(w: seq<Job>, tr: Trace, k: nat): nat
    requires k <= |w| && AllDone(w, tr)
  {
    if k == 0 then 0 else
      assert tr[..|tr|] == tr && Done(w, tr, k - 1);
      TotalCompletion(w, tr, k - 1) + CompletionTime(w, tr, k - 1, |tr|)
  }

  /** Time units before t during which p is not completed. */
  ghost function Pending(w: seq<Job>, tr: Trace, p: int, t: nat): nat
    requires 0 <= p < |w|
  {
    if t == 0 then 0 else Pending(w, tr, p, t - 1) + if DoneBy(w, tr, t - 1, p) then 0 else 1
  }

  lemma {:induction false} PendingIsCompletion(w: seq<Job>, tr: Trace, p: int, t: nat)
    requires Feasible(w, tr) && 0 <= p < |w|
    ensures DoneBy(w, tr, t, p) ==> Pending(w, tr, p, t) == CompletionTime(w, tr, p, t)
    ensures !DoneBy(w, tr, t, p) ==> Pending(w, tr, p, t) == t
  {
    if t > 0 {
      PendingIsCompletion(w, tr, p, t - 1);
      if DoneBy(w, tr, t - 1, p) {
        DoneStays(w, tr, t - 1, t, p);
      }
    }
  }

  ghost function PendingSum(w: seq<Job>, tr: Trace, k: nat, t: nat): nat
    requires k <= |w|
  {
    if k == 0 then 0 else PendingSum(w, tr, k - 1, t) + Pending(w, tr, k - 1, t)
  }

  ghost function Unfinished(w: seq<Job>, tr: Trace, t: nat, k: nat): set<int>
    requires k <= |w|
  {
    set p | 0 <= p < k && !DoneBy(w, tr, t, p)
  }

  /** The same total, counted by time unit instead of by process. */
  ghost function UnfinishedSum(w: seq<Job>, tr: Trace, t: nat): nat {
    if t == 0 then 0 else UnfinishedSum(w, tr, t - 1) + |Unfinished(w, tr, t - 1, |w|)|
  }

  lemma {:induction false} PendingSumStep(w: seq<Job>, tr: Trace, k: nat, t: nat)
    requires k <= |w|
    ensures PendingSum(w, tr, k, t + 1) == PendingSum(w, tr, k, t) + |Unfinished(w, tr, t, k)|
  {
    if k > 0 {
      PendingSumStep(w, tr, k - 1, t);
      assert Unfinished(w, tr, t, k)
          == Unfinished(w, tr, t, k - 1) + if DoneBy(w, tr, t, k - 1) then {} else {k - 1};
    }
  }

  lemma {:induction false} PendingSumZero(w: seq<Job>, tr: Trace, k: nat)
    requires k <= |w|
    ensures PendingSum(w, tr, k, 0) == 0
  {
    if k > 0 {
      PendingSumZero(w, tr, k - 1);
    }
  }

  lemma {:induction false} CountedBothWays(w: seq<Job>, tr: Trace, t: nat)
    ensures PendingSum(w, tr, |w|, t) == UnfinishedSum(w, tr, t)
  {
    if t == 0 {
      PendingSumZero(w, tr, |w|);
    } else {
      CountedBothWays(w, tr, t - 1);
      PendingSumStep(w, tr, |w|, t - 1);
    }
  }

  lemma {:induction false} TotalIsPendingSum(w: seq<Job>, tr: Trace, k: nat)
    requires Feasible(w, tr) && AllDone(w, tr) && k <= |w|
    ensures TotalCompletion(w, tr, k) == PendingSum(w, tr, k, |tr|)
  {
    if k > 0 {
      TotalIsPendingSum(w, tr, k - 1);
      assert tr[..|tr|] == tr && Done(w, tr, k - 1);
      PendingIsCompletion(w, tr, k - 1, |tr|);
    }
  }

  lemma {:induction false} UnfinishedSumStops(w: seq<Job>, tr: Trace, t: nat)
    requires AllDone(w, tr)
    ensures UnfinishedSum(w, tr, t) <= UnfinishedSum(w, tr, |tr|)
    decreases if t <= |tr| then |tr| - t else t
  {
    if t < |tr| {
      UnfinishedSumStops(w, tr, t + 1);
    } else if t > |tr| {
      UnfinishedSumStops(w, tr, t - 1);
      var u: nat := t - 1;
      forall p | 0 <= p < |w| ensures DoneBy(w, tr, u, p) {
        assert tr[..|tr|] == tr && Done(w, tr, p);
      }
      assert Unfinished(w, tr, u, |w|) == {};
    }
  }

  lemma {:induction false} UnfinishedSumLess(w: seq<Job>, best: Trace, other: Trace, t: nat)
    requires Feasible(w, best) && ShortestFirst(w, best) && AllDone(w, best)
    requires Feasible(w, other)
    ensures UnfinishedSum(w, best, t) <= UnfinishedSum(w, other, t)
  {
    if t > 0 {
      UnfinishedSumLess(w, best, other, t - 1);
      ShortestFirstCompletesMost(w, best, other, t - 1);
      assert CompletedBy(w, best, t - 1) + Unfinished(w, best, t - 1, |w|)
          == CompletedBy(w, other, t - 1) + Unfinished(w, other, t - 1, |w|);
    }
  }

  /** The sum of completion times, and so the mean turnaround, is the least possible. */
  lemma {:induction false} ShortestFirstMinimizesTotal(w: seq<Job>, best: Trace, other: Trace)
    requires Feasible(w, best) && ShortestFirst(w, best) && AllDone(w, best)
    requires Feasible(w, other) && AllDone(w, other)
    ensures TotalCompletion(w, best, |w|) <= TotalCompletion(w, other, |w|)
  {
    TotalIsPendingSum(w, best, |w|);
    TotalIsPendingSum(w, other, |w|);
    CountedBothWays(w, best, |best|);
    CountedBothWays(w, other, |other|);
    UnfinishedSumLess(w, best, other, |best|);
    UnfinishedSumStops(w, other, |best|);
  }

  // ---------- Both together ----------

  /** A schedule against every other schedule of the same processes. */
  ghost predicate Optimal(w: seq<Job>, tr: Trace)
    requires AllDone(w, tr)
  {
    && (forall other: Trace, t: nat :: Feasible(w, other) ==> |CompletedBy(w, tr, t)| >= |CompletedBy(w, other, t)|)
    && (forall other: Trace :: Feasible(w, other) && AllDone(w, other) ==>
          TotalCompletion(w, tr, |w|) <= TotalCompletion(w, other, |w|))
  }

  lemma {:induction false} ShortestFirstIsOptimal(w: seq<Job>, tr: Trace)
    requires Feasible(w, tr) && ShortestFirst(w, tr) && AllDone(w, tr)
    ensures Optimal(w, tr)
  {
    forall other: Trace, t: nat | Feasible(w, other) ensures |CompletedBy(w, tr, t)| >= |CompletedBy(w, other, t)| {
      ShortestFirstCompletesMost(w, tr, other, t);
    }
    forall other: Trace | Feasible(w, other) && AllDone(w, other)
      ensures TotalCompletion(w, tr, |w|) <= TotalCompletion(w, other, |w|)
    {
      ShortestFirstMinimizesTotal(w, tr, other);
    }
  }
}
