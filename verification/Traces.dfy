/**
 * Schedules of one CPU, one time unit at a time: entry t of a trace names the process that
 * runs during [t, t + 1), or IDLE. A trace of length c covers the clock values 0 to c with no
 * gap and no overlap.
 */
module Traces {
  import opened Jobs

  const IDLE := -1

  type Trace = seq<int>

  /** Time units process p has run. */
  function Ran(tr: Trace, p: int): nat {
    if tr == [] then 0 else Ran(tr[..|tr| - 1], p) + if tr[|tr| - 1] == p then 1 else 0
  }

  /** Process p has arrived and still has work after the trace `pre`. */
  ghost predicate CanRun(w: seq<Job>, pre: Trace, p: int) {
    0 <= p < |w| && w[p].ready <= |pre| && Ran(pre, p) < w[p].exec
  }

  /** No process runs before its ready time or for longer than its execution time. */
  ghost predicate Feasible(w: seq<Job>, tr: Trace) {
    forall t {:trigger tr[..t]} :: 0 <= t < |tr| ==> tr[t] == IDLE || CanRun(w, tr[..t], tr[t])
  }

  /** The CPU idles only when no arrived process is unfinished. */
  ghost predicate WorkConserving(w: seq<Job>, tr: Trace) {
    forall t, p :: 0 <= t < |tr| && CanRun(w, tr[..t], p) ==> tr[t] != IDLE
  }

  ghost function Left(w: seq<Job>, tr: Trace, p: int): int
    requires 0 <= p < |w|
  {
    w[p].exec - Ran(tr, p)
  }

  /** Every unit goes to a process with the least remaining time among the arrived, unfinished ones. */
  ghost predicate ShortestFirst(w: seq<Job>, tr: Trace) {
    forall t, p :: 0 <= t < |tr| && CanRun(w, tr[..t], p) ==>
      0 <= tr[t] < |w| && Left(w, tr[..t], tr[t]) <= Left(w, tr[..t], p)
  }

  ghost predicate Done(w: seq<Job>, tr: Trace, p: int)
    requires 0 <= p < |w|
  {
    w[p].ready <= |tr| && Ran(tr, p) == w[p].exec
  }

  ghost predicate AllDone(w: seq<Job>, tr: Trace) {
    forall p :: 0 <= p < |w| ==> Done(w, tr, p)
  }

  // ---------- Slices: what a scheduler hands out in one iteration ----------

  /** `forked` counts the processes forked by the time the slice is handed out: the first so many in ready order. */
  datatype Slice = Slice(pid: int, len: nat, forked: nat)

  function Repeat(p: int, k: nat): (r: Trace)
    ensures |r| == k && forall i :: 0 <= i < k ==> r[i] == p
  {
    seq(k, _ => p)
  }

  /** The trace of a log of slices; slice i starts at clock |Expand(log[..i])|. */
  function Expand(log: seq<Slice>): Trace {
    if log == [] then [] else
      var n := |log| - 1;
      Expand(log[..n]) + Repeat(log[n].pid, log[n].len)
  }

  lemma {:induction false} ExpandSnoc(log: seq<Slice>, s: Slice)
    ensures Expand(log + [s]) == Expand(log) + Repeat(s.pid, s.len)
  {
    assert (log + [s])[..|log|] == log;
  }

  lemma {:induction false} RanSnoc(tr: Trace, q: int)
    ensures forall p :: Ran(tr + [q], p) == Ran(tr, p) + if p == q then 1 else 0
  {
    assert (tr + [q])[..|tr|] == tr;
  }

  lemma {:induction false} RanRepeat(tr: Trace, p: int, k: nat)
    ensures forall q :: Ran(tr + Repeat(p, k), q) == Ran(tr, q) + if q == p then k else 0
  {
    if k == 0 {
      assert tr + Repeat(p, k) == tr;
    } else {
      RanRepeat(tr, p, k - 1);
      assert tr + Repeat(p, k) == tr + Repeat(p, k - 1) + [p];
      RanSnoc(tr + Repeat(p, k - 1), p);
    }
  }

  // ---------- Extending traces ----------

  lemma {:induction false} Append(w: seq<Job>, tr: Trace, q: int)
    ensures Feasible(w, tr) && (q == IDLE || CanRun(w, tr, q)) ==> Feasible(w, tr + [q])
    ensures WorkConserving(w, tr) && (q == IDLE ==> forall p :: !CanRun(w, tr, p)) ==> WorkConserving(w, tr + [q])
    ensures ShortestFirst(w, tr)
            && (forall p :: CanRun(w, tr, p) ==> 0 <= q < |w| && Left(w, tr, q) <= Left(w, tr, p))
            ==> ShortestFirst(w, tr + [q])
  {
    assert forall t :: 0 <= t < |tr| ==> (tr + [q])[..t] == tr[..t];
    assert (tr + [q])[..|tr|] == tr;
  }

  lemma {:induction false} Prefix(w: seq<Job>, tr: Trace, t: nat)
    requires t <= |tr|
    ensures Feasible(w, tr) ==> Feasible(w, tr[..t])
    ensures WorkConserving(w, tr) ==> WorkConserving(w, tr[..t])
    ensures ShortestFirst(w, tr) ==> ShortestFirst(w, tr[..t])
  {
    assert forall u :: 0 <= u < t ==> tr[..t][..u] == tr[..u];
  }

  /** Running an arrived process for no longer than it has left. */
  lemma {:induction false} ExtendRun(w: seq<Job>, tr: Trace, p: int, k: nat)
    requires Feasible(w, tr) && 0 <= p < |w| && w[p].ready <= |tr| && k <= Left(w, tr, p)
    ensures Feasible(w, tr + Repeat(p, k))
    ensures WorkConserving(w, tr) ==> WorkConserving(w, tr + Repeat(p, k))
  {
    if k == 0 {
      assert tr + Repeat(p, k) == tr;
    } else {
      ExtendRun(w, tr, p, k - 1);
      RanRepeat(tr, p, k - 1);
      Append(w, tr + Repeat(p, k - 1), p);
      assert tr + Repeat(p, k) == tr + Repeat(p, k - 1) + [p];
    }
  }

  /** Running the process with the least left while nobody arrives keeps it the one with the least left. */
  lemma {:induction false} ExtendShortest(w: seq<Job>, tr: Trace, p: int, k: nat)
    requires ShortestFirst(w, tr) && 0 <= p < |w| && k <= Left(w, tr, p)
    requires forall q :: CanRun(w, tr, q) ==> Left(w, tr, p) <= Left(w, tr, q)
    requires forall q :: 0 <= q < |w| ==> w[q].ready <= |tr| || w[q].ready >= |tr| + k
    ensures ShortestFirst(w, tr + Repeat(p, k))
  {
    if k == 0 {
      assert tr + Repeat(p, k) == tr;
    } else {
      ExtendShortest(w, tr, p, k - 1);
      RanRepeat(tr, p, k - 1);
      var mid := tr + Repeat(p, k - 1);
      forall q | CanRun(w, mid, q) ensures Left(w, mid, p) <= Left(w, mid, q) {
        assert q != p ==> CanRun(w, tr, q);
      }
      Append(w, mid, p);
      assert tr + Repeat(p, k) == mid + [p];
    }
  }

  /** Idling while every process is either finished or not yet there. */
  lemma {:induction false} ExtendIdle(w: seq<Job>, tr: Trace, k: nat)
    requires Feasible(w, tr) && WorkConserving(w, tr)
    requires forall q :: 0 <= q < |w| ==> Left(w, tr, q) <= 0 || w[q].ready >= |tr| + k
    ensures Feasible(w, tr + Repeat(IDLE, k)) && WorkConserving(w, tr + Repeat(IDLE, k))
    ensures ShortestFirst(w, tr) ==> ShortestFirst(w, tr + Repeat(IDLE, k))
  {
    if k == 0 {
      assert tr + Repeat(IDLE, k) == tr;
    } else {
      ExtendIdle(w, tr, k - 1);
      RanRepeat(tr, IDLE, k - 1);
      var mid := tr + Repeat(IDLE, k - 1);
      assert forall q :: !CanRun(w, mid, q);
      Append(w, mid, IDLE);
      assert tr + Repeat(IDLE, k) == mid + [IDLE];
    }
  }

  /** In a feasible trace nobody gets more than its execution time, or anything before its ready time. */
  lemma {:induction false} FeasibleBounds(w: seq<Job>, tr: Trace)
    requires Feasible(w, tr)
    ensures forall p :: 0 <= p < |w| ==> Ran(tr, p) <= w[p].exec && (Ran(tr, p) > 0 ==> w[p].ready < |tr|)
  {
    if tr != [] {
      var n := |tr| - 1;
      Prefix(w, tr, n);
      FeasibleBounds(w, tr[..n]);
      assert tr[n] == IDLE || CanRun(w, tr[..n], tr[n]);
    }
  }

  // ---------- The common finishing clock ----------

  /** Work of the first k processes that is still outstanding. */
  ghost function Outstanding(w: seq<Job>, tr: Trace, k: nat): int
    requires k <= |w|
  {
    if k == 0 then 0 else Outstanding(w, tr, k - 1) + Left(w, tr, k - 1)
  }

  lemma {:induction false} OutstandingTick(w: seq<Job>, tr: Trace, k: nat)
    requires tr != [] && k <= |w|
    ensures Outstanding(w, tr, k) == Outstanding(w, tr[..|tr| - 1], k) - if 0 <= tr[|tr| - 1] < k then 1 else 0
  {
    if k > 0 {
      OutstandingTick(w, tr, k - 1);
    }
  }

  lemma {:induction false} OutstandingSign(w: seq<Job>, tr: Trace, k: nat)
    requires k <= |w| && forall i :: 0 <= i < k ==> Left(w, tr, i) >= 0
    ensures forall i :: 0 <= i < k ==> Left(w, tr, i) <= Outstanding(w, tr, k)
    ensures Outstanding(w, tr, k) == 0 <==> forall i :: 0 <= i < k ==> Left(w, tr, i) == 0
    ensures Outstanding(w, tr, k) >= 0
  {
    if k > 0 {
      OutstandingSign(w, tr, k - 1);
    }
  }

  /**
   * The invariant behind the common finishing clock: while the first k processes are the
   * admitted ones, clock + outstanding work is B_k, or nothing is outstanding and B_k is past.
   * Processes ready exactly now may be on either side of k.
   */
  lemma {:induction false} Backlog(w: seq<Job>, tr: Trace, k: nat)
    requires ByReady(w) && Feasible(w, tr) && WorkConserving(w, tr) && k <= |w|
    requires forall i :: 0 <= i < k ==> w[i].ready <= |tr|
    requires forall i :: k <= i < |w| ==> w[i].ready >= |tr|
    ensures Outstanding(w, tr, k) >= 0
    ensures Outstanding(w, tr, k) > 0 ==> |tr| + Outstanding(w, tr, k) == BusyUntil(w, k)
    ensures Outstanding(w, tr, k) == 0 ==> BusyUntil(w, k) <= |tr|
    decreases |tr|, k
  {
    FeasibleBounds(w, tr);
    OutstandingSign(w, tr, k);
    if k > 0 && w[k - 1].ready == |tr| {
      Backlog(w, tr, k - 1);
    } else if k > 0 {
      var n := |tr| - 1;
      var q := tr[n];
      Prefix(w, tr, n);
      Backlog(w, tr[..n], k);
      OutstandingTick(w, tr, k);
      if q == IDLE {
        FeasibleBounds(w, tr[..n]);
        OutstandingSign(w, tr[..n], k);
        forall i | 0 <= i < k ensures Left(w, tr[..n], i) == 0 {
          assert !CanRun(w, tr[..n], i);
        }
      } else {
        assert CanRun(w, tr[..n], q);
      }
    }
  }

  /** A scheduler that never idles needlessly and stops no later than B_n stops exactly there. */
  lemma {:induction false} Makespan(w: seq<Job>, tr: Trace)
    requires ByReady(w) && Feasible(w, tr) && WorkConserving(w, tr) && AllDone(w, tr)
    requires |tr| <= BusyUntil(w, |w|)
    ensures |tr| == BusyUntil(w, |w|)
  {
    forall p | 0 <= p < |w| ensures w[p].ready <= |tr| && Left(w, tr, p) == 0 {
      assert Done(w, tr, p);
    }
    Backlog(w, tr, |w|);
    OutstandingSign(w, tr, |w|);
  }
}
