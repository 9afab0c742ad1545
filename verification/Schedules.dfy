/**
 * What the four schedulers have in common: a log of slices handed to children, the admission
 * of processes in ready order, and the effect of one slice or one idle gap on both.
 */
module Schedules {
  import opened Jobs
  import opened Traces

  /** p has been handed a slice. */
  ghost predicate Occurs(log: seq<Slice>, p: int) {
    log != [] && (log[|log| - 1].pid == p || Occurs(log[..|log| - 1], p))
  }

  /** The child of p has been handed its last slice; it has exited and been waited for. */
  ghost predicate Retired(w: seq<Job>, log: seq<Slice>, p: int)
    requires 0 <= p < |w|
  {
    Occurs(log, p) && Left(w, Expand(log), p) == 0
  }

  /** The first a processes have been admitted, each at its ready time, and nobody is overdue. */
  ghost predicate Admitted(w: seq<Job>, a: nat, clock: nat) {
    && a <= |w|
    && (forall i :: 0 <= i < a ==> w[i].ready <= clock)
    && (forall i :: a <= i < |w| ==> w[i].ready >= clock)
  }

  /** Processes forked by the time the last slice was handed out. */
  function Forked(log: seq<Slice>): nat { if log == [] then 0 else log[|log| - 1].forked }

  /**
   * Nobody becomes ready strictly inside a slice, and those forked are the ones that are ready by
   * its start. It goes to one of them that has not been retired, for no longer than that has left.
   */
  ghost predicate Dispatchable(w: seq<Job>, log: seq<Slice>, s: Slice) {
    && Forked(log) <= s.forked
    && Admitted(w, s.forked, |Expand(log)|) && Admitted(w, s.forked, |Expand(log)| + s.len)
    && (s.pid == IDLE
        || (0 <= s.pid < s.forked && s.len <= Left(w, Expand(log), s.pid) && !Retired(w, log, s.pid)))
  }

  ghost predicate Dispatches(w: seq<Job>, log: seq<Slice>) {
    forall i {:trigger log[..i]} :: 0 <= i < |log| ==> Dispatchable(w, log[..i], log[i])
  }

  ghost predicate Schedule(w: seq<Job>, log: seq<Slice>) {
    && Dispatches(w, log)
    && Feasible(w, Expand(log))
    && WorkConserving(w, Expand(log))
  }

  /** 1 when the next process is due now, 0 otherwise. */
  ghost function Due(w: seq<Job>, a: nat, clock: nat): nat {
    if a < |w| && w[a].ready == clock then 1 else 0
  }

  /** A complete schedule: everybody is run to the end and retired, in ready order, and it ends at B_n. */
  ghost predicate Complete(input: seq<Job>, w: seq<Job>, log: seq<Slice>) {
    && ByReady(w) && multiset(w) == multiset(input)
    && Schedule(w, log)
    && AllDone(w, Expand(log))
    && (forall p :: 0 <= p < |w| ==> Retired(w, log, p))
    && |Expand(log)| == FinalClock(input)
  }

  /**
   * A schedule broken off: the first a processes have been forked, and p, one of them, is waited for
   * although it has no work and has been handed nothing.
   */
  ghost predicate Hangs(w: seq<Job>, log: seq<Slice>, a: nat, p: nat) {
    && Schedule(w, log)
    && Forked(log) <= a && Admitted(w, a, |Expand(log)|)
    && p < a && w[p].exec == 0 && !Occurs(log, p)
  }

  lemma {:induction false} DispatchesSnoc(w: seq<Job>, log: seq<Slice>, s: Slice)
    requires Dispatches(w, log) && Dispatchable(w, log, s)
    ensures Dispatches(w, log + [s])
  {
    assert forall i :: 0 <= i < |log| ==> (log + [s])[..i] == log[..i];
    assert (log + [s])[..|log|] == log;
  }

  lemma {:induction false} OccursSnoc(log: seq<Slice>, s: Slice)
    ensures forall q :: Occurs(log + [s], q) <==> Occurs(log, q) || q == s.pid
  {
    assert (log + [s])[..|log|] == log;
  }

  /** An admitted process has no more left than the backlog, so running it cannot overrun B_n. */
  lemma {:induction false} WithinBacklog(w: seq<Job>, tr: Trace, a: nat, p: nat)
    requires ByReady(w) && Feasible(w, tr) && WorkConserving(w, tr)
    requires Admitted(w, a, |tr|) && p < a && |tr| <= BusyUntil(w, |w|)
    ensures 0 <= Left(w, tr, p)
    ensures |tr| + Left(w, tr, p) <= BusyUntil(w, |w|)
  {
    FeasibleBounds(w, tr);
    Backlog(w, tr, a);
    OutstandingSign(w, tr, a);
    BusyUntilMonotone(w, a, |w|);
  }

  /** What one slice of length k for process p does to the remaining times. */
  lemma {:induction false} LeftAfterRun(w: seq<Job>, log: seq<Slice>, p: nat, k: nat, a: nat)
    requires p < |w|
    ensures Expand(log + [Slice(p, k, a)]) == Expand(log) + Repeat(p, k)
    ensures forall q :: 0 <= q < |w| ==>
              Left(w, Expand(log + [Slice(p, k, a)]), q) == Left(w, Expand(log), q) - if q == p then k else 0
    ensures forall q :: 0 <= q < |w| && q != p ==> (Retired(w, log + [Slice(p, k, a)], q) <==> Retired(w, log, q))
    ensures Retired(w, log + [Slice(p, k, a)], p) <==> Left(w, Expand(log), p) == k
  {
    ExpandSnoc(log, Slice(p, k, a));
    RanRepeat(Expand(log), p, k);
    OccursSnoc(log, Slice(p, k, a));
  }

  /** It keeps the schedule. */
  lemma {:induction false} RunSlice(w: seq<Job>, log: seq<Slice>, p: nat, k: nat, a: nat)
    requires Schedule(w, log) && Forked(log) <= a
    requires Admitted(w, a, |Expand(log)|) && Admitted(w, a, |Expand(log)| + k)
    requires p < a && k <= Left(w, Expand(log), p) && !Retired(w, log, p)
    ensures Schedule(w, log + [Slice(p, k, a)])
    ensures Expand(log + [Slice(p, k, a)]) == Expand(log) + Repeat(p, k)
    ensures forall q :: 0 <= q < |w| ==>
              Left(w, Expand(log + [Slice(p, k, a)]), q) == Left(w, Expand(log), q) - if q == p then k else 0
    ensures forall q :: 0 <= q < |w| && q != p ==> (Retired(w, log + [Slice(p, k, a)], q) <==> Retired(w, log, q))
    ensures Retired(w, log + [Slice(p, k, a)], p) <==> Left(w, Expand(log), p) == k
  {
    LeftAfterRun(w, log, p, k, a);
    DispatchesSnoc(w, log, Slice(p, k, a));
    ExtendRun(w, Expand(log), p, k);
  }

  /** Nobody is overdue as long as the next process is not. */
  lemma {:induction false} StillAdmitted(w: seq<Job>, a: nat, c: nat, d: nat)
    requires ByReady(w) && Admitted(w, a, c) && c <= d && (a < |w| ==> w[a].ready >= d)
    ensures Admitted(w, a, d)
  {
  }

  /** An idle gap leaves everybody's remaining time alone. */
  lemma {:induction false} LeftAfterIdle(w: seq<Job>, log: seq<Slice>, k: nat, a: nat)
    ensures forall q :: 0 <= q < |w| ==> Left(w, Expand(log + [Slice(IDLE, k, a)]), q) == Left(w, Expand(log), q)
    ensures forall q :: 0 <= q < |w| ==> (Retired(w, log + [Slice(IDLE, k, a)], q) <==> Retired(w, log, q))
  {
    ExpandSnoc(log, Slice(IDLE, k, a));
    RanRepeat(Expand(log), IDLE, k);
    OccursSnoc(log, Slice(IDLE, k, a));
  }

  /** An idle gap up to the next arrival, with every admitted process finished. */
  lemma {:induction false} IdleSlice(w: seq<Job>, log: seq<Slice>, a: nat, k: nat)
    requires Schedule(w, log) && Forked(log) <= a < |w| && Admitted(w, a, |Expand(log)|) && ByReady(w)
    requires forall q :: 0 <= q < a ==> Left(w, Expand(log), q) == 0
    requires w[a].ready == |Expand(log)| + k
    ensures Schedule(w, log + [Slice(IDLE, k, a)]) && Admitted(w, a, |Expand(log)| + k)
    ensures Expand(log + [Slice(IDLE, k, a)]) == Expand(log) + Repeat(IDLE, k)
    ensures ShortestFirst(w, Expand(log)) ==> ShortestFirst(w, Expand(log + [Slice(IDLE, k, a)]))
    ensures |Expand(log)| + k <= BusyUntil(w, |w|)
  {
    StillAdmitted(w, a, |Expand(log)|, w[a].ready);
    ExpandSnoc(log, Slice(IDLE, k, a));
    DispatchesSnoc(w, log, Slice(IDLE, k, a));
    ExtendIdle(w, Expand(log), k);
    ReadyBeforeEnd(w, a);
  }

  /** A schedule in which everybody is retired, and which has not overrun B_n, is complete. */
  lemma {:induction false} Completes(input: seq<Job>, w: seq<Job>, log: seq<Slice>)
    requires ByReady(w) && multiset(w) == multiset(input) && Schedule(w, log)
    requires forall p :: 0 <= p < |w| ==> Retired(w, log, p) && w[p].ready <= |Expand(log)|
    requires |Expand(log)| <= BusyUntil(w, |w|)
    ensures Complete(input, w, log)
  {
    forall p | 0 <= p < |w| ensures Done(w, Expand(log), p) {
      assert Retired(w, log, p);
    }
    Makespan(w, Expand(log));
    FinalClockOf(input, w);
  }

  /** Whoever has run has been handed a slice. */
  lemma {:induction false} RanOccurs(log: seq<Slice>, p: int)
    requires Ran(Expand(log), p) > 0
    ensures Occurs(log, p)
  {
    var n := |log| - 1;
    var init, e := log[..n], log[n];
    assert log == init + [e];
    RanRepeat(Expand(init), e.pid, e.len);
    OccursSnoc(init, e);
    if Ran(Expand(init), p) > 0 {
      RanOccurs(init, p);
    }
  }

  // ---------- Forks ----------

  lemma {:induction false} DispatchesPrefix(w: seq<Job>, log: seq<Slice>, n: nat)
    requires Dispatches(w, log) && n <= |log|
    ensures Dispatches(w, log[..n])
  {
    assert forall i :: 0 <= i < n ==> log[..n][..i] == log[..i];
  }

  /** Whoever is handed a slice has been forked. */
  lemma {:induction false} OccursForked(w: seq<Job>, log: seq<Slice>, p: nat)
    requires Dispatches(w, log) && Occurs(log, p)
    ensures p < Forked(log) <= |w|
  {
    var n := |log| - 1;
    var init, e := log[..n], log[n];
    assert Dispatchable(w, init, e);
    if e.pid != p {
      DispatchesPrefix(w, log, n);
      assert log == init + [e];
      OccursSnoc(init, e);
      OccursForked(w, init, p);
    }
  }

  /** Every process is forked exactly at its ready time. */
  lemma {:induction false} ForkedWhenReady(w: seq<Job>, log: seq<Slice>, i: nat, p: nat)
    requires Dispatches(w, log) && i < |log| && Forked(log[..i]) <= p < log[i].forked
    ensures p < |w| && w[p].ready == |Expand(log[..i])|
  {
    assert Dispatchable(w, log[..i], log[i]);
    if i > 0 {
      var n := i - 1;
      assert Dispatchable(w, log[..n], log[n]);
      assert log[..i] == log[..n] + [log[n]];
      ExpandSnoc(log[..n], log[n]);
    }
  }
}
