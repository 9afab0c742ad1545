/** First in, first out (prj1/fifo.c:111-142). */
module Fifo {
  import opened Jobs
  import opened Traces
  import opened Schedules
  import opened NonPreemptive

  /** Nobody is run while an earlier process is unfinished. */
  ghost predicate InOrder(w: seq<Job>, tr: Trace) {
    forall t, q {:trigger Ran(tr[..t], q)} :: 0 <= t < |tr| && 0 <= q < tr[t] && q < |w| ==> Ran(tr[..t], q) == w[q].exec
  }

  lemma {:induction false} ExtendInOrder(w: seq<Job>, tr: Trace, p: int, k: nat)
    requires InOrder(w, tr) && forall q :: 0 <= q < p && q < |w| ==> Ran(tr, q) == w[q].exec
    ensures InOrder(w, tr + Repeat(p, k))
  {
    if k == 0 {
      assert tr + Repeat(p, k) == tr;
    } else {
      ExtendInOrder(w, tr, p, k - 1);
      RanRepeat(tr, p, k - 1);
      var mid := tr + Repeat(p, k - 1);
      assert tr + Repeat(p, k) == mid + [p];
      assert forall t :: 0 <= t < |mid| ==> (mid + [p])[..t] == mid[..t];
      assert (mid + [p])[..|mid|] == mid;
    }
  }

  /** The recorded end of process i is the clock value at which it is done, and no earlier one. */
  ghost predicate EndsAt(w: seq<Job>, tr: Trace, i: nat, c: nat) {
    && i < |w| && c <= |tr|
    && Done(w, tr[..c], i)
    && (w[i].exec > 0 ==> c > 0 && !Done(w, tr[..c - 1], i))
  }

  lemma {:induction false} EndsAtPrefix(w: seq<Job>, tr: Trace, more: Trace, i: nat, c: nat)
    requires EndsAt(w, tr, i, c)
    ensures EndsAt(w, tr + more, i, c)
  {
    assert (tr + more)[..c] == tr[..c];
    if c > 0 {
      assert (tr + more)[..c - 1] == tr[..c - 1];
    }
  }

  /** The last unit of a slice that uses up a process is the one that finishes it. */
  lemma {:induction false} EndsNow(w: seq<Job>, tr: Trace, p: nat, k: nat)
    requires p < |w| && w[p].ready <= |tr| && Left(w, tr, p) == k && (k == 0 ==> w[p].exec == 0)
    ensures EndsAt(w, tr + Repeat(p, k), p, |tr| + k)
  {
    var tr' := tr + Repeat(p, k);
    RanRepeat(tr, p, k);
    assert tr'[..|tr| + k] == tr';
    if k > 0 {
      RanRepeat(tr, p, k - 1);
      assert tr'[..|tr| + k - 1] == tr + Repeat(p, k - 1);
    }
  }

  /** The ends recorded so far are B_1, B_2, ..., and are the clock values at which the processes are done. */
  ghost predicate Ends(w: seq<Job>, s: State, finish: seq<nat>) {
    && |finish| == s.index <= |w|
    && forall i :: 0 <= i < s.index ==> finish[i] == BusyUntil(w, i + 1) && EndsAt(w, Expand(s.log), i, finish[i])
  }

  /** The array is never permuted, and the process at `index` is on its way to its B. */
  ghost predicate OnTime(w: seq<Job>, s: State) {
    && |s.sched| == |w|
    && (forall i :: 0 <= i < |w| ==> s.sched[i].id == i)
    && (s.index < |w| ==> Max(s.clock, w[s.index].ready) + s.sched[s.index].exec == BusyUntil(w, s.index + 1))
  }

  /** What holds at each loop head besides the shared invariant. */
  ghost predicate Order(w: seq<Job>, s: State, finish: seq<nat>) {
    Ends(w, s, finish) && OnTime(w, s) && InOrder(w, Expand(s.log))
  }

  lemma {:induction false} EndsLater(w: seq<Job>, s: State, finish: seq<nat>, more: Slice)
    requires Ends(w, s, finish)
    ensures forall i :: 0 <= i < s.index ==> EndsAt(w, Expand(s.log + [more]), i, finish[i])
  {
    ExpandSnoc(s.log, more);
    forall i | 0 <= i < s.index ensures EndsAt(w, Expand(s.log + [more]), i, finish[i]) {
      EndsAtPrefix(w, Expand(s.log), Repeat(more.pid, more.len), i, finish[i]);
    }
  }

  lemma {:induction false} IdleOrder(w: seq<Job>, s: State, s': State, finish: seq<nat>)
    requires Order(w, s, finish) && Arrived(w, s, s')
    ensures Order(w, s', finish)
  {
    if s'.log != s.log {
      var gap := Slice(IDLE, s'.clock - s.clock, s.fork);
      ExpandSnoc(s.log, gap);
      ExtendInOrder(w, Expand(s.log), IDLE, gap.len);
      EndsLater(w, s, finish, gap);
    }
  }

  lemma {:induction false} SliceInOrder(w: seq<Job>, s: State, k: nat)
    requires Inv(w, s) && OnTime(w, s) && InOrder(w, Expand(s.log)) && s.index < s.fork && k <= s.sched[s.index].exec
    ensures InOrder(w, Expand(Assigned(s, k).log))
  {
    var p := s.index;
    ExpandSnoc(s.log, Slice(p, k, s.fork));
    forall q | 0 <= q < p ensures Ran(Expand(s.log), q) == w[q].exec {
      assert s.sched[q].id == q;
    }
    ExtendInOrder(w, Expand(s.log), p, k);
  }

  lemma {:induction false} SliceOnTime(w: seq<Job>, s: State, k: nat)
    requires Inv(w, s) && OnTime(w, s) && s.index < s.fork && k <= s.sched[s.index].exec
    ensures OnTime(w, Assigned(s, k))
    ensures k == s.sched[s.index].exec ==> s.clock + k == BusyUntil(w, s.index + 1)
  {
    var r := Assigned(s, k);
    assert forall i :: 0 <= i < |w| ==> r.sched[i].id == s.sched[i].id;
    assert w[s.index].ready <= s.clock;
    if s.index + 1 < |w| {
      assert s.sched[s.index + 1].exec == w[s.index + 1].exec;
    }
  }

  /** A finished process is recorded with its B. */
  lemma {:induction false} FinishEnds(w: seq<Job>, s: State, finish: seq<nat>, p: nat, k: nat)
    requires Ends(w, s, finish) && p == s.index < |w| && |s.sched| == |w|
    requires s.sched[p].id == p && k == s.sched[p].exec == Left(w, Expand(s.log), p) && (k == 0 ==> w[p].exec == 0)
    requires w[p].ready <= s.clock == |Expand(s.log)| && s.clock + k == BusyUntil(w, p + 1)
    ensures Ends(w, Assigned(s, k), finish + [s.clock + k])
  {
    EndsLater(w, s, finish, Slice(p, k, s.fork));
    ExpandSnoc(s.log, Slice(p, k, s.fork));
    EndsNow(w, Expand(s.log), p, k);
  }

  lemma {:induction false} UnfinishedEnds(w: seq<Job>, s: State, finish: seq<nat>, k: nat)
    requires Ends(w, s, finish) && s.index < |s.sched| && k < s.sched[s.index].exec
    ensures Ends(w, Assigned(s, k), finish)
  {
    EndsLater(w, s, finish, Slice(s.sched[s.index].id, k, s.fork));
  }

  /** The ends recorded once a slice has led from s to s'. */
  ghost function Recorded(s: State, s': State, finish: seq<nat>): seq<nat> {
    if s'.index > s.index then finish + [s'.clock] else finish
  }

  lemma {:induction false} SliceEnds(w: seq<Job>, s: State, k: nat, finish: seq<nat>)
    requires Layout(w, s) && Balanced(w, s) && Ends(w, s, finish) && s.index < s.fork && k <= s.sched[s.index].exec
    requires s.sched[s.index].id == s.index && w[s.index].ready <= s.clock == |Expand(s.log)|
    requires s.sched[s.index].exec == 0 ==> w[s.index].exec == 0
    requires k == s.sched[s.index].exec ==> s.clock + k == BusyUntil(w, s.index + 1)
    ensures Ends(w, Assigned(s, k), Recorded(s, Assigned(s, k), finish))
  {
    if k == s.sched[s.index].exec {
      FinishEnds(w, s, finish, s.index, k);
    } else {
      UnfinishedEnds(w, s, finish, k);
    }
  }

  lemma {:induction false} SliceOrder(w: seq<Job>, s: State, k: nat, finish: seq<nat>)
    requires Inv(w, s) && Order(w, s, finish) && s.index < s.fork && k <= s.sched[s.index].exec
    requires s.sched[s.index].exec == 0 ==> w[s.index].exec == 0
    ensures Order(w, Assigned(s, k), Recorded(s, Assigned(s, k), finish))
  {
    SliceInOrder(w, s, k);
    SliceOnTime(w, s, k);
    SliceEnds(w, s, k, finish);
  }

  lemma {:induction false} InitialOrder(w: seq<Job>)
    ensures Order(w, Initial(w), [])
  {
  }

  // ---------- The decisions, read off the log ----------

  /** Each slice goes to the first process in ready order that has not been retired. */
  ghost predicate InTurn(w: seq<Job>, log: seq<Slice>) {
    forall i {:trigger log[..i]} :: 0 <= i < |log| ==>
      Cut(w, log[..i], log[i]) && forall q :: 0 <= q < log[i].pid ==> Retired(w, log[..i], q)
  }

  lemma {:induction false} InTurnSnoc(w: seq<Job>, log: seq<Slice>, e: Slice)
    requires InTurn(w, log) && Cut(w, log, e) && forall q :: 0 <= q < e.pid ==> Retired(w, log, q)
    ensures InTurn(w, log + [e])
  {
    assert forall i :: 0 <= i < |log| ==> (log + [e])[..i] == log[..i];
    assert (log + [e])[..|log|] == log;
  }

  lemma {:induction false} SliceInTurn(w: seq<Job>, s: State, e: Slice)
    requires Layout(w, s) && Ready(w, s) && OnTime(w, s) && InTurn(w, s.log)
    requires e.pid == s.index < |w| && Cut(w, s.log, e)
    ensures InTurn(w, s.log + [e])
  {
    forall q | 0 <= q < e.pid ensures Retired(w, s.log, q) {
      assert s.sched[q].id == q;
    }
    InTurnSnoc(w, s.log, e);
  }

  lemma {:induction false} IterationInTurn(w: seq<Job>, s: State, a: State, e: Slice)
    requires InTurn(w, s.log) && Arrived(w, s, a)
    requires Layout(w, a) && Ready(w, a) && OnTime(w, a) && e.pid == a.sched[a.index].id && Cut(w, a.log, e)
    ensures InTurn(w, a.log + [e])
  {
    if a.log != s.log {
      InTurnSnoc(w, s.log, Slice(IDLE, a.clock - s.clock, s.fork));
    }
    SliceInTurn(w, a, e);
  }

  // ---------- The scheduler ----------

  lemma {:induction false} ServedOrder(w: seq<Job>, s: State, finish: seq<nat>)
    requires Inv(w, s) && Flagged(w, s) && Order(w, s, finish) && s.index < s.fork
    requires 0 <= SliceLength(w, s) <= s.sched[s.index].exec
    ensures Order(w, Assigned(s, SliceLength(w, s)), Recorded(s, Assigned(s, SliceLength(w, s)), finish))
  {
    assert s.sched[s.index].id == s.index;
    SliceOrder(w, s, SliceLength(w, s), finish);
  }

  /** Waiting and forking, and then a slice, keep the order. */
  lemma {:induction false} IterationOrder(w: seq<Job>, s: State, a: State, s': State, finish: seq<nat>)
    requires Order(w, s, finish) && Arrived(w, s, a)
    requires Inv(w, a) && Flagged(w, a) && 0 <= SliceLength(w, a) <= a.sched[a.index].exec
    requires s' == Assigned(a, SliceLength(w, a))
    ensures OnTime(w, a) && Order(w, s', Recorded(a, s', finish))
  {
    IdleOrder(w, s, a, finish);
    ServedOrder(w, a, finish);
  }

  /** Waiting, forking and a slice: from s over the state a in which the slice is handed out to s'. */
  method Advance(w: seq<Job>, scheduler: array<Entry>, nextForFork: nat, index: nat, clock: nat, log: seq<Slice>,
                 ghost s: State)
    returns (nextForFork': nat, index': nat, clock': nat, log': seq<Slice>, slice: Slice, ghost a: State, ghost s': State)
    requires Inv(w, s) && Flagged(w, s) && index < |w|
    requires s == State(scheduler[..], index, nextForFork, clock, log)
    modifies scheduler
    ensures Inv(w, s') && Flagged(w, s') && Progress(w, s') > Progress(w, s)
    ensures s' == State(scheduler[..], index', nextForFork', clock', log')
    ensures Arrived(w, s, a) && Inv(w, a) && Flagged(w, a) && 0 <= SliceLength(w, a) <= a.sched[a.index].exec
    ensures s' == Assigned(a, SliceLength(w, a))
    ensures slice.pid == a.sched[a.index].id && Cut(w, a.log, slice) && log' == a.log + [slice]
  {
    nextForFork', clock', log', a := Arrivals(w, scheduler, nextForFork, index, clock, log, s);
    index', clock', slice, s' := Serve(w, scheduler, nextForFork', index, clock', a);
    log' := log' + [slice];
  }

  /** One iteration; the end of a process is recorded when `index` moves on. */
  method Iterate(w: seq<Job>, scheduler: array<Entry>, nextForFork: nat, index: nat, clock: nat, log: seq<Slice>,
                 finish: seq<nat>, ghost s: State)
    returns (nextForFork': nat, index': nat, clock': nat, log': seq<Slice>, finish': seq<nat>, ghost s': State)
    requires Inv(w, s) && Flagged(w, s) && Order(w, s, finish) && InTurn(w, log) && index < |w|
    requires s == State(scheduler[..], index, nextForFork, clock, log)
    modifies scheduler
    ensures Inv(w, s') && Flagged(w, s') && Order(w, s', finish') && InTurn(w, log') && Progress(w, s') > Progress(w, s)
    ensures s' == State(scheduler[..], index', nextForFork', clock', log')
  {
    ghost var a;
    var slice;
    nextForFork', index', clock', log', slice, a, s' := Advance(w, scheduler, nextForFork, index, clock, log, s);
    finish' := if index' > index then finish + [clock'] else finish;
    IterationOrder(w, s, a, s', finish);
    IterationInTurn(w, s, a, slice);
  }

  lemma {:induction false} FinalOrder(input: seq<Job>, w: seq<Job>, s: State, finish: seq<nat>)
    requires Inv(w, s) && s.index == |w| && multiset(w) == multiset(input) && Order(w, s, finish)
    ensures Complete(input, w, s.log) && InOrder(w, Expand(s.log)) && |finish| == |w|
    ensures forall i :: 0 <= i < |w| ==> finish[i] == BusyUntil(w, i + 1) && EndsAt(w, Expand(s.log), i, finish[i])
  {
    FinalState(input, w, s);
  }

  /** The main loop. `finish[i]` is the clock value recorded when the i-th process ends. */
  method Fifo(input: seq<Job>) returns (w: seq<Job>, log: seq<Slice>, finish: seq<nat>, iterations: nat)
    ensures Complete(input, w, log)
    ensures InTurn(w, log) && InOrder(w, Expand(log))
    ensures |finish| == |w|
    ensures forall i :: 0 <= i < |w| ==> finish[i] == BusyUntil(w, i + 1) && EndsAt(w, Expand(log), i, finish[i])
    ensures iterations <= 2 * |w|
  {
    w := InReadyOrder(input);
    var scheduler;
    ghost var s;
    scheduler, s := Load(w);
    InitialOrder(w);
    var n := |w|;
    var clock: nat, index: nat, nextForFork: nat := 0, 0, 0;
    log, finish, iterations := [], [], 0;
    while index < n
      invariant s == State(scheduler[..], index, nextForFork, clock, log)
      invariant Inv(w, s) && Flagged(w, s) && Order(w, s, finish) && InTurn(w, log)
      invariant iterations <= Progress(w, s)
      decreases 2 * n - Progress(w, s)
    {
      nextForFork, index, clock, log, finish, s :=
        Iterate(w, scheduler, nextForFork, index, clock, log, finish, s);
      iterations := iterations + 1;
    }
    FinalOrder(input, w, s, finish);
  }
}
