/** Shortest job first, without preemption (prj1/sjf.c:121-154). */
module Sjf {
  import opened Sorting
  import opened Jobs
  import opened Traces
  import opened Schedules
  import opened Optimality
  import opened NonPreemptive

  // ---------- The policy ----------

  /** The process that ran last still has work. */
  ghost predicate MidJob(w: seq<Job>, tr: Trace) {
    tr != [] && 0 <= tr[|tr| - 1] < |w| && Left(w, tr, tr[|tr| - 1]) > 0
  }

  /** A process that has been started runs on until it is finished. */
  ghost predicate NeverInterrupted(w: seq<Job>, tr: Trace) {
    forall t {:trigger tr[..t]} :: 0 < t < |tr| && MidJob(w, tr[..t]) ==> tr[t] == tr[t - 1]
  }

  /** A process that starts is a shortest one among the arrived, unfinished ones. */
  ghost predicate ShortestStarts(w: seq<Job>, tr: Trace) {
    forall t, q :: 0 <= t < |tr| && CanRun(w, tr[..t], q) && Ran(tr[..t], tr[t]) == 0 && 0 <= tr[t] < |w| ==>
      w[tr[t]].exec <= w[q].exec
  }

  ghost predicate Policy(w: seq<Job>, tr: Trace) { NeverInterrupted(w, tr) && ShortestStarts(w, tr) }

  lemma {:induction false} AppendPolicy(w: seq<Job>, tr: Trace, p: int)
    requires Policy(w, tr)
    requires MidJob(w, tr) ==> p == tr[|tr| - 1]
    requires 0 <= p < |w| && Ran(tr, p) == 0 ==> forall q :: CanRun(w, tr, q) ==> w[p].exec <= w[q].exec
    ensures Policy(w, tr + [p])
  {
    assert forall t :: 0 <= t < |tr| ==> (tr + [p])[..t] == tr[..t];
    assert (tr + [p])[..|tr|] == tr;
  }

  lemma {:induction false} ExtendPolicy(w: seq<Job>, tr: Trace, p: int, k: nat)
    requires Policy(w, tr) && 0 <= p < |w|
    requires MidJob(w, tr) ==> p == tr[|tr| - 1]
    requires Ran(tr, p) == 0 ==> forall q :: CanRun(w, tr, q) ==> w[p].exec <= w[q].exec
    ensures Policy(w, tr + Repeat(p, k))
  {
    if k == 0 {
      assert tr + Repeat(p, k) == tr;
    } else {
      var mid := tr + Repeat(p, k - 1);
      ExtendPolicy(w, tr, p, k - 1);
      RanRepeat(tr, p, k - 1);
      assert k == 1 ==> mid == tr;
      assert k > 1 ==> mid[|mid| - 1] == p;
      AppendPolicy(w, mid, p);
      assert tr + Repeat(p, k) == mid + [p];
    }
  }

  lemma {:induction false} IdlePolicy(w: seq<Job>, tr: Trace, k: nat)
    requires Policy(w, tr) && !MidJob(w, tr)
    ensures Policy(w, tr + Repeat(IDLE, k)) && !MidJob(w, tr + Repeat(IDLE, k))
  {
    if k == 0 {
      assert tr + Repeat(IDLE, k) == tr;
    } else {
      var mid := tr + Repeat(IDLE, k - 1);
      IdlePolicy(w, tr, k - 1);
      AppendPolicy(w, mid, IDLE);
      assert tr + Repeat(IDLE, k) == mid + [IDLE];
    }
  }

  // ---------- In a batch, shortest job first is shortest remaining time first ----------

  ghost predicate Batch(w: seq<Job>) { forall i, j :: 0 <= i < |w| && 0 <= j < |w| ==> w[i].ready == w[j].ready }

  lemma {:induction false} BatchInAnyOrder(input: seq<Job>, w: seq<Job>)
    requires Batch(input) && multiset(w) == multiset(input)
    ensures Batch(w)
  {
    SameElements(w, input);
    forall i, j | 0 <= i < |w| && 0 <= j < |w| ensures w[i].ready == w[j].ready {
      assert w[i] in input && w[j] in input;
    }
  }

  /** p has been started and not finished. */
  ghost predicate Partial(w: seq<Job>, tr: Trace, p: int) {
    0 <= p < |w| && 0 < Ran(tr, p) < w[p].exec
  }

  /** Only the process that ran last can be partly done, and it was no longer than those still waiting. */
  lemma {:induction false} OnePartial(w: seq<Job>, tr: Trace, t: nat)
    requires Batch(w) && Feasible(w, tr) && WorkConserving(w, tr) && Policy(w, tr) && t <= |tr|
    ensures forall p :: Partial(w, tr[..t], p) ==> t > 0 && tr[t - 1] == p
    ensures forall p, q :: Partial(w, tr[..t], p) && CanRun(w, tr[..t], q) ==> w[p].exec <= w[q].exec
  {
    if t > 0 {
      var u, pre, p := t - 1, tr[..t - 1], tr[t - 1];
      OnePartial(w, tr, u);
      assert tr[..t] == pre + [p];
      RanSnoc(pre, p);
      assert p == IDLE || CanRun(w, pre, p);
      forall q | Partial(w, tr[..t], q) ensures q == p {
        assert q == p || Partial(w, pre, q);
        assert Partial(w, pre, q) ==> MidJob(w, pre);
      }
      forall q | Partial(w, tr[..t], p) && CanRun(w, tr[..t], q) ensures w[p].exec <= w[q].exec {
        assert q != p ==> CanRun(w, pre, q);
        assert Ran(pre, p) == 0 || Partial(w, pre, p);
      }
    }
  }

  /** For a batch the schedule is the optimal one, preemption or not. */
  lemma {:induction false} BatchIsShortestFirst(w: seq<Job>, tr: Trace)
    requires Batch(w) && Feasible(w, tr) && WorkConserving(w, tr) && Policy(w, tr)
    ensures ShortestFirst(w, tr)
  {
    forall t, q | 0 <= t < |tr| && CanRun(w, tr[..t], q)
      ensures 0 <= tr[t] < |w| && Left(w, tr[..t], tr[t]) <= Left(w, tr[..t], q)
    {
      var pre, p := tr[..t], tr[t];
      OnePartial(w, tr, t);
      assert p != IDLE && CanRun(w, pre, p);
      if Partial(w, pre, q) {
        assert MidJob(w, pre);
      } else {
        assert Ran(pre, p) == 0 || Partial(w, pre, p);
      }
    }
  }

  // ---------- The loop invariant ----------

  /** The trace follows the policy, and a job in progress is the entry at `index`. */
  ghost predicate Follows(w: seq<Job>, s: State) {
    && Policy(w, Expand(s.log))
    && (MidJob(w, Expand(s.log)) ==>
          var p := Expand(s.log)[|Expand(s.log)| - 1];
          s.index < s.fork && s.index < |s.sched| && s.sched[s.index].id == p && !s.sched[s.index].flag)
  }

  /** An entry that has not been started is a shortest one of the ready segment. */
  ghost predicate ShortestAt(s: State) {
    s.index < s.fork <= |s.sched| &&
    (s.sched[s.index].flag ==> forall i :: s.index <= i < s.fork ==> s.sched[s.index].exec <= s.sched[i].exec)
  }

  lemma {:induction false} IdleFollows(w: seq<Job>, s: State, s': State)
    requires Follows(w, s) && Arrived(w, s, s')
    ensures Follows(w, s')
  {
    if s'.log != s.log {
      ExpandSnoc(s.log, Slice(IDLE, s'.clock - s.clock, s.fork));
      IdlePolicy(w, Expand(s.log), s'.clock - s.clock);
    }
  }

  /** The entry at `index` is the right one to run: in progress, or a shortest one. */
  lemma {:induction false} RightChoice(w: seq<Job>, s: State)
    requires Inv(w, s) && Flagged(w, s) && ShortestAt(s)
    requires s.fork < |w| ==> w[s.fork].ready > s.clock
    ensures var p := s.sched[s.index].id;
            Ran(Expand(s.log), p) == 0 ==> forall q :: CanRun(w, Expand(s.log), q) ==> w[p].exec <= w[q].exec
  {
    var p, tr := s.sched[s.index].id, Expand(s.log);
    if Ran(tr, p) == 0 {
      assert s.sched[s.index].flag;
      forall q | CanRun(w, tr, q) ensures w[p].exec <= w[q].exec {
        assert q < s.fork;
        var i := InReadySegment(w, s, q);
        assert s.sched[i].exec == Left(w, tr, q) <= w[q].exec;
      }
    }
  }

  lemma {:induction false} SliceFollows(w: seq<Job>, s: State, k: nat)
    requires Inv(w, s) && Flagged(w, s) && ShortestAt(s) && Follows(w, s)
    requires s.fork < |w| ==> w[s.fork].ready > s.clock
    requires k <= s.sched[s.index].exec
    ensures Follows(w, Assigned(s, k))
  {
    var p, tr := s.sched[s.index].id, Expand(s.log);
    RightChoice(w, s);
    ExtendPolicy(w, tr, p, k);
    LeftAfterRun(w, s.log, p, k, s.fork);
    assert k > 0 ==> (tr + Repeat(p, k))[|tr| + k - 1] == p;
    assert k == 0 ==> tr + Repeat(p, k) == tr;
  }

  // ---------- The decisions, read off the log ----------

  function LastPid(log: seq<Slice>): int { if log == [] then IDLE else log[|log| - 1].pid }

  /** The process that was handed the last slice still has work. */
  ghost predicate InProgress(w: seq<Job>, log: seq<Slice>) {
    0 <= LastPid(log) < |w| && !Retired(w, log, LastPid(log))
  }

  /**
   * A slice after `log`, whatever its length, goes to the process in progress, or else to one with
   * the least left of all that have been forked and not retired.
   */
  ghost predicate Chosen(w: seq<Job>, log: seq<Slice>, e: Slice) {
    && Cut(w, log, e)
    && (e.pid != IDLE ==>
          if InProgress(w, log) then e.pid == LastPid(log)
          else forall q :: 0 <= q < e.forked && !Retired(w, log, q) ==>
                 Left(w, Expand(log), e.pid) <= Left(w, Expand(log), q))
  }

  ghost predicate AllChosen(w: seq<Job>, log: seq<Slice>) {
    forall i {:trigger log[..i]} :: 0 <= i < |log| ==> Chosen(w, log[..i], log[i])
  }

  lemma {:induction false} ChosenSnoc(w: seq<Job>, log: seq<Slice>, e: Slice)
    requires AllChosen(w, log) && Chosen(w, log, e)
    ensures AllChosen(w, log + [e])
  {
    assert forall i :: 0 <= i < |log| ==> (log + [e])[..i] == log[..i];
    assert (log + [e])[..|log|] == log;
  }

  /** The process in progress, if any, is the started entry at `index`. */
  ghost predicate Resumes(w: seq<Job>, s: State) {
    && s.fork <= |s.sched|
    && (InProgress(w, s.log) <==> s.index < s.fork && !s.sched[s.index].flag)
    && (InProgress(w, s.log) ==> s.sched[s.index].id == LastPid(s.log))
  }

  lemma {:induction false} IdleResumes(w: seq<Job>, s: State, a: State)
    requires Layout(w, s) && Resumes(w, s) && AllChosen(w, s.log) && Arrived(w, s, a)
    ensures Resumes(w, a) && AllChosen(w, a.log)
  {
    if a.log != s.log {
      ChosenSnoc(w, s.log, Slice(IDLE, a.clock - s.clock, s.fork));
    }
  }

  lemma {:induction false} SliceResumes(w: seq<Job>, s: State, k: nat)
    requires Layout(w, s) && Balanced(w, s) && s.index < s.fork && k <= s.sched[s.index].exec
    ensures Resumes(w, Assigned(s, k))
  {
    var p := s.sched[s.index].id;
    LeftAfterRun(w, s.log, p, k, s.fork);
    assert LastPid(Assigned(s, k).log) == p;
  }

  lemma {:induction false} SliceIsChosen(w: seq<Job>, s: State, e: Slice)
    requires Layout(w, s) && Balanced(w, s) && Ready(w, s) && Resumes(w, s) && ShortestAt(s)
    requires e.pid == s.sched[s.index].id && e.forked == s.fork && Cut(w, s.log, e)
    ensures Chosen(w, s.log, e)
  {
    if !InProgress(w, s.log) {
      forall q | 0 <= q < s.fork && !Retired(w, s.log, q)
        ensures Left(w, Expand(s.log), e.pid) <= Left(w, Expand(s.log), q)
      {
        assert Holds(s.sched, q, s.fork);
        var i :| 0 <= i < s.fork && s.sched[i].id == q;
        assert i >= s.index && s.sched[s.index].flag;
      }
    }
  }

  lemma {:induction false} ServedChosen(w: seq<Job>, s: State, e: Slice)
    requires Inv(w, s) && Resumes(w, s) && ShortestAt(s) && AllChosen(w, s.log) && Cut(w, s.log, e)
    requires 0 <= SliceLength(w, s) <= s.sched[s.index].exec
    requires e == Slice(s.sched[s.index].id, SliceLength(w, s), s.fork)
    ensures var r := Assigned(s, SliceLength(w, s)); Resumes(w, r) && AllChosen(w, r.log)
  {
    SliceIsChosen(w, s, e);
    ChosenSnoc(w, s.log, e);
    SliceResumes(w, s, SliceLength(w, s));
  }

  // ---------- The scheduler ----------

  /** The time compared by SJFcmp. */
  function ExecOf(e: Entry): int { e.exec }

  lemma {:induction false} SortShortest(w: seq<Job>, s: State, sched: seq<Entry>, lo: nat)
    requires Layout(w, s) && Rearranged(s, sched, lo) && s.index < s.fork
    requires lo == if s.sched[s.index].flag then s.index else s.index + 1
    requires Sorted(sched[lo..s.fork], ExecOf)
    ensures ShortestAt(s.(sched := sched))
  {
    if lo == s.index {
      forall i | lo <= i < s.fork ensures sched[lo].exec <= sched[i].exec {
        assert ExecOf(sched[lo..s.fork][0]) <= ExecOf(sched[lo..s.fork][i - lo]);
      }
    } else {
      assert sched[s.index] == sched[..lo][s.index];
    }
  }

  lemma {:induction false} SortChooses(w: seq<Job>, s: State, sched: seq<Entry>, lo: nat)
    requires Inv(w, s) && Flagged(w, s) && Rearranged(s, sched, lo) && s.index < s.fork
    requires lo == if s.sched[s.index].flag then s.index else s.index + 1
    ensures Inv(w, s.(sched := sched)) && Flagged(w, s.(sched := sched))
  {
    SortInv(w, s, sched, lo);
    if lo > s.index {
      assert sched[s.index] == sched[..lo][s.index];
    }
  }

  lemma {:induction false} SortFollows(w: seq<Job>, s: State, sched: seq<Entry>, lo: nat)
    requires Follows(w, s) && Rearranged(s, sched, lo) && s.index < s.fork
    requires lo == if s.sched[s.index].flag then s.index else s.index + 1
    ensures Follows(w, s.(sched := sched))
  {
    if lo > s.index {
      assert sched[s.index] == sched[..lo][s.index];
    }
  }

  lemma {:induction false} SortResumes(w: seq<Job>, s: State, sched: seq<Entry>, lo: nat)
    requires Inv(w, s) && Flagged(w, s) && Resumes(w, s) && Rearranged(s, sched, lo) && s.index < s.fork
    requires lo == if s.sched[s.index].flag then s.index else s.index + 1
    ensures Resumes(w, s.(sched := sched))
  {
    if lo > s.index {
      assert sched[s.index] == sched[..lo][s.index];
    } else {
      SortLayout(w, s, sched, lo);
    }
  }

  /** Lines 138-144: sort what may be sorted; a job in progress keeps its place. */
  method SortReady(w: seq<Job>, scheduler: array<Entry>, nextForFork: nat, index: nat, ghost s: State)
    requires Inv(w, s) && Flagged(w, s) && Follows(w, s) && Resumes(w, s)
    requires s.sched == scheduler[..] && s.index == index < s.fork == nextForFork
    modifies scheduler
    ensures scheduler.Length == |w|
    ensures var r := s.(sched := scheduler[..]);
            Inv(w, r) && Flagged(w, r) && Follows(w, r) && Resumes(w, r) && ShortestAt(r)
  {
    var lo := if scheduler[index].flag then index else index + 1;
    assert s.sched[lo..nextForFork] == scheduler[lo..nextForFork];
    assert s.sched[..lo] == scheduler[..lo] && s.sched[nextForFork..] == scheduler[nextForFork..];
    SortSegment(scheduler, lo, nextForFork, ExecOf);
    ghost var after := scheduler[..];
    assert after[lo..nextForFork] == scheduler[lo..nextForFork];
    assert after[..lo] == scheduler[..lo] && after[nextForFork..] == scheduler[nextForFork..];
    SortChooses(w, s, after, lo);
    SortShortest(w, s, after, lo);
    SortFollows(w, s, after, lo);
    SortResumes(w, s, after, lo);
  }

  /** One iteration. */
  method Iterate(w: seq<Job>, scheduler: array<Entry>, nextForFork: nat, index: nat, clock: nat, log: seq<Slice>,
                 ghost s: State)
    returns (nextForFork': nat, index': nat, clock': nat, log': seq<Slice>, ghost s': State)
    requires Inv(w, s) && Flagged(w, s) && Follows(w, s) && Resumes(w, s) && AllChosen(w, log) && index < |w|
    requires s == State(scheduler[..], index, nextForFork, clock, log)
    modifies scheduler
    ensures Inv(w, s') && Flagged(w, s') && Follows(w, s') && Progress(w, s') > Progress(w, s)
    ensures Resumes(w, s') && AllChosen(w, log')
    ensures s' == State(scheduler[..], index', nextForFork', clock', log')
  {
    ghost var a;
    nextForFork', clock', log', a := Arrivals(w, scheduler, nextForFork, index, clock, log, s);
    IdleFollows(w, s, a);
    IdleResumes(w, s, a);
    SortReady(w, scheduler, nextForFork', index, a);
    a := a.(sched := scheduler[..]);
    var slice;
    index', clock', slice, s' := Serve(w, scheduler, nextForFork', index, clock', a);
    SliceFollows(w, a, SliceLength(w, a));
    ServedChosen(w, a, slice);
    log' := log' + [slice];
  }

  /** The main loop. */
  method Sjf(input: seq<Job>) returns (w: seq<Job>, log: seq<Slice>, iterations: nat)
    ensures Complete(input, w, log)
    ensures AllChosen(w, log)
    ensures NeverInterrupted(w, Expand(log)) && ShortestStarts(w, Expand(log))
    ensures Batch(input) ==> Optimal(w, Expand(log))
    ensures iterations <= 2 * |w|
  {
    w := InReadyOrder(input);
    var scheduler;
    ghost var s;
    scheduler, s := Load(w);
    var n := |w|;
    var clock: nat, index: nat, nextForFork: nat := 0, 0, 0;
    log, iterations := [], 0;
    while index < n
      invariant s == State(scheduler[..], index, nextForFork, clock, log)
      invariant Inv(w, s) && Flagged(w, s) && Follows(w, s) && Resumes(w, s) && AllChosen(w, log)
      invariant iterations <= Progress(w, s)
      decreases 2 * n - Progress(w, s)
    {
      nextForFork, index, clock, log, s := Iterate(w, scheduler, nextForFork, index, clock, log, s);
      iterations := iterations + 1;
    }
    FinalState(input, w, s);
    if Batch(input) {
      BatchInAnyOrder(input, w);
      BatchIsShortestFirst(w, Expand(log));
      ShortestFirstIsOptimal(w, Expand(log));
    }
  }
}
