/** The schedulers' logs, carried out by the processes of the slice protocol. */
module Execution {
  import opened Jobs
  import opened Traces
  import opened Schedules
  import P = Protocol

  /**
   * The processes are where the log says: the first a have been forked, and no others; of these the
   * retired ones are gone, and the rest are at scanf with what the log leaves them.
   */
  ghost predicate Matches(w: seq<Job>, log: seq<Slice>, a: nat, s: P.State) {
    && P.Free(s) && |s.kids| == |w| == |s.left|
    && forall p :: 0 <= p < |w| ==>
         && s.left[p] == Left(w, Expand(log), p)
         && s.kids[p].phase == (if p >= a then P.Unborn else if Retired(w, log, p) then P.Reaped else P.AtRead)
         && (s.kids[p].phase == P.AtRead ==> s.kids[p].executionTime == Left(w, Expand(log), p))
  }

  lemma {:induction false} MatchesFrom(w: seq<Job>, log: seq<Slice>, a: nat, s: P.State)
    requires P.Free(s) && |s.kids| == |w| == |s.left|
    requires forall p :: 0 <= p < |w| ==>
               && s.left[p] == Left(w, Expand(log), p)
               && s.kids[p].phase == (if p >= a then P.Unborn else if Retired(w, log, p) then P.Reaped else P.AtRead)
    ensures Matches(w, log, a, s)
  {
    P.InvIsSafe(s);
  }

  /** The next process is forked. */
  lemma {:induction false} ForkNext(w: seq<Job>, log: seq<Slice>, a: nat, s: P.State) returns (t: P.State)
    requires Matches(w, log, a, s) && a < |w| && !Retired(w, log, a)
    ensures P.Path([s, t], s, t) && Matches(w, log, a + 1, t)
  {
    t := P.ForkStep(s, a);
    MatchesFrom(w, log, a + 1, t);
  }

  lemma {:induction false} ForkUpTo(w: seq<Job>, log: seq<Slice>, a: nat, b: nat, s: P.State)
    returns (t: P.State, run: seq<P.State>)
    requires Matches(w, log, a, s) && a <= b <= |w|
    requires forall p :: a <= p < b ==> !Retired(w, log, p)
    ensures P.Path(run, s, t) && Matches(w, log, b, t)
    decreases b - a
  {
    if a == b {
      t, run := s, [s];
    } else {
      var u := ForkNext(w, log, a, s);
      var rest;
      t, rest := ForkUpTo(w, log, a + 1, b, u);
      P.PathOn([s, u], rest, s, u, t);
      run := [s, u] + rest[1..];
    }
  }

  /** Between two slices, those who have become ready are forked. */
  lemma {:induction false} ForksAreCarriedOut(w: seq<Job>, log: seq<Slice>, a: nat, s: P.State)
    returns (t: P.State, run: seq<P.State>)
    requires Dispatches(w, log) && Matches(w, log, Forked(log), s) && Forked(log) <= a <= |w|
    ensures P.Path(run, s, t) && Matches(w, log, a, t)
  {
    forall p | Forked(log) <= p < a ensures !Retired(w, log, p) {
      if Occurs(log, p) {
        OccursForked(w, log, p);
      }
    }
    t, run := ForkUpTo(w, log, Forked(log), a, s);
  }

  /** One slice of the log, carried out. */
  lemma {:induction false} SliceIsCarriedOut(w: seq<Job>, log: seq<Slice>, e: Slice, s: P.State)
    returns (t: P.State, run: seq<P.State>)
    requires Dispatchable(w, log, e) && Matches(w, log, e.forked, s)
    ensures P.Path(run, s, t) && Matches(w, log + [e], e.forked, t)
  {
    if e.pid == IDLE {
      t, run := s, [s];
      LeftAfterIdle(w, log, e.len, e.forked);
    } else {
      t, run := P.DispatchRuns(s, e.pid, e.len);
      LeftAfterRun(w, log, e.pid, e.len, e.forked);
    }
    MatchesFrom(w, log + [e], e.forked, t);
  }

  /** The run passes, in order, through a state for each slice: the one in which it is about to be handed out. */
  ghost predicate PassesThrough(w: seq<Job>, log: seq<Slice>, run: seq<P.State>, marks: seq<nat>) {
    && |marks| == |log|
    && (forall i, j :: 0 <= i < j < |marks| ==> marks[i] <= marks[j])
    && (forall i {:trigger marks[i]} :: 0 <= i < |marks| ==>
          marks[i] < |run| && Matches(w, log[..i], log[i].forked, run[marks[i]]))
  }

  lemma {:induction false} PassesOn(w: seq<Job>, log: seq<Slice>, e: Slice, run: seq<P.State>, more: seq<P.State>,
                                    marks: seq<nat>, m: nat)
    requires PassesThrough(w, log, run, marks) && |run| <= m + 1 <= |more| && run == more[..|run|]
    requires Matches(w, log, e.forked, more[m])
    ensures PassesThrough(w, log + [e], more, marks + [m])
  {
    forall i | 0 <= i < |marks|
      ensures marks[i] < |more| && Matches(w, (log + [e])[..i], (log + [e])[i].forked, more[marks[i]])
    {
      assert (log + [e])[..i] == log[..i] && more[marks[i]] == run[marks[i]];
    }
    assert (log + [e])[..|log|] == log;
  }

  /** A run for a log is continued with the forks before the next slice, and that slice. */
  lemma {:induction false} OneMore(w: seq<Job>, log: seq<Slice>, e: Slice, r: P.State, a: seq<P.State>, before: seq<nat>)
    returns (s: P.State, run: seq<P.State>, marks: seq<nat>)
    requires Dispatches(w, log) && Dispatchable(w, log, e)
    requires P.Path(a, P.Initial(Execs(w)), r) && Matches(w, log, Forked(log), r) && PassesThrough(w, log, a, before)
    ensures P.Path(run, P.Initial(Execs(w)), s) && Matches(w, log + [e], e.forked, s)
    ensures PassesThrough(w, log + [e], run, marks)
  {
    var u, b := ForksAreCarriedOut(w, log, e.forked, r);
    var c;
    s, c := SliceIsCarriedOut(w, log, e, u);
    var m;
    run, m := P.PathVia(a, b, c, P.Initial(Execs(w)), r, u, s);
    PassesOn(w, log, e, a, run, before, m);
    marks := before + [m];
  }

  lemma {:induction false} NothingIsCarriedOut(w: seq<Job>) returns (s: P.State)
    ensures P.Path([s], P.Initial(Execs(w)), s) && Matches(w, [], 0, s) && PassesThrough(w, [], [s], [])
  {
    s := P.Initial(Execs(w));
    P.InitialInv(Execs(w));
    MatchesFrom(w, [], 0, s);
  }

  /**
   * Every log a scheduler produces is carried out by a run of the protocol, slice by slice. When a
   * slice is about to be handed out, exactly those have been forked that the log says; at the end
   * each child has counted off exactly what the log gave it, and has exited and been waited for
   * exactly if it has been retired.
   */
  lemma {:induction false} LogIsCarriedOut(w: seq<Job>, log: seq<Slice>)
    returns (s: P.State, run: seq<P.State>, marks: seq<nat>)
    requires Dispatches(w, log)
    ensures P.Path(run, P.Initial(Execs(w)), s) && Matches(w, log, Forked(log), s)
    ensures PassesThrough(w, log, run, marks)
  {
    if log == [] {
      s := NothingIsCarriedOut(w);
      run, marks := [s], [];
    } else {
      var n := |log| - 1;
      var init, e := log[..n], log[n];
      DispatchesPrefix(w, log, n);
      assert Dispatchable(w, init, e) && log == init + [e];
      var r, a, before := LogIsCarriedOut(w, init);
      s, run, marks := OneMore(w, init, e, r, a, before);
    }
  }

  /** A complete schedule is carried out to the end: every child has exited and been waited for. */
  lemma {:induction false} CompleteIsCarriedOut(input: seq<Job>, w: seq<Job>, log: seq<Slice>)
    returns (s: P.State, run: seq<P.State>, marks: seq<nat>)
    requires Complete(input, w, log)
    ensures P.Path(run, P.Initial(Execs(w)), s) && PassesThrough(w, log, run, marks)
    ensures P.Free(s) && |s.kids| == |input|
    ensures forall p :: 0 <= p < |s.kids| ==> s.kids[p].phase == P.Reaped && s.left[p] == 0
  {
    s, run, marks := LogIsCarriedOut(w, log);
    assert |multiset(w)| == |multiset(input)|;
    forall p | 0 <= p < |w| ensures s.kids[p].phase == P.Reaped && s.left[p] == 0 {
      assert Retired(w, log, p);
      OccursForked(w, log, p);
    }
  }

  /**
   * A schedule that hangs is carried out up to the wait, and the wait for the child that was handed
   * nothing leads to a state in which the parent is asleep and nobody can take a step.
   */
  lemma {:induction false} HangIsCarriedOut(w: seq<Job>, log: seq<Slice>, a: nat, p: nat)
    returns (s: P.State, run: seq<P.State>, t: P.State, last: seq<P.State>)
    requires Hangs(w, log, a, p)
    ensures P.Path(run, P.Initial(Execs(w)), s) && Matches(w, log, a, s)
    ensures P.Path(last, s.(pc := P.Wait(p)), t) && t.pc == P.Asleep(p)
    ensures P.Runner(t) == P.Nobody && forall u :: !P.Step(t, u)
  {
    var r, b, marks := LogIsCarriedOut(w, log);
    var c;
    s, c := ForksAreCarriedOut(w, log, a, r);
    P.PathOn(b, c, P.Initial(Execs(w)), r, s);
    run := b + c[1..];
    assert s.kids[p].phase == P.AtRead;
    t, last := P.WaitWithoutDispatchDeadlocks(s, p);
  }
}
