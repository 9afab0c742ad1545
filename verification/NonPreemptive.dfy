/**
 * What the FIFO and the SJF scheduler share (prj1/fifo.c and prj1/sjf.c, whose waitLoop,
 * executeFork, decideTime and assign are the same): an array split at `index` and `fork` into
 * finished processes, ready ones and ones that have not arrived; the entry at `index` runs until
 * it is finished, in slices cut at arrivals.
 */
module NonPreemptive {
  import opened Sorting
  import opened Jobs
  import opened Traces
  import opened Schedules

  /** DATA; `id` is the position in ready order, and `flag` is cleared when the process starts. */
  datatype Entry = Entry(id: nat, ready: nat, exec: nat, flag: bool)

  datatype State = State(sched: seq<Entry>, index: nat, fork: nat, clock: nat, log: seq<Slice>)

  ghost predicate Layout(w: seq<Job>, s: State) {
    && |s.sched| == |w| && s.index <= s.fork <= |w|
    && (forall i, j :: 0 <= i < j < |w| ==> s.sched[i].id != s.sched[j].id)
    && (forall i :: 0 <= i < s.fork ==> s.sched[i].id < s.fork && s.sched[i].ready == w[s.sched[i].id].ready)
    && (forall i :: s.fork <= i < |w| ==> s.sched[i] == Entry(i, w[i].ready, w[i].exec, true))
    && (forall i :: s.index < i < s.fork ==> s.sched[i].flag && s.sched[i].exec == w[s.sched[i].id].exec)
    && (forall i :: 0 <= i < s.index ==> s.sched[i].exec == 0)
  }

  /** One of the first a entries is that of process p. */
  ghost predicate Holds(sched: seq<Entry>, p: int, a: nat) {
    exists i :: 0 <= i < a <= |sched| && sched[i].id == p
  }

  /** The array holds what the log leaves of each process. */
  ghost predicate Balanced(w: seq<Job>, s: State)
    requires Layout(w, s)
  {
    forall i :: 0 <= i < |w| ==> s.sched[i].exec == Left(w, Expand(s.log), s.sched[i].id)
  }

  /** The log is a schedule, it is at the clock, and nobody is overdue. */
  ghost predicate Books(w: seq<Job>, s: State)
    requires Layout(w, s)
  {
    && ByReady(w)
    && s.clock == |Expand(s.log)| <= BusyUntil(w, |w|)
    && Admitted(w, s.fork, s.clock) && Forked(s.log) <= s.fork
    && Schedule(w, s.log)
  }

  /** The entries before `fork` are the admitted processes; those before `index` are the retired ones. */
  ghost predicate Ready(w: seq<Job>, s: State)
    requires Layout(w, s)
  {
    && (forall i :: 0 <= i < |w| ==> (Retired(w, s.log, s.sched[i].id) <==> i < s.index))
    && (forall p :: 0 <= p < s.fork ==> Holds(s.sched, p, s.fork))
  }

  ghost predicate Inv(w: seq<Job>, s: State) { Layout(w, s) && Balanced(w, s) && Books(w, s) && Ready(w, s) }

  /** The entry at `index` has its flag exactly until it has run; once it has, it still has work left. */
  ghost predicate Flagged(w: seq<Job>, s: State)
    requires Layout(w, s)
  {
    s.index < s.fork ==>
      var e := s.sched[s.index];
      (e.flag <==> e.exec == w[e.id].exec) && (e.flag || e.exec > 0)
  }

  /** Bounds the iterations so far; it grows in every iteration. */
  ghost function Progress(w: seq<Job>, s: State): nat { s.index + s.fork + Due(w, s.fork, s.clock) }

  function Initial(w: seq<Job>): State {
    State(seq(|w|, i requires 0 <= i < |w| => Entry(i, w[i].ready, w[i].exec, true)), 0, 0, 0, [])
  }

  lemma {:induction false} InitialInv(w: seq<Job>)
    requires ByReady(w)
    ensures Inv(w, Initial(w)) && Flagged(w, Initial(w))
  {
  }

  // ---------- waitLoop ----------

  /** Nobody is ready: the clock is at the next arrival. */
  ghost function Waited(w: seq<Job>, s: State): State
    requires s.fork < |w| && s.clock <= w[s.fork].ready
  {
    s.(clock := w[s.fork].ready, log := s.log + [Slice(IDLE, w[s.fork].ready - s.clock, s.fork)])
  }

  /** An admitted process with work left has its entry between `index` and `fork`. */
  lemma {:induction false} InReadySegment(w: seq<Job>, s: State, p: nat) returns (i: nat)
    requires Inv(w, s) && p < s.fork && Left(w, Expand(s.log), p) != 0
    ensures s.index <= i < s.fork && s.sched[i].id == p
  {
    assert Holds(s.sched, p, s.fork);
    i :| 0 <= i < s.fork && s.sched[i].id == p;
  }

  lemma {:induction false} NoneLeft(w: seq<Job>, s: State)
    requires Inv(w, s) && s.index == s.fork
    ensures forall q :: 0 <= q < s.fork ==> Left(w, Expand(s.log), q) == 0
  {
    forall q | 0 <= q < s.fork ensures Left(w, Expand(s.log), q) == 0 {
      if Left(w, Expand(s.log), q) != 0 {
        var i := InReadySegment(w, s, q);
      }
    }
  }

  /** Whatever leaves the remaining times alone leaves the array right. */
  lemma {:induction false} SameLeft(w: seq<Job>, s: State, s': State)
    requires Layout(w, s) && Balanced(w, s) && Ready(w, s)
    requires s'.sched == s.sched && s'.index == s.index && s'.fork == s.fork
    requires forall q :: 0 <= q < |w| ==> Left(w, Expand(s'.log), q) == Left(w, Expand(s.log), q)
    requires forall q :: 0 <= q < |w| ==> (Retired(w, s'.log, q) <==> Retired(w, s.log, q))
    ensures Layout(w, s') && Balanced(w, s') && Ready(w, s')
  {
  }

  lemma {:induction false} WaitBooks(w: seq<Job>, s: State)
    requires Layout(w, s) && Books(w, s) && s.fork < |w|
    requires forall q :: 0 <= q < s.fork ==> Left(w, Expand(s.log), q) == 0
    ensures s.clock <= w[s.fork].ready && Layout(w, Waited(w, s)) && Books(w, Waited(w, s))
  {
    IdleSlice(w, s.log, s.fork, w[s.fork].ready - s.clock);
  }

  lemma {:induction false} WaitInv(w: seq<Job>, s: State)
    requires Inv(w, s) && s.index == s.fork < |w|
    ensures s.clock <= w[s.fork].ready && Inv(w, Waited(w, s))
  {
    NoneLeft(w, s);
    WaitBooks(w, s);
    LeftAfterIdle(w, s.log, w[s.fork].ready - s.clock, s.fork);
    SameLeft(w, s, Waited(w, s));
  }

  // ---------- executeFork ----------

  lemma {:induction false} ForkReady(w: seq<Job>, s: State, f: nat)
    requires Layout(w, s) && Ready(w, s) && s.fork <= f <= |w|
    ensures Layout(w, s.(fork := f)) && Ready(w, s.(fork := f))
  {
    forall p | 0 <= p < f ensures Holds(s.sched, p, f) {
      if p < s.fork {
        assert Holds(s.sched, p, s.fork);
      } else {
        assert s.sched[p].id == p;
      }
    }
  }

  lemma {:induction false} ForkInv(w: seq<Job>, s: State, f: nat)
    requires Inv(w, s) && s.fork <= f <= |w| && forall i :: s.fork <= i < f ==> w[i].ready == s.clock
    ensures Inv(w, s.(fork := f))
  {
    ForkReady(w, s, f);
  }

  /** The state after waitLoop. */
  ghost function AfterWait(w: seq<Job>, s: State): State {
    if s.index == s.fork < |w| && s.clock < w[s.fork].ready then Waited(w, s) else s
  }

  lemma {:induction false} AfterWaitInv(w: seq<Job>, s: State)
    requires Inv(w, s) && Flagged(w, s)
    ensures Inv(w, AfterWait(w, s)) && Flagged(w, AfterWait(w, s))
  {
    if s.index == s.fork < |w| {
      WaitInv(w, s);
    }
  }

  /** Forking everybody who is due leaves somebody to run. */
  lemma {:induction false} SomebodyReady(w: seq<Job>, s: State, a: State, f: nat)
    requires ByReady(w) && s.index <= s.fork && Admitted(w, s.fork, s.clock)
    requires a == AfterWait(w, s) && Admitted(w, a.fork, a.clock) && a.index < |w| && a.fork <= f <= |w|
    requires f < |w| ==> w[f].ready != a.clock
    ensures a.index < f && (f < |w| ==> w[f].ready > a.clock)
    ensures Progress(w, s) <= a.index + f
  {
  }

  lemma {:induction false} ForkFlagged(w: seq<Job>, a: State, f: nat)
    requires Layout(w, a) && Flagged(w, a) && a.fork <= f && Layout(w, a.(fork := f))
    ensures Flagged(w, a.(fork := f))
  {
  }

  // ---------- assign ----------

  ghost function SliceLength(w: seq<Job>, s: State): int
    requires s.index < |s.sched|
  {
    if s.fork < |w| && w[s.fork].ready - s.clock < s.sched[s.index].exec then w[s.fork].ready - s.clock
    else s.sched[s.index].exec
  }

  ghost function Assigned(s: State, k: nat): State
    requires s.index < |s.sched| && k <= s.sched[s.index].exec
  {
    var e := s.sched[s.index];
    State(s.sched[s.index := e.(exec := e.exec - k, flag := false)],
          if e.exec == k then s.index + 1 else s.index, s.fork, s.clock + k, s.log + [Slice(e.id, k, s.fork)])
  }

  lemma {:induction false} AssignLayout(w: seq<Job>, s: State, k: nat)
    requires Layout(w, s) && s.index < s.fork && k <= s.sched[s.index].exec
    ensures Layout(w, Assigned(s, k))
  {
  }

  /** The slice ends no later than B_n, and nobody is overdue when it does. */
  lemma {:induction false} SliceFits(w: seq<Job>, s: State)
    requires Layout(w, s) && Balanced(w, s) && Books(w, s) && s.index < s.fork
    ensures 0 <= SliceLength(w, s) <= s.sched[s.index].exec
    ensures s.clock + SliceLength(w, s) <= BusyUntil(w, |w|) && Admitted(w, s.fork, s.clock + SliceLength(w, s))
  {
    WithinBacklog(w, Expand(s.log), s.fork, s.sched[s.index].id);
    StillAdmitted(w, s.fork, s.clock, s.clock + SliceLength(w, s));
  }

  lemma {:induction false} AssignBooks(w: seq<Job>, s: State, k: nat)
    requires Layout(w, s) && Balanced(w, s) && Books(w, s) && s.index < s.fork && k <= s.sched[s.index].exec
    requires s.clock + k <= BusyUntil(w, |w|) && Admitted(w, s.fork, s.clock + k)
    requires !Retired(w, s.log, s.sched[s.index].id)
    ensures Layout(w, Assigned(s, k)) && Books(w, Assigned(s, k))
  {
    AssignLayout(w, s, k);
    RunSlice(w, s.log, s.sched[s.index].id, k, s.fork);
  }

  lemma {:induction false} AssignBalanced(w: seq<Job>, s: State, k: nat)
    requires Layout(w, s) && Balanced(w, s) && s.index < s.fork && k <= s.sched[s.index].exec
    ensures Layout(w, Assigned(s, k)) && Balanced(w, Assigned(s, k))
  {
    AssignLayout(w, s, k);
    LeftAfterRun(w, s.log, s.sched[s.index].id, k, s.fork);
    assert forall i :: 0 <= i < |w| && i != s.index ==> s.sched[i].id != s.sched[s.index].id;
  }

  lemma {:induction false} AssignReady(w: seq<Job>, s: State, k: nat)
    requires Layout(w, s) && Balanced(w, s) && Ready(w, s) && s.index < s.fork && k <= s.sched[s.index].exec
    ensures Layout(w, Assigned(s, k)) && Ready(w, Assigned(s, k))
  {
    var p, r := s.sched[s.index].id, Assigned(s, k);
    AssignLayout(w, s, k);
    LeftAfterRun(w, s.log, p, k, s.fork);
    assert forall i :: 0 <= i < |w| ==> r.sched[i].id == s.sched[i].id;
    assert r.index > s.index <==> Left(w, Expand(s.log), p) == k;
    forall i | 0 <= i < |w| ensures Retired(w, r.log, r.sched[i].id) <==> i < r.index {
      assert i != s.index ==> s.sched[i].id != p;
    }
    SameIds(s.sched, r.sched, s.fork);
  }

  lemma {:induction false} SameIds(sched: seq<Entry>, sched': seq<Entry>, a: nat)
    requires |sched| == |sched'| && forall i :: 0 <= i < |sched| ==> sched[i].id == sched'[i].id
    ensures forall p :: Holds(sched, p, a) ==> Holds(sched', p, a)
  {
    forall p | Holds(sched, p, a) ensures Holds(sched', p, a) {
      var i :| 0 <= i < a && sched[i].id == p;
      assert sched'[i].id == p;
    }
  }

  lemma {:induction false} AssignInv(w: seq<Job>, s: State, k: nat)
    requires Inv(w, s) && s.index < s.fork && k == SliceLength(w, s)
    ensures k <= s.sched[s.index].exec && Inv(w, Assigned(s, k))
  {
    SliceFits(w, s);
    AssignBooks(w, s, k);
    AssignBalanced(w, s, k);
    AssignReady(w, s, k);
  }

  lemma {:induction false} AssignProgress(w: seq<Job>, s: State, k: nat)
    requires Inv(w, s) && s.index < s.fork && k == SliceLength(w, s) && k <= s.sched[s.index].exec
    ensures Progress(w, Assigned(s, k)) > s.index + s.fork
  {
  }

  /** The process at `index` is started: its flag is cleared. */
  ghost function Started(s: State): State
    requires s.index < |s.sched|
  {
    s.(sched := s.sched[s.index := s.sched[s.index].(flag := false)])
  }

  /** Starting a process changes its flag and nothing else, and so not what a slice leads to. */
  lemma {:induction false} StartKeeps(w: seq<Job>, s: State, k: nat)
    requires Layout(w, s) && s.index < s.fork && k <= s.sched[s.index].exec
    ensures Layout(w, Started(s)) && SliceLength(w, Started(s)) == SliceLength(w, s)
    ensures Assigned(Started(s), k) == Assigned(s, k)
  {
  }

  /** After a slice the flags are right again, because a slice of a process with work left is positive. */
  lemma {:induction false} AssignFlagged(w: seq<Job>, s: State, k: nat)
    requires Inv(w, s) && s.index < s.fork && k == SliceLength(w, s) <= s.sched[s.index].exec
    requires s.fork < |w| ==> w[s.fork].ready > s.clock
    ensures Layout(w, Assigned(s, k)) && Flagged(w, Assigned(s, k))
  {
    AssignLayout(w, s, k);
    FeasibleBounds(w, Expand(s.log));
  }

  // ---------- The decisions, read off the log ----------

  /**
   * What comes after `log`: a slice of somebody forked and not retired, with everybody who is due
   * forked, which ends with that process or with the next arrival; or, when everybody forked is
   * retired, a gap until the next arrival.
   */
  ghost predicate Cut(w: seq<Job>, log: seq<Slice>, e: Slice) {
    var start := |Expand(log)|;
    && e.forked <= |w| && (e.forked < |w| ==> w[e.forked].ready > start)
    && if e.pid == IDLE then
         && e.forked < |w| && w[e.forked].ready == start + e.len
         && (forall q :: 0 <= q < e.forked ==> Retired(w, log, q))
       else
         && 0 <= e.pid < e.forked && !Retired(w, log, e.pid)
         && (|| e.len == Left(w, Expand(log), e.pid)
             || (e.forked < |w| && e.len < Left(w, Expand(log), e.pid) && w[e.forked].ready == start + e.len))
  }

  lemma {:induction false} SliceIsCut(w: seq<Job>, s: State)
    requires Layout(w, s) && Balanced(w, s) && Ready(w, s) && s.index < s.fork && s.clock == |Expand(s.log)|
    requires s.fork < |w| ==> w[s.fork].ready > s.clock
    requires 0 <= SliceLength(w, s)
    ensures Cut(w, s.log, Slice(s.sched[s.index].id, SliceLength(w, s), s.fork))
  {
    assert !Retired(w, s.log, s.sched[s.index].id);
  }

  lemma {:induction false} GapIsCut(w: seq<Job>, s: State)
    requires Layout(w, s) && Ready(w, s) && s.index == s.fork < |w| && s.clock == |Expand(s.log)| < w[s.fork].ready
    ensures Cut(w, s.log, Slice(IDLE, w[s.fork].ready - s.clock, s.fork))
  {
    forall q | 0 <= q < s.fork ensures Retired(w, s.log, q) {
      assert Holds(s.sched, q, s.fork);
    }
  }

  // ---------- Sorting part of the array ----------

  /** A permutation of the entries from lo up to `fork`, with everything else where it was. */
  ghost predicate Rearranged(s: State, sched: seq<Entry>, lo: nat) {
    && lo <= s.fork <= |s.sched| == |sched|
    && sched[..lo] == s.sched[..lo] && sched[s.fork..] == s.sched[s.fork..]
    && multiset(sched[lo..s.fork]) == multiset(s.sched[lo..s.fork])
  }

  /** Where entry i of a permuted segment came from. */
  lemma {:induction false} SegmentSource(before: seq<Entry>, after: seq<Entry>, lo: nat, hi: nat, i: nat) returns (j: nat)
    requires lo <= hi <= |before| == |after| && multiset(after[lo..hi]) == multiset(before[lo..hi]) && lo <= i < hi
    ensures lo <= j < hi && after[i] == before[j]
  {
    SameElements(after[lo..hi], before[lo..hi]);
    assert after[lo..hi][i - lo] in before[lo..hi];
    var k :| 0 <= k < hi - lo && before[lo..hi][k] == after[i];
    j := lo + k;
  }

  /** Every entry after the rearrangement was there before, in the same part of the array. */
  lemma {:induction false} Source(s: State, sched: seq<Entry>, lo: nat, i: nat) returns (j: nat)
    requires Rearranged(s, sched, lo) && i < |sched|
    ensures j < |sched| && sched[i] == s.sched[j]
    ensures if lo <= i < s.fork then lo <= j < s.fork else j == i
  {
    if lo <= i < s.fork {
      j := SegmentSource(s.sched, sched, lo, s.fork, i);
    } else {
      j := i;
      if i < lo {
        assert sched[i] == sched[..lo][i];
      } else {
        assert sched[i] == sched[s.fork..][i - s.fork];
      }
    }
  }

  /** Entries keep different ids under any permutation. */
  lemma {:induction false} DistinctIds(before: seq<Entry>, after: seq<Entry>)
    requires multiset(after) == multiset(before)
    requires forall i, j :: 0 <= i < j < |before| ==> before[i].id != before[j].id
    ensures forall i, j :: 0 <= i < j < |after| ==> after[i].id != after[j].id
  {
    SameElements(after, before);
    DistinctPermutation(before, after);
    forall i, j | 0 <= i < j < |after| ensures after[i].id != after[j].id {
      assert after[i] in before && after[j] in before;
    }
  }

  lemma {:induction false} RearrangedIds(s: State, sched: seq<Entry>, lo: nat)
    requires Rearranged(s, sched, lo)
    requires forall i, j :: 0 <= i < j < |s.sched| ==> s.sched[i].id != s.sched[j].id
    ensures forall i, j :: 0 <= i < j < |sched| ==> sched[i].id != sched[j].id
  {
    assert sched == sched[..lo] + sched[lo..s.fork] + sched[s.fork..];
    assert s.sched == s.sched[..lo] + s.sched[lo..s.fork] + s.sched[s.fork..];
    DistinctIds(s.sched, sched);
  }

  /** Sorting may start at `index` only while the entry there has not been started. */
  ghost predicate Sortable(w: seq<Job>, s: State, lo: nat)
    requires Layout(w, s)
  {
    && s.index < s.fork
    && (lo == s.index + 1
        || (lo == s.index && s.sched[lo].flag && s.sched[lo].exec == w[s.sched[lo].id].exec))
  }

  lemma {:induction false} SortLayout(w: seq<Job>, s: State, sched: seq<Entry>, lo: nat)
    requires Layout(w, s) && Rearranged(s, sched, lo) && Sortable(w, s, lo)
    ensures Layout(w, s.(sched := sched))
    ensures lo == s.index ==> sched[lo].flag && sched[lo].exec == w[sched[lo].id].exec
  {
    RearrangedIds(s, sched, lo);
    forall i | 0 <= i < |sched|
      ensures i < s.fork ==> sched[i].id < s.fork && sched[i].ready == w[sched[i].id].ready
      ensures i >= s.fork ==> sched[i] == Entry(i, w[i].ready, w[i].exec, true)
      ensures lo <= i < s.fork ==> sched[i].flag && sched[i].exec == w[sched[i].id].exec
      ensures i < s.index ==> sched[i].exec == 0
    {
      var j := Source(s, sched, lo, i);
    }
  }

  lemma {:induction false} SortHolds(s: State, sched: seq<Entry>, lo: nat, p: int)
    requires Rearranged(s, sched, lo) && Holds(s.sched, p, s.fork)
    ensures Holds(sched, p, s.fork)
  {
    var j :| 0 <= j < s.fork && s.sched[j].id == p;
    if j < lo {
      assert sched[j] == sched[..lo][j];
    } else {
      var i := SegmentSource(sched, s.sched, lo, s.fork, j);
      assert sched[i].id == p;
    }
  }

  lemma {:induction false} SortInv(w: seq<Job>, s: State, sched: seq<Entry>, lo: nat)
    requires Inv(w, s) && Rearranged(s, sched, lo) && Sortable(w, s, lo)
    ensures Inv(w, s.(sched := sched))
    ensures lo == s.index ==> sched[lo].flag && sched[lo].exec == w[sched[lo].id].exec
  {
    SortLayout(w, s, sched, lo);
    forall i | 0 <= i < |w|
      ensures sched[i].exec == Left(w, Expand(s.log), sched[i].id)
      ensures Retired(w, s.log, sched[i].id) <==> i < s.index
    {
      var j := Source(s, sched, lo, i);
    }
    forall p | 0 <= p < s.fork ensures Holds(sched, p, s.fork) {
      SortHolds(s, sched, lo, p);
    }
  }

  // ---------- The shared procedures ----------

  /** waitLoop: count the clock up, one unit at a time, while nobody is ready. */
  method WaitLoop(scheduler: array<Entry>, nextForFork: nat, index: nat, clock: nat) returns (clock': nat)
    requires nextForFork <= scheduler.Length
    ensures clock' == if nextForFork < scheduler.Length && index == nextForFork
                      then Max(clock, scheduler[nextForFork].ready) else clock
  {
    clock' := clock;
    while nextForFork < scheduler.Length && index == nextForFork && clock' < scheduler[nextForFork].ready
      invariant clock <= clock'
      invariant clock' > clock ==>
                  nextForFork < scheduler.Length && index == nextForFork && clock' <= scheduler[nextForFork].ready
    {
      clock' := clock' + 1;
    }
  }

  /** executeFork: admit everybody who is ready now. */
  method ExecuteFork(scheduler: array<Entry>, nextForFork: nat, clock: nat) returns (nextForFork': nat)
    requires nextForFork <= scheduler.Length
    ensures nextForFork <= nextForFork' <= scheduler.Length
    ensures forall i :: nextForFork <= i < nextForFork' ==> scheduler[i].ready == clock
    ensures nextForFork' < scheduler.Length ==> scheduler[nextForFork'].ready != clock
  {
    nextForFork' := nextForFork;
    while nextForFork' < scheduler.Length && clock == scheduler[nextForFork'].ready
      invariant nextForFork <= nextForFork' <= scheduler.Length
      invariant forall i :: nextForFork <= i < nextForFork' ==> scheduler[i].ready == clock
    {
      nextForFork' := nextForFork' + 1;
    }
  }

  /** decideTime: up to the next arrival, or to the end. */
  function DecideTime(scheduler: array<Entry>, nextForFork: nat, index: nat, clock: nat): int
    requires nextForFork <= scheduler.Length && index < scheduler.Length
    reads scheduler
  {
    if nextForFork == scheduler.Length then scheduler[index].exec
    else
      var time1 := scheduler[nextForFork].ready - clock;
      var time2 := scheduler[index].exec;
      if time1 < time2 then time1 else time2
  }

  /**
   * What waiting and forking lead to: the array is untouched; either no time has passed, or nobody
   * was ready and it is now the next ready time.
   */
  ghost predicate Arrived(w: seq<Job>, s: State, s': State) {
    && s'.sched == s.sched && s'.index == s.index < s'.fork <= |w| && s.fork <= s'.fork
    && ((s'.log == s.log && s'.clock == s.clock)
        || (s.index == s.fork && s'.clock == w[s.index].ready > s.clock
            && s'.log == s.log + [Slice(IDLE, s'.clock - s.clock, s.fork)]
            && Cut(w, s.log, Slice(IDLE, s'.clock - s.clock, s.fork))))
  }

  lemma {:induction false} HasArrived(w: seq<Job>, s: State, f: nat)
    requires Inv(w, s) && s.index < f <= |w| && s.fork <= f
    ensures Arrived(w, s, AfterWait(w, s).(fork := f))
  {
    if s.index == s.fork < |w| && s.clock < w[s.fork].ready {
      GapIsCut(w, s);
    }
  }

  /** waitLoop, with the idle gap in the log. */
  method Wait(w: seq<Job>, scheduler: array<Entry>, nextForFork: nat, index: nat, clock: nat, log: seq<Slice>,
              ghost s: State) returns (clock': nat, log': seq<Slice>)
    requires Layout(w, s) && s == State(scheduler[..], index, nextForFork, clock, log)
    ensures AfterWait(w, s) == State(scheduler[..], index, nextForFork, clock', log')
  {
    assert nextForFork < |w| ==> scheduler[nextForFork] == s.sched[nextForFork];
    clock' := WaitLoop(scheduler, nextForFork, index, clock);
    log' := if clock' > clock then log + [Slice(IDLE, clock' - clock, nextForFork)] else log;
  }

  /** Waiting and forking together: afterwards somebody is ready, and everybody who is due is admitted. */
  method Arrivals(w: seq<Job>, scheduler: array<Entry>, nextForFork: nat, index: nat, clock: nat, log: seq<Slice>,
                  ghost s: State)
    returns (nextForFork': nat, clock': nat, log': seq<Slice>, ghost s': State)
    requires Inv(w, s) && Flagged(w, s) && s == State(scheduler[..], index, nextForFork, clock, log) && index < |w|
    ensures Inv(w, s') && Flagged(w, s') && s' == State(scheduler[..], index, nextForFork', clock', log')
    ensures index < nextForFork' && (nextForFork' < |w| ==> w[nextForFork'].ready > clock')
    ensures Progress(w, s) <= index + nextForFork' && Arrived(w, s, s')
  {
    clock', log' := Wait(w, scheduler, nextForFork, index, clock, log, s);
    s' := AfterWait(w, s);
    AfterWaitInv(w, s);
    nextForFork' := ExecuteFork(scheduler, nextForFork, clock');
    ForkInv(w, s', nextForFork');
    ForkFlagged(w, s', nextForFork');
    SomebodyReady(w, s, s', nextForFork');
    HasArrived(w, s, nextForFork');
    s' := s'.(fork := nextForFork');
  }

  /** assign: hand out one slice; the entry keeps its place until nothing is left of it. */
  method Assign(w: seq<Job>, scheduler: array<Entry>, nextForFork: nat, index: nat, clock: nat, ghost s: State)
    returns (index': nat, clock': nat, slice: Slice)
    requires s == State(scheduler[..], index, nextForFork, clock, s.log) && Layout(w, s)
    requires index < nextForFork && !scheduler[index].flag && (nextForFork < |w| ==> w[nextForFork].ready >= clock)
    modifies scheduler
    ensures 0 <= SliceLength(w, s) <= s.sched[index].exec
    ensures Assigned(s, SliceLength(w, s)) == State(scheduler[..], index', nextForFork, clock', s.log + [slice])
    ensures slice == Slice(s.sched[index].id, SliceLength(w, s), nextForFork)
  {
    var time := DecideTime(scheduler, nextForFork, index, clock);
    clock' := clock + time;
    slice := Slice(scheduler[index].id, time, nextForFork);
    scheduler[index] := scheduler[index].(exec := scheduler[index].exec - time);
    index' := if scheduler[index].exec == 0 then index + 1 else index;
  }

  /** The array of processes, in ready order. */
  method Load(w: seq<Job>) returns (scheduler: array<Entry>, ghost s: State)
    requires ByReady(w)
    ensures fresh(scheduler) && s == State(scheduler[..], 0, 0, 0, []) && s == Initial(w)
    ensures Inv(w, s) && Flagged(w, s)
  {
    scheduler := new Entry[|w|](i requires 0 <= i < |w| => Entry(i, w[i].ready, w[i].exec, true));
    s := Initial(w);
    InitialInv(w);
    assert scheduler[..] == s.sched;
  }

  /** Clear the flag of a process that has not been started. */
  method Start(scheduler: array<Entry>, index: nat, ghost s: State)
    requires s.sched == scheduler[..] && s.index == index < scheduler.Length
    modifies scheduler
    ensures scheduler[..] == Started(s).sched
  {
    if scheduler[index].flag {
      scheduler[index] := scheduler[index].(flag := false);
    }
  }

  /** What starting and serving the entry at `index` leads to. */
  lemma {:induction false} ServeInv(w: seq<Job>, s: State)
    requires Inv(w, s) && Flagged(w, s) && s.index < s.fork && (s.fork < |w| ==> w[s.fork].ready > s.clock)
    ensures 0 <= SliceLength(w, s) <= s.sched[s.index].exec
    ensures var s' := Assigned(s, SliceLength(w, s));
            && Inv(w, s') && Flagged(w, s') && Progress(w, s') > s.index + s.fork
  {
    var k := SliceLength(w, s);
    AssignInv(w, s, k);
    AssignFlagged(w, s, k);
    AssignProgress(w, s, k);
  }

  /** Start the process at `index` if it has not been, and hand it a slice. */
  method Serve(w: seq<Job>, scheduler: array<Entry>, nextForFork: nat, index: nat, clock: nat, ghost s: State)
    returns (index': nat, clock': nat, slice: Slice, ghost s': State)
    requires Inv(w, s) && Flagged(w, s) && s == State(scheduler[..], index, nextForFork, clock, s.log)
    requires index < nextForFork && (nextForFork < |w| ==> w[nextForFork].ready > clock)
    modifies scheduler
    ensures 0 <= SliceLength(w, s) <= s.sched[s.index].exec && s' == Assigned(s, SliceLength(w, s))
    ensures slice == Slice(s.sched[index].id, SliceLength(w, s), nextForFork) && Cut(w, s.log, slice)
    ensures Inv(w, s') && Flagged(w, s') && Progress(w, s') > index + nextForFork
    ensures s' == State(scheduler[..], index', nextForFork, clock', s.log + [slice])
  {
    ServeInv(w, s);
    SliceIsCut(w, s);
    StartKeeps(w, s, SliceLength(w, s));
    Start(scheduler, index, s);
    index', clock', slice := Assign(w, scheduler, nextForFork, index, clock, Started(s));
    s' := Assigned(s, SliceLength(w, s));
  }

  lemma {:induction false} FinalState(input: seq<Job>, w: seq<Job>, s: State)
    requires Inv(w, s) && s.index == |w| && multiset(w) == multiset(input)
    ensures Complete(input, w, s.log)
  {
    forall p | 0 <= p < |w| ensures Retired(w, s.log, p) {
      assert Holds(s.sched, p, s.fork);
    }
    Completes(input, w, s.log);
  }
}
