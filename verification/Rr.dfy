/** The event-driven round-robin scheduler (prj1/rr.c:113-188). */
module Rr {
  import opened Jobs
  import opened Traces
  import opened Schedules
  import opened RoundRobin
  import opened ReadyRing

  // ---------- The loop invariant, on values ----------

  /** The jumps made so far agree with the unit-by-unit policy. */
  ghost predicate Tracks(w: seq<Job>, s: State, log: seq<Slice>)
    requires Shape(w, s)
  {
    At(w, s.clock) == Admit(w, s) && Ticks(w, s.clock) == Expand(log)
  }

  /** The log is a schedule, and the remaining times are what it leaves. */
  ghost predicate Books(w: seq<Job>, s: State, log: seq<Slice>)
    requires Shape(w, s)
  {
    && ByReady(w)
    && s.clock == |Expand(log)| <= BusyUntil(w, |w|)
    && Admitted(w, s.next, s.clock) && Forked(log) <= s.next
    && Schedule(w, log)
    && (forall p :: 0 <= p < |w| ==> s.rem[p] == Left(w, Expand(log), p))
  }

  /** Whoever is in the queue, or not there yet, has still to be handed its last slice. */
  ghost predicate Live(w: seq<Job>, s: State, log: seq<Slice>)
    requires Shape(w, s)
  {
    && (forall i :: 0 <= i < |s.queue| ==>
          !Retired(w, log, s.queue[i]) && (s.rem[s.queue[i]] > 0 || w[s.queue[i]].exec == 0))
    && (forall p :: s.next <= p < |w| ==> !Retired(w, log, p))
  }

  ghost predicate Inv(w: seq<Job>, s: State, log: seq<Slice>) {
    Shape(w, s) && Accounted(w, s) && Books(w, s, log) && Live(w, s, log) && Tracks(w, s, log)
  }

  /** Bounds the iterations so far; it grows in every iteration. */
  ghost function Progress(w: seq<Job>, s: State): nat { s.next + Sum(s.turns) + Due(w, s.next, s.clock) }

  lemma {:induction false} InitialInv(w: seq<Job>)
    requires ByReady(w)
    ensures Inv(w, Initial(w), [])
  {
  }

  lemma {:induction false} JoinLive(w: seq<Job>, s: State, log: seq<Slice>)
    requires Shape(w, s) && Accounted(w, s) && Live(w, s, log) && s.next < |w|
    ensures Shape(w, Joined(s)) && Live(w, Joined(s), log)
  {
  }

  lemma {:induction false} JoinBooks(w: seq<Job>, s: State, log: seq<Slice>)
    requires Shape(w, s) && Books(w, s, log) && s.next < |w| && w[s.next].ready == s.clock
    ensures Shape(w, Joined(s)) && Books(w, Joined(s), log)
  {
  }

  lemma {:induction false} JoinTracks(w: seq<Job>, s: State, log: seq<Slice>)
    requires Shape(w, s) && Tracks(w, s, log) && s.next < |w| && w[s.next].ready == s.clock
    ensures Shape(w, Joined(s)) && Tracks(w, Joined(s), log)
  {
    assert Admit(w, s) == Admit(w, Joined(s));
  }

  lemma {:induction false} JoinStep(w: seq<Job>, s: State, log: seq<Slice>)
    requires Inv(w, s, log) && s.next < |w| && w[s.next].ready == s.clock
    ensures Inv(w, Joined(s), log)
  {
    JoinAccounted(w, s);
    JoinBooks(w, s, log);
    JoinLive(w, s, log);
    JoinTracks(w, s, log);
  }

  /** Idling until the next arrival. */
  ghost function Idled(w: seq<Job>, s: State): State
    requires s.next < |w|
  {
    s.(clock := w[s.next].ready)
  }

  /** Nobody is in the queue, so nobody who has been admitted has work left. */
  lemma {:induction false} NoneLeft(w: seq<Job>, s: State, log: seq<Slice>)
    requires Shape(w, s) && Accounted(w, s) && Books(w, s, log) && s.queue == []
    ensures forall q :: 0 <= q < s.next ==> Left(w, Expand(log), q) == 0
  {
    forall q | 0 <= q < s.next ensures Left(w, Expand(log), q) == 0 {
      assert q !in s.queue;
    }
  }

  ghost function IdledLog(w: seq<Job>, s: State, log: seq<Slice>): seq<Slice>
    requires s.next < |w| && s.clock <= w[s.next].ready
  {
    log + [Slice(IDLE, w[s.next].ready - s.clock, s.next)]
  }

  lemma {:induction false} IdleBooks(w: seq<Job>, s: State, log: seq<Slice>)
    requires Shape(w, s) && Books(w, s, log) && s.next < |w|
    requires forall q :: 0 <= q < s.next ==> Left(w, Expand(log), q) == 0
    ensures s.clock <= w[s.next].ready && Books(w, Idled(w, s), IdledLog(w, s, log))
  {
    var k := w[s.next].ready - s.clock;
    IdleSlice(w, log, s.next, k);
    LeftAfterIdle(w, log, k, s.next);
  }

  lemma {:induction false} IdleLive(w: seq<Job>, s: State, log: seq<Slice>)
    requires Shape(w, s) && Live(w, s, log) && s.queue == [] && s.next < |w| && s.clock <= w[s.next].ready
    ensures Live(w, Idled(w, s), IdledLog(w, s, log))
  {
    LeftAfterIdle(w, log, w[s.next].ready - s.clock, s.next);
  }

  lemma {:induction false} IdleAccounts(w: seq<Job>, s: State)
    requires Shape(w, s) && Accounted(w, s) && s.next < |w|
    ensures Shape(w, Idled(w, s)) && Accounted(w, Idled(w, s))
  {
  }

  lemma {:induction false} IdleTracks(w: seq<Job>, s: State, log: seq<Slice>)
    requires Shape(w, s) && Tracks(w, s, log) && s.queue == [] && s.next < |w| && s.clock <= w[s.next].ready
    ensures Tracks(w, Idled(w, s), IdledLog(w, s, log))
  {
    var k, u := w[s.next].ready - s.clock, w[s.next].ready;
    IdleJump(w, s, k, u);
    ExpandSnoc(log, Slice(IDLE, k, s.next));
  }

  lemma {:induction false} IdleStep(w: seq<Job>, s: State, log: seq<Slice>)
    requires Inv(w, s, log) && s.queue == [] && s.next < |w|
    ensures s.clock <= w[s.next].ready && Inv(w, Idled(w, s), IdledLog(w, s, log))
  {
    IdleAccounts(w, s);
    NoneLeft(w, s, log);
    IdleBooks(w, s, log);
    IdleLive(w, s, log);
    IdleTracks(w, s, log);
  }

  /** How long the current job is let run: to the next arrival, the end of its turn, or its own end. */
  ghost predicate Jump(w: seq<Job>, s: State, k: nat)
    requires Shape(w, s)
  {
    && s.queue != [] && 1 <= k
    && k <= s.rem[s.queue[0]] && k <= s.remain && QuietUntil(w, s, s.clock + k)
  }

  lemma {:induction false} RunBooks(w: seq<Job>, s: State, log: seq<Slice>, k: nat)
    requires Shape(w, s) && Books(w, s, log) && Live(w, s, log) && Jump(w, s, k)
    ensures Books(w, RunFront(w, s, k), log + [Slice(s.queue[0], k, s.next)])
  {
    var p, r := s.queue[0], RunFront(w, s, k);
    WithinBacklog(w, Expand(log), s.next, p);
    StillAdmitted(w, s.next, s.clock, r.clock);
    RunSlice(w, log, p, k, s.next);
  }

  lemma {:induction false} RunLive(w: seq<Job>, s: State, log: seq<Slice>, k: nat)
    requires Shape(w, s) && Accounted(w, s) && Books(w, s, log) && Live(w, s, log) && Jump(w, s, k)
    ensures Live(w, RunFront(w, s, k), log + [Slice(s.queue[0], k, s.next)])
  {
    var p, r := s.queue[0], RunFront(w, s, k);
    LeftAfterRun(w, log, p, k, s.next);
    forall i | 0 <= i < |r.queue| ensures r.queue[i] in s.queue && (r.queue[i] == p ==> s.rem[p] > k) {
      if s.rem[p] == k || (s.remain == k && i < |s.queue| - 1) {
        assert r.queue[i] == s.queue[i + 1];
      }
    }
  }

  lemma {:induction false} RunTracks(w: seq<Job>, s: State, log: seq<Slice>, k: nat)
    requires Shape(w, s) && Tracks(w, s, log) && Jump(w, s, k)
    ensures Tracks(w, RunFront(w, s, k), log + [Slice(s.queue[0], k, s.next)])
  {
    var r := RunFront(w, s, k);
    var u := r.clock;
    RunJump(w, s, k, r, u);
    ExpandSnoc(log, Slice(s.queue[0], k, s.next));
    assert At(w, u) == Admit(w, r);
  }

  lemma {:induction false} RunStep(w: seq<Job>, s: State, log: seq<Slice>, k: nat)
    requires Inv(w, s, log) && Jump(w, s, k)
    ensures Inv(w, RunFront(w, s, k), log + [Slice(s.queue[0], k, s.next)])
  {
    RunAccounted(w, s, k);
    RunBooks(w, s, log, k);
    RunLive(w, s, log, k);
    RunTracks(w, s, log, k);
  }

  lemma {:induction false} RunProgress(w: seq<Job>, s: State, k: nat)
    requires Shape(w, s) && Jump(w, s, k)
    requires k == s.rem[s.queue[0]] || k == s.remain || (s.next < |w| && w[s.next].ready == s.clock + k)
    ensures Progress(w, RunFront(w, s, k)) > s.next + Sum(s.turns)
  {
    SumUpdate(s.turns, s.queue[0], s.turns[s.queue[0]] + 1);
  }

  /** Everything one positive slice of the current job achieves. */
  lemma {:induction false} SliceStep(w: seq<Job>, s: State, log: seq<Slice>, k: nat)
    requires Inv(w, s, log) && Jump(w, s, k)
    requires k == s.rem[s.queue[0]] || k == s.remain || (s.next < |w| && w[s.next].ready == s.clock + k)
    ensures Inv(w, RunFront(w, s, k), log + [Slice(s.queue[0], k, s.next)])
    ensures Progress(w, RunFront(w, s, k)) > s.next + Sum(s.turns)
  {
    RunStep(w, s, log, k);
    RunProgress(w, s, k);
  }

  lemma {:induction false} ProgressBound(w: seq<Job>, s: State)
    requires Shape(w, s) && Accounted(w, s)
    ensures Progress(w, s) <= |w| + Sum(TurnsNeeded(w))
  {
    TurnsBounded(w, s);
  }

  /** Everybody has left the queue. */
  lemma {:induction false} FinalState(input: seq<Job>, w: seq<Job>, s: State, log: seq<Slice>)
    requires Inv(w, s, log) && s.queue == [] && s.next == |w| && multiset(w) == multiset(input)
    ensures Complete(input, w, log) && Positive(w)
  {
    forall p | 0 <= p < |w| ensures Retired(w, log, p) && w[p].exec > 0 {
      assert p !in s.queue && s.rem[p] == Left(w, Expand(log), p) == 0;
      RanOccurs(log, p);
    }
    Completes(input, w, log);
  }

  // ---------- The scheduler ----------

  /** The remaining times, and an empty ring (lines 126-133). */
  method Load(w: seq<Job>) returns (remainTime: array<nat>, ring: Ring, ghost s: State)
    requires ByReady(w)
    ensures fresh(remainTime) && fresh(ring) && ring.Valid() && fresh(ring.footprint)
    ensures s == State(0, ring.queue, QUANTUM, remainTime[..], 0, s.turns) && s == Initial(w)
  {
    remainTime := new nat[|w|](i requires 0 <= i < |w| => w[i].exec);
    ring := new Ring();
    s := Initial(w);
    assert remainTime[..] == s.rem;
  }

  /** run_job: a slice of no length is not handed out at all. */
  function RunJob(log: seq<Slice>, process: nat, time: nat, next: nat): seq<Slice> {
    if time == 0 then log else log + [Slice(process, time, next)]
  }

  /** The slice decision of lines 150-183. */
  ghost function SliceLength(w: seq<Job>, s: State): int
    requires Shape(w, s) && s.queue != []
  {
    var left := s.rem[s.queue[0]];
    if s.next < |w| && w[s.next].ready - s.clock < s.remain && w[s.next].ready - s.clock < left then
      w[s.next].ready - s.clock
    else if s.remain < left then s.remain
    else left
  }

  /** The state after the slice; a slice of no length changes nothing. */
  ghost function AfterSlice(w: seq<Job>, s: State): State
    requires Shape(w, s) && s.queue != []
  {
    var k := SliceLength(w, s);
    if k <= 0 then s else RunFront(w, s, k)
  }

  /**
   * The current job's part of an iteration (lines 150-184): run it to the next arrival, to the end
   * of its turn, or to its end. `blocked` reports a wait for a child that was handed nothing.
   */
  method RunCurrent(w: seq<Job>, ring: Ring, remainTime: array<nat>, next: nat, curTime: nat, remain: nat,
                    log: seq<Slice>, ghost s: State)
    returns (log': seq<Slice>, curTime': nat, remain': nat, died: bool, blocked: bool)
    requires ring.Valid() && ring.cur != null && Shape(w, s)
    requires s == State(curTime, ring.queue, remain, remainTime[..], next, s.turns)
    requires next < |w| ==> w[next].ready >= curTime
    modifies ring, ring.footprint, remainTime
    ensures ring.Valid() && ring.footprint == old(ring.footprint)
    ensures blocked <==> s.rem[s.queue[0]] == 0
    ensures !blocked ==> log' == RunJob(log, s.queue[0], SliceLength(w, s), s.next)
    ensures blocked ==> log' == log && ring.queue == s.queue
    ensures !blocked ==>
              var r := AfterSlice(w, s);
              && curTime' == r.clock && ring.queue == r.queue && remain' == r.remain && remainTime[..] == r.rem
              && next == r.next && |r.queue| == |s.queue| - if died then 1 else 0
  {
    var p := ring.Front();
    var left := remainTime[p];
    log', curTime', remain', died, blocked := log, curTime, remain, false, false;
    if next < |w| && w[next].ready - curTime < remain && w[next].ready - curTime < left {
      var t := w[next].ready - curTime;
      log' := RunJob(log, p, t, next);
      remain' := remain - t;
      remainTime[p] := left - t;
      curTime' := w[next].ready;
    } else if remain < left {
      log' := RunJob(log, p, remain, next);
      remainTime[p] := left - remain;
      curTime' := curTime + remain;
      remain' := QUANTUM;
      ring.Advance();
    } else if left == 0 {
      blocked := true;
    } else {
      log' := RunJob(log, p, left, next);
      remainTime[p] := 0;  // the record of a finished process is not read again
      curTime' := curTime + left;
      remain' := QUANTUM;
      ring.Remove();
      died := true;
    }
  }

  /** What the slice does to the invariant, and that every iteration makes progress. */
  lemma {:induction false} AfterSliceInv(w: seq<Job>, s: State, log: seq<Slice>)
    requires Inv(w, s, log) && s.queue != [] && s.rem[s.queue[0]] > 0
    ensures SliceLength(w, s) >= 0
    ensures Inv(w, AfterSlice(w, s), RunJob(log, s.queue[0], SliceLength(w, s), s.next))
    ensures Progress(w, AfterSlice(w, s)) > s.next + Sum(s.turns)
  {
    var k := SliceLength(w, s);
    if k > 0 {
      SliceStep(w, s, log, k);
    }
  }

  /** The state after lines 137-142: at most one process joins per iteration. */
  ghost function AfterJoin(w: seq<Job>, s: State): State {
    if s.next < |w| && w[s.next].ready == s.clock then Joined(s) else s
  }

  lemma {:induction false} AfterJoinInv(w: seq<Job>, s: State, log: seq<Slice>)
    requires Inv(w, s, log)
    ensures Inv(w, AfterJoin(w, s), log)
    ensures Progress(w, s) == AfterJoin(w, s).next + Sum(AfterJoin(w, s).turns)
  {
    if s.next < |w| && w[s.next].ready == s.clock {
      JoinStep(w, s, log);
    }
  }

  method JoinIfDue(w: seq<Job>, ring: Ring, next: nat, curTime: nat, ghost s: State)
    returns (next': nat, ghost added: set<Node>)
    requires ring.Valid() && s.queue == ring.queue && s.clock == curTime && s.next == next
    modifies ring, ring.footprint
    ensures ring.Valid() && fresh(added) && ring.footprint == old(ring.footprint) + added
    ensures AfterJoin(w, s) == s.(queue := ring.queue, next := next') && next <= next' <= next + 1
    ensures |ring.queue| - |s.queue| == next' - next
  {
    next', added := next, {};
    if next < |w| && w[next].ready == curTime {
      ghost var before := ring.footprint;
      ring.Add(next);
      added := ring.footprint - before;
      next' := next + 1;
    }
  }

  /** Whether an iteration comes to wait for a child that was handed nothing. */
  ghost predicate Blocks(w: seq<Job>, s: State)
    requires Shape(w, s)
  {
    var j := AfterJoin(w, s);
    j.queue != [] && j.rem[j.queue[0]] == 0
  }

  /** One whole iteration, as a function. */
  ghost function Iteration(w: seq<Job>, s: State): State
    requires Shape(w, s)
  {
    var j := AfterJoin(w, s);
    if j.queue != [] then AfterSlice(w, j)
    else if j.next < |w| then Idled(w, j)
    else j
  }

  ghost function IterationLog(w: seq<Job>, s: State, log: seq<Slice>): seq<Slice>
    requires Shape(w, s)
  {
    var j := AfterJoin(w, s);
    if j.queue != [] then
      if SliceLength(w, j) > 0 then RunJob(log, j.queue[0], SliceLength(w, j), j.next) else log
    else if j.next < |w| && j.clock <= w[j.next].ready then IdledLog(w, j, log)
    else log
  }

  // ---------- What ends a slice ----------

  /**
   * A slice or gap e after `log` is not empty. A gap lasts until an arrival; a slice lasts until an
   * arrival, the end of the process or the end of its turn, and so no longer than 500 units.
   */
  ghost predicate EndsAtEvent(w: seq<Job>, log: seq<Slice>, e: Slice) {
    var start := |Expand(log)|;
    && e.len > 0 && (e.pid != IDLE ==> e.len <= 500)
    && (|| (e.forked < |w| && w[e.forked].ready == start + e.len)
        || (0 <= e.pid < |w| && (e.len == Left(w, Expand(log), e.pid) || At(w, start + e.len).remain == 500)))
  }

  ghost predicate Eventful(w: seq<Job>, log: seq<Slice>) {
    forall i {:trigger log[..i]} :: 0 <= i < |log| ==> EndsAtEvent(w, log[..i], log[i])
  }

  lemma {:induction false} EventfulSnoc(w: seq<Job>, log: seq<Slice>, e: Slice)
    requires Eventful(w, log) && EndsAtEvent(w, log, e)
    ensures Eventful(w, log + [e])
  {
    assert forall i :: 0 <= i < |log| ==> (log + [e])[..i] == log[..i];
    assert (log + [e])[..|log|] == log;
  }

  lemma {:induction false} TurnEnds(w: seq<Job>, s: State, log: seq<Slice>, k: nat, u: nat)
    requires Shape(w, s) && Tracks(w, s, log) && Jump(w, s, k) && k == s.remain && u == s.clock + k
    ensures At(w, u).remain == 500
  {
    var r := RunFront(w, s, k);
    RunJump(w, s, k, r, u);
    assert r.remain == QUANTUM;
  }

  lemma {:induction false} SliceEndsAtEvent(w: seq<Job>, s: State, log: seq<Slice>, k: nat)
    requires Shape(w, s) && Tracks(w, s, log) && Jump(w, s, k) && s.clock == |Expand(log)|
    requires s.rem[s.queue[0]] == Left(w, Expand(log), s.queue[0])
    requires k == s.rem[s.queue[0]] || k == s.remain || (s.next < |w| && w[s.next].ready == s.clock + k)
    ensures EndsAtEvent(w, log, Slice(s.queue[0], k, s.next))
  {
    if k == s.remain {
      TurnEnds(w, s, log, k, s.clock + k);
    }
  }

  lemma {:induction false} RunEventful(w: seq<Job>, s: State, log: seq<Slice>)
    requires Inv(w, s, log) && Eventful(w, log) && s.queue != [] && s.rem[s.queue[0]] > 0
    ensures SliceLength(w, s) >= 0 && Eventful(w, RunJob(log, s.queue[0], SliceLength(w, s), s.next))
  {
    var k := SliceLength(w, s);
    if k > 0 {
      SliceEndsAtEvent(w, s, log, k);
      EventfulSnoc(w, log, Slice(s.queue[0], k, s.next));
    }
  }

  lemma {:induction false} IdleEventful(w: seq<Job>, s: State, log: seq<Slice>)
    requires Shape(w, s) && Books(w, s, log) && Eventful(w, log) && s.next < |w| && w[s.next].ready != s.clock
    ensures s.clock < w[s.next].ready && Eventful(w, IdledLog(w, s, log))
  {
    EventfulSnoc(w, log, Slice(IDLE, w[s.next].ready - s.clock, s.next));
  }

  // ---------- One iteration ----------

  lemma {:induction false} IdleIteration(w: seq<Job>, s: State, j: State, log: seq<Slice>)
    requires Shape(w, s) && j == AfterJoin(w, s) && Inv(w, j, log) && j.queue == [] && j.next < |w|
    ensures Inv(w, Iteration(w, s), IterationLog(w, s, log))
    ensures Eventful(w, log) ==> Eventful(w, IterationLog(w, s, log))
    ensures Progress(w, Iteration(w, s)) > j.next + Sum(j.turns)
  {
    if Eventful(w, log) {
      IdleEventful(w, j, log);
    }
    IdleStep(w, j, log);
    assert Iteration(w, s) == Idled(w, j);
    assert IterationLog(w, s, log) == IdledLog(w, j, log);
  }

  lemma {:induction false} RunIteration(w: seq<Job>, s: State, j: State, log: seq<Slice>)
    requires Shape(w, s) && j == AfterJoin(w, s) && Inv(w, j, log) && j.queue != [] && j.rem[j.queue[0]] > 0
    ensures Inv(w, Iteration(w, s), IterationLog(w, s, log))
    ensures Eventful(w, log) ==> Eventful(w, IterationLog(w, s, log))
    ensures Progress(w, Iteration(w, s)) > j.next + Sum(j.turns)
  {
    if Eventful(w, log) {
      RunEventful(w, j, log);
    }
    AfterSliceInv(w, j, log);
    assert Iteration(w, s) == AfterSlice(w, j);
    assert IterationLog(w, s, log) == RunJob(log, j.queue[0], SliceLength(w, j), j.next);
  }

  /** The current job has nothing to run, so it never had, and it has been handed nothing. */
  lemma {:induction false} HangsHere(w: seq<Job>, s: State, log: seq<Slice>)
    requires Shape(w, s) && Books(w, s, log) && Live(w, s, log) && s.queue != [] && s.rem[s.queue[0]] == 0
    ensures Hangs(w, log, s.next, s.queue[0])
  {
    assert !Retired(w, log, s.queue[0]);
  }

  lemma {:induction false} IterationInv(w: seq<Job>, s: State, log: seq<Slice>)
    requires Inv(w, s, log) && (s.queue != [] || s.next < |w|)
    ensures Blocks(w, s) ==> Hangs(w, log, AfterJoin(w, s).next, AfterJoin(w, s).queue[0])
    ensures !Blocks(w, s) ==> Inv(w, Iteration(w, s), IterationLog(w, s, log))
    ensures !Blocks(w, s) && Eventful(w, log) ==> Eventful(w, IterationLog(w, s, log))
    ensures !Blocks(w, s) ==> Progress(w, s) < Progress(w, Iteration(w, s)) <= |w| + Sum(TurnsNeeded(w))
  {
    AfterJoinInv(w, s, log);
    var j := AfterJoin(w, s);
    if Blocks(w, s) {
      HangsHere(w, j, log);
    } else {
      if j.queue == [] {
        IdleIteration(w, s, j, log);
      } else {
        RunIteration(w, s, j, log);
      }
      ProgressBound(w, Iteration(w, s));
    }
  }

  /** The body of the main loop. `hung` reports a wait for a child that was handed nothing. */
  method Iterate(w: seq<Job>, ring: Ring, remainTime: array<nat>, next: nat, curTime: nat, remain: nat,
                 log: seq<Slice>, ghost s: State)
    returns (next': nat, curTime': nat, remain': nat, log': seq<Slice>, died: bool, hung: bool,
             ghost added: set<Node>)
    requires ring.Valid() && Shape(w, s)
    requires s == State(curTime, ring.queue, remain, remainTime[..], next, s.turns)
    requires s.queue != [] || next < |w|
    requires s.queue == [] ==> remain == QUANTUM
    requires ByReady(w) && (next < |w| ==> w[next].ready >= curTime)
    modifies ring, ring.footprint, remainTime
    ensures ring.Valid() && fresh(added) && ring.footprint == old(ring.footprint) + added
    ensures hung <==> Blocks(w, s)
    ensures hung ==> log' == log && ring.queue == AfterJoin(w, s).queue && next' == AfterJoin(w, s).next
    ensures !hung ==> log' == IterationLog(w, s, log)
    ensures !hung ==>
              var r := Iteration(w, s);
              && r == State(curTime', ring.queue, remain', remainTime[..], next', r.turns)
              && |r.queue| == |s.queue| + (next' - next) - if died then 1 else 0
  {
    next', added := JoinIfDue(w, ring, next, curTime, s);
    ghost var j := AfterJoin(w, s);
    if ring.cur == null {
      log' := log + [Slice(IDLE, w[next'].ready - curTime, next')];
      curTime' := w[next'].ready;
      remain' := QUANTUM;
      died, hung := false, false;
    } else {
      assert next' < |w| ==> w[next'].ready >= curTime;
      log', curTime', remain', died, hung := RunCurrent(w, ring, remainTime, next', curTime, remain, log, j);
    }
  }

  /** The loop body, and what it does to the invariant. */
  method IterateSafely(w: seq<Job>, ring: Ring, remainTime: array<nat>, next: nat, curTime: nat, remain: nat,
                       log: seq<Slice>, ghost s: State)
    returns (next': nat, curTime': nat, remain': nat, log': seq<Slice>, died: bool, hung: bool,
             ghost s': State, ghost added: set<Node>)
    requires ring.Valid() && Inv(w, s, log) && Eventful(w, log)
    requires s == State(curTime, ring.queue, remain, remainTime[..], next, s.turns)
    requires s.queue != [] || next < |w|
    modifies ring, ring.footprint, remainTime
    ensures ring.Valid() && fresh(added) && ring.footprint == old(ring.footprint) + added
    ensures hung ==> log' == log && ring.queue != [] && Hangs(w, log, next', ring.queue[0])
    ensures Eventful(w, log')
    ensures !hung ==> Inv(w, s', log') && Progress(w, s) < Progress(w, s') <= |w| + Sum(TurnsNeeded(w))
    ensures !hung ==>
              && s' == State(curTime', ring.queue, remain', remainTime[..], next', s'.turns)
              && |s'.queue| == |s.queue| + (next' - next) - if died then 1 else 0
  {
    IterationInv(w, s, log);
    s' := Iteration(w, s);
    next', curTime', remain', log', died, hung, added :=
      Iterate(w, ring, remainTime, next, curTime, remain, log, s);
  }

  lemma {:induction false} PositiveInAnyOrder(input: seq<Job>, w: seq<Job>)
    requires multiset(w) == multiset(input)
    ensures Positive(w) <==> Positive(input)
  {
    assert forall p :: 0 <= p < |w| ==> w[p] in multiset(input);
    assert forall p :: 0 <= p < |input| ==> input[p] in multiset(w);
  }

  /** The main loop (lines 135-185), from freshly loaded records. */
  method Loop(w: seq<Job>, ring: Ring, remainTime: array<nat>, ghost s0: State)
    returns (log: seq<Slice>, hung: bool, blocker: nat, forked: nat, iterations: nat, ghost s: State)
    requires ring.Valid() && s0 == State(0, ring.queue, QUANTUM, remainTime[..], 0, s0.turns)
    requires Inv(w, s0, []) && s0.queue == []
    modifies ring, ring.footprint, remainTime
    ensures Eventful(w, log)
    ensures hung ==> Hangs(w, log, forked, blocker) && Expand(log) == Ticks(w, |Expand(log)|)
    ensures !hung ==> Inv(w, s, log) && s.queue == [] && s.next == |w| == forked
    ensures iterations <= |w| + Sum(TurnsNeeded(w))
  {
    ProgressBound(w, s0);
    var n := |w|;
    var finish, next: nat, curTime: nat, remain: nat := 0, 0, 0, QUANTUM;
    log, hung, blocker, forked, iterations, s := [], false, 0, 0, 0, s0;
    while finish < n
      invariant ring.Valid() && fresh(ring.footprint - old(ring.footprint))
      invariant s == State(curTime, ring.queue, remain, remainTime[..], next, s.turns)
      invariant finish + |s.queue| == next && !hung
      invariant Inv(w, s, log) && Eventful(w, log)
      invariant iterations <= Progress(w, s) <= n + Sum(TurnsNeeded(w))
      decreases n + Sum(TurnsNeeded(w)) - Progress(w, s)
    {
      var died;
      ghost var added;
      next, curTime, remain, log, died, hung, s, added :=
        IterateSafely(w, ring, remainTime, next, curTime, remain, log, s);
      if hung {
        blocker, forked := ring.Front(), next;
        return;
      }
      iterations := iterations + 1;
      if died {
        finish := finish + 1;
      }
    }
    forked := next;
  }

  /**
   * The scheduler. `hung` reports that it has come to wait for the child of `blocker`, which was
   * handed nothing; `forked` counts the processes forked until then.
   */
  method Rr(input: seq<Job>)
    returns (w: seq<Job>, log: seq<Slice>, hung: bool, blocker: nat, forked: nat, iterations: nat)
    ensures ByReady(w) && multiset(w) == multiset(input)
    ensures Expand(log) == Ticks(w, |Expand(log)|)
    ensures Eventful(w, log) && forall i :: 0 <= i < |log| ==> log[i].len > 0
    ensures hung <==> !Positive(input)
    ensures hung ==> Hangs(w, log, forked, blocker)
    ensures !hung ==> Complete(input, w, log)
    ensures iterations <= |w| + Sum(TurnsNeeded(w))
  {
    w := InReadyOrder(input);
    PositiveInAnyOrder(input, w);
    var remainTime, ring;
    ghost var s;
    remainTime, ring, s := Load(w);
    InitialInv(w);
    log, hung, blocker, forked, iterations, s := Loop(w, ring, remainTime, s);
    assert forall i :: 0 <= i < |log| ==> EndsAtEvent(w, log[..i], log[i]);
    if !hung {
      FinalState(input, w, s, log);
    }
  }
}
