/** The preemptive shortest-job-first scheduler (prj1/psjf.c). */
module Psjf {
  import opened Sorting
  import opened Jobs
  import opened Traces
  import opened Schedules
  import opened Optimality

  const UINT_RANGE := 0x1_0000_0000

  /** 32-bit unsigned arithmetic. */
  function Add32(a: nat, b: nat): nat { (a + b) % UINT_RANGE }
  function Sub32(a: nat, b: nat): nat { (a - b) % UINT_RANGE }

  /** On 32-bit operands the operations are exact exactly when they do not wrap, and wrap by 2^32 otherwise. */
  lemma {:induction false} Exact(a: nat, b: nat)
    requires a < 0x1_0000_0000 && b < 0x1_0000_0000
    ensures Add32(a, b) == if a + b < 0x1_0000_0000 then a + b else a + b - 0x1_0000_0000
    ensures Sub32(a, b) == if b <= a then a - b else a - b + 0x1_0000_0000
  {
  }

  /**
   * The scheduler's variables at a loop head: remaining times, the pointer array, the start of
   * its ready segment, the number a of admitted processes (its end), the clock, and the log.
   */
  datatype State = State(exec: seq<nat>, data: seq<nat>, head: nat, a: nat, clock: nat, log: seq<Slice>)

  /**
   * The pointer array: data[..head] finished, data[head..a] ready, data[a..] not ready and still
   * in ready order. The first two segments hold exactly the admitted processes.
   */
  ghost predicate Segments(exec: seq<nat>, data: seq<nat>, head: nat, a: nat) {
    && |data| == |exec| && head <= a <= |data|
    && Distinct(data)
    && (forall i :: a <= i < |data| ==> data[i] == i)
    && (forall i :: 0 <= i < a ==> data[i] < a)
    && (forall i :: 0 <= i < head ==> exec[data[i]] == 0)
    && (forall q :: 0 <= q < a ==> q in data[..a])
  }

  /** The log is a shortest-first schedule, it is at the clock, and nobody is overdue. */
  ghost predicate Books(w: seq<Job>, s: State) {
    && ByReady(w)
    && s.clock == |Expand(s.log)| <= BusyUntil(w, |w|)
    && Admitted(w, s.a, s.clock) && Forked(s.log) <= s.a
    && Schedule(w, s.log) && ShortestFirst(w, Expand(s.log))
  }

  /** The records are what the log leaves, and exactly the first segment has been retired. */
  ghost predicate Balanced(w: seq<Job>, s: State)
    requires |s.exec| == |w| && Segments(s.exec, s.data, s.head, s.a)
  {
    && (forall p :: 0 <= p < |w| ==> s.exec[p] == Left(w, Expand(s.log), p))
    && (forall i :: 0 <= i < |w| ==> (Retired(w, s.log, s.data[i]) <==> i < s.head))
  }

  ghost predicate Inv(w: seq<Job>, s: State) {
    |s.exec| == |w| && Segments(s.exec, s.data, s.head, s.a) && Balanced(w, s) && Books(w, s)
  }

  // ---------- One iteration, piece by piece ----------

  /** Bounds the iterations so far; it grows in every iteration. */
  ghost function Progress(w: seq<Job>, s: State): nat { s.head + s.a + Due(w, s.a, s.clock) }

  function Initial(w: seq<Job>): State {
    State(seq(|w|, i requires 0 <= i < |w| => w[i].exec), seq(|w|, i => i), 0, 0, 0, [])
  }

  lemma {:induction false} InitialInv(w: seq<Job>)
    requires ByReady(w)
    ensures Inv(w, Initial(w))
  {
  }

  lemma {:induction false} AdmitStep(w: seq<Job>, s: State)
    requires Inv(w, s) && s.a < |w| && w[s.a].ready == s.clock
    ensures Inv(w, s.(a := s.a + 1))
  {
    assert s.data[..s.a + 1] == s.data[..s.a] + [s.a];
  }

  ghost function Idled(w: seq<Job>, s: State): State
    requires s.a < |w| && s.clock <= w[s.a].ready
  {
    s.(clock := w[s.a].ready, log := s.log + [Slice(IDLE, w[s.a].ready - s.clock, s.a)])
  }

  lemma {:induction false} NoneLeft(w: seq<Job>, s: State)
    requires |s.exec| == |w| && Segments(s.exec, s.data, s.head, s.a) && Balanced(w, s) && s.head == s.a
    ensures forall q :: 0 <= q < s.a ==> Left(w, Expand(s.log), q) == 0
  {
    forall q | 0 <= q < s.a ensures Left(w, Expand(s.log), q) == 0 {
      assert q in s.data[..s.a];
    }
  }

  lemma {:induction false} IdleBooks(w: seq<Job>, s: State)
    requires Books(w, s) && s.a < |w|
    requires forall q :: 0 <= q < s.a ==> Left(w, Expand(s.log), q) == 0
    ensures s.clock <= w[s.a].ready && Books(w, Idled(w, s))
  {
    IdleSlice(w, s.log, s.a, w[s.a].ready - s.clock);
  }

  lemma {:induction false} IdleBalanced(w: seq<Job>, s: State)
    requires |s.exec| == |w| && Segments(s.exec, s.data, s.head, s.a) && Balanced(w, s)
    requires s.a < |w| && s.clock <= w[s.a].ready
    ensures Balanced(w, Idled(w, s))
  {
    LeftAfterIdle(w, s.log, w[s.a].ready - s.clock, s.a);
  }

  lemma {:induction false} IdleStep(w: seq<Job>, s: State)
    requires Inv(w, s) && s.head == s.a < |w|
    ensures s.clock <= w[s.a].ready && Inv(w, Idled(w, s))
  {
    NoneLeft(w, s);
    IdleBooks(w, s);
    IdleBalanced(w, s);
  }

  lemma {:induction false} IdleExact(w: seq<Job>, a: nat, clock: nat)
    requires a < |w| && clock <= w[a].ready && BusyUntil(w, |w|) < UINT_RANGE
    ensures Sub32(w[a].ready, clock) == w[a].ready - clock
    ensures Add32(clock, Sub32(w[a].ready, clock)) == w[a].ready
  {
    ReadyBeforeEnd(w, a);
  }

  /** The remaining time compared by CompareByExecTime. */
  function ExecOf(exec: seq<nat>): (key: nat -> int) {
    (p: nat) => if p < |exec| then exec[p] else 0
  }

  /** The least remaining time of the ready segment is at its head. */
  ghost predicate LeastFirst(s: State) {
    && s.head <= s.a <= |s.data|
    && (forall i :: 0 <= i < |s.data| ==> s.data[i] < |s.exec|)
    && forall i :: s.head <= i < s.a ==> s.exec[s.data[s.head]] <= s.exec[s.data[i]]
  }

  /** Sorting the ready segment moves nobody across its ends. */
  lemma {:induction false} SortKeepsAdmitted(data: seq<nat>, data': seq<nat>, head: nat, a: nat)
    requires head <= a <= |data| == |data'|
    requires data'[..head] == data[..head] && multiset(data'[head..a]) == multiset(data[head..a])
    ensures forall q :: q in data[..a] <==> q in data'[..a]
  {
    assert data[..a] == data[..head] + data[head..a] && data'[..a] == data'[..head] + data'[head..a];
    SameElements(data[..a], data'[..a]);
  }

  lemma {:induction false} SortKeepsSegments(exec: seq<nat>, data: seq<nat>, data': seq<nat>, head: nat, a: nat)
    requires Segments(exec, data, head, a) && |data'| == |data|
    requires data'[..head] == data[..head] && data'[a..] == data[a..]
    requires multiset(data'[head..a]) == multiset(data[head..a])
    ensures Segments(exec, data', head, a)
    ensures forall i :: head <= i < a ==> data'[i] in data[head..a]
  {
    assert data == data[..head] + data[head..a] + data[a..];
    assert data' == data'[..head] + data'[head..a] + data'[a..];
    DistinctPermutation(data, data');
    SameElements(data[head..a], data'[head..a]);
    SortKeepsAdmitted(data, data', head, a);
    forall i | 0 <= i < |data| && !(head <= i < a) ensures data'[i] == data[i] {
      if i < head {
        assert data'[i] == data'[..head][i];
      } else {
        assert data'[i] == data'[a..][i - a];
      }
    }
    forall i | head <= i < a ensures data'[i] in data[head..a] {
      assert data'[head..a][i - head] in data'[head..a];
    }
  }

  /** Any way of sorting the ready segment keeps the invariant. */
  lemma {:induction false} SortStep(w: seq<Job>, s: State, data: seq<nat>)
    requires Inv(w, s) && |data| == |s.data|
    requires data[..s.head] == s.data[..s.head] && data[s.a..] == s.data[s.a..]
    requires multiset(data[s.head..s.a]) == multiset(s.data[s.head..s.a])
    requires Sorted(data[s.head..s.a], ExecOf(s.exec))
    ensures Inv(w, s.(data := data)) && LeastFirst(s.(data := data))
  {
    SortKeepsSegments(s.exec, s.data, data, s.head, s.a);
    forall i | 0 <= i < |data| ensures Retired(w, s.log, data[i]) <==> i < s.head {
      if i < s.head {
        assert data[i] == data[..s.head][i];
      } else if i < s.a {
        assert data[i] in s.data[s.head..s.a];
      } else {
        assert data[i] == data[s.a..][i - s.a];
      }
    }
    forall i | s.head <= i < s.a ensures s.exec[data[s.head]] <= s.exec[data[i]] {
      var key := ExecOf(s.exec);
      assert key(data[s.head..s.a][0]) <= key(data[s.head..s.a][i - s.head]);
    }
  }

  /** How long the head of the ready segment is let run: to the next arrival or to its end. */
  ghost function SliceLength(w: seq<Job>, s: State): int
    requires s.head < |s.data| && s.data[s.head] < |s.exec|
  {
    var left := s.exec[s.data[s.head]];
    if s.a < |w| && w[s.a].ready < s.clock + left then w[s.a].ready - s.clock else left
  }

  /** The state after the head of the ready segment has run k units. */
  ghost function AfterSlice(s: State, k: nat): State
    requires s.head < |s.data| && s.data[s.head] < |s.exec| && k <= s.exec[s.data[s.head]]
  {
    var p := s.data[s.head];
    s.(exec := s.exec[p := s.exec[p] - k], head := if k == s.exec[p] then s.head + 1 else s.head,
       clock := s.clock + k, log := s.log + [Slice(p, k, s.a)])
  }

  /** The head of the ready segment is the right process for the whole slice. */
  lemma {:induction false} SliceIsShortest(w: seq<Job>, s: State)
    requires Inv(w, s) && s.head < s.a && LeastFirst(s)
    requires 0 <= SliceLength(w, s) <= s.exec[s.data[s.head]]
    ensures ShortestFirst(w, Expand(s.log) + Repeat(s.data[s.head], SliceLength(w, s)))
    ensures SliceLength(w, s) > 0 && s.a < |w| ==> w[s.a].ready > s.clock
  {
    var tr, p, k := Expand(s.log), s.data[s.head], SliceLength(w, s);
    if k == 0 {
      assert tr + Repeat(p, k) == tr;
    } else {
      forall q | CanRun(w, tr, q) ensures Left(w, tr, p) <= Left(w, tr, q) {
        assert q < s.a;
        var i := InReadySegment(s.exec, s.data, s.head, s.a, q);
      }
      forall q | 0 <= q < |w| ensures w[q].ready <= |tr| || w[q].ready >= |tr| + k {
        assert q > s.a ==> w[s.a].ready <= w[q].ready;
      }
      ExtendShortest(w, tr, p, k);
    }
  }

  /** An admitted process with work left is in the ready segment. */
  lemma {:induction false} InReadySegment(exec: seq<nat>, data: seq<nat>, head: nat, a: nat, q: nat) returns (i: nat)
    requires Segments(exec, data, head, a) && q < a && exec[q] > 0
    ensures head <= i < a && data[i] == q
  {
    assert q in data[..a];
    i :| 0 <= i < a && data[..a][i] == q;
  }

  lemma {:induction false} SegmentsAfterRun(exec: seq<nat>, data: seq<nat>, head: nat, a: nat, k: nat)
    requires Segments(exec, data, head, a) && head < a && k <= exec[data[head]]
    ensures var p := data[head];
            Segments(exec[p := exec[p] - k], data, if k == exec[p] then head + 1 else head, a)
  {
  }

  lemma {:induction false} BalancedAfterRun(w: seq<Job>, s: State, k: nat)
    requires |s.exec| == |w| && Segments(s.exec, s.data, s.head, s.a) && Balanced(w, s)
    requires s.head < s.a && k <= s.exec[s.data[s.head]]
    ensures var r := AfterSlice(s, k);
            |r.exec| == |w| && Segments(r.exec, r.data, r.head, r.a) && Balanced(w, r)
  {
    SegmentsAfterRun(s.exec, s.data, s.head, s.a, k);
    LeftAfterRun(w, s.log, s.data[s.head], k, s.a);
  }

  lemma {:induction false} BooksAfterRun(w: seq<Job>, s: State, k: nat)
    requires Books(w, s) && s.head < |s.data| && s.data[s.head] < s.a && s.data[s.head] < |s.exec|
    requires k <= s.exec[s.data[s.head]] <= Left(w, Expand(s.log), s.data[s.head])
    requires !Retired(w, s.log, s.data[s.head])
    requires ShortestFirst(w, Expand(s.log) + Repeat(s.data[s.head], k))
    requires Admitted(w, s.a, s.clock + k) && s.clock + k <= BusyUntil(w, |w|)
    ensures Books(w, AfterSlice(s, k))
  {
    RunSlice(w, s.log, s.data[s.head], k, s.a);
  }

  lemma {:induction false} AfterSliceInv(w: seq<Job>, s: State, k: nat)
    requires Inv(w, s) && s.head < s.a && k <= s.exec[s.data[s.head]]
    requires ShortestFirst(w, Expand(s.log) + Repeat(s.data[s.head], k))
    requires Admitted(w, s.a, s.clock + k) && s.clock + k <= BusyUntil(w, |w|)
    ensures Inv(w, AfterSlice(s, k))
  {
    BalancedAfterRun(w, s, k);
    BooksAfterRun(w, s, k);
  }

  /** The slice ends no later than B_n, and nobody is overdue when it does. */
  lemma {:induction false} SliceFits(w: seq<Job>, s: State)
    requires Inv(w, s) && s.head < s.a
    ensures s.clock + s.exec[s.data[s.head]] <= BusyUntil(w, |w|)
    ensures s.a < |w| ==> s.data[s.a] == s.a && s.clock <= w[s.a].ready <= BusyUntil(w, |w|)
    ensures 0 <= SliceLength(w, s) <= s.exec[s.data[s.head]]
    ensures Admitted(w, s.a, s.clock + SliceLength(w, s))
  {
    WithinBacklog(w, Expand(s.log), s.a, s.data[s.head]);
    if s.a < |w| {
      ReadyBeforeEnd(w, s.a);
    }
    StillAdmitted(w, s.a, s.clock, s.clock + SliceLength(w, s));
  }

  lemma {:induction false} SliceStep(w: seq<Job>, s: State)
    requires Inv(w, s) && s.head < s.a && LeastFirst(s)
    ensures s.clock + s.exec[s.data[s.head]] <= BusyUntil(w, |w|)
    ensures s.a < |w| ==> s.data[s.a] == s.a && s.clock <= w[s.a].ready <= BusyUntil(w, |w|)
    ensures 0 <= SliceLength(w, s) <= s.exec[s.data[s.head]]
    ensures Inv(w, AfterSlice(s, SliceLength(w, s)))
  {
    SliceFits(w, s);
    SliceIsShortest(w, s);
    AfterSliceInv(w, s, SliceLength(w, s));
  }

  // ---------- The decisions, read off the log ----------

  /**
   * A slice after `log` goes to a process with the least left of all that have been forked and not
   * retired, whatever the length of the slice, and ends with that process or with the next arrival.
   */
  ghost predicate Chosen(w: seq<Job>, log: seq<Slice>, e: Slice) {
    && 0 <= e.pid < e.forked <= |w| && !Retired(w, log, e.pid)
    && (forall q :: 0 <= q < e.forked && !Retired(w, log, q) ==>
          Left(w, Expand(log), e.pid) <= Left(w, Expand(log), q))
    && (|| e.len == Left(w, Expand(log), e.pid)
        || (e.forked < |w| && e.len < Left(w, Expand(log), e.pid) && w[e.forked].ready == |Expand(log)| + e.len))
  }

  /** A gap comes only when everybody who has been forked is retired, and lasts until the next arrival. */
  ghost predicate Gap(w: seq<Job>, log: seq<Slice>, e: Slice) {
    && e.pid == IDLE && e.len > 0
    && e.forked < |w| && w[e.forked].ready == |Expand(log)| + e.len
    && (forall q :: 0 <= q < e.forked ==> Retired(w, log, q))
  }

  /** One iteration admits one process if one is due, and no more, and then has one slice or gap. */
  ghost predicate Decided(w: seq<Job>, log: seq<Slice>, e: Slice) {
    && e.forked == Forked(log) + Due(w, Forked(log), |Expand(log)|)
    && (Chosen(w, log, e) || Gap(w, log, e))
  }

  ghost predicate AllDecided(w: seq<Job>, log: seq<Slice>) {
    forall i {:trigger log[..i]} :: 0 <= i < |log| ==> Decided(w, log[..i], log[i])
  }

  lemma {:induction false} DecidedSnoc(w: seq<Job>, log: seq<Slice>, e: Slice)
    requires AllDecided(w, log) && Decided(w, log, e)
    ensures AllDecided(w, log + [e])
  {
    assert forall i :: 0 <= i < |log| ==> (log + [e])[..i] == log[..i];
    assert (log + [e])[..|log|] == log;
  }

  lemma {:induction false} OneAtATime(w: seq<Job>, log: seq<Slice>)
    requires AllDecided(w, log)
    ensures forall i :: 0 <= i < |log| ==> log[i].forked <= Forked(log[..i]) + 1
  {
    forall i | 0 <= i < |log| ensures log[i].forked <= Forked(log[..i]) + 1 {
      assert Decided(w, log[..i], log[i]);
    }
  }

  lemma {:induction false} HeadIsChosen(w: seq<Job>, s: State)
    requires |s.exec| == |w| && Segments(s.exec, s.data, s.head, s.a) && Balanced(w, s)
    requires s.head < s.a && LeastFirst(s) && s.clock == |Expand(s.log)|
    requires 0 <= SliceLength(w, s) <= s.exec[s.data[s.head]]
    ensures Chosen(w, s.log, Slice(s.data[s.head], SliceLength(w, s), s.a))
  {
    forall q | 0 <= q < s.a && !Retired(w, s.log, q)
      ensures Left(w, Expand(s.log), s.data[s.head]) <= Left(w, Expand(s.log), q)
    {
      assert q in s.data[..s.a];
      var i :| 0 <= i < s.a && s.data[..s.a][i] == q;
      assert s.data[i] == q && i >= s.head;
    }
  }

  lemma {:induction false} NobodyIsReady(w: seq<Job>, s: State)
    requires |s.exec| == |w| && Segments(s.exec, s.data, s.head, s.a) && Balanced(w, s)
    requires s.head == s.a < |w| && s.clock == |Expand(s.log)| < w[s.a].ready
    ensures Gap(w, s.log, Slice(IDLE, w[s.a].ready - s.clock, s.a))
  {
    forall q | 0 <= q < s.a ensures Retired(w, s.log, q) {
      assert q in s.data[..s.a];
    }
  }

  lemma {:induction false} FinalState(input: seq<Job>, w: seq<Job>, s: State)
    requires Inv(w, s) && s.head == |w| && multiset(w) == multiset(input)
    ensures Complete(input, w, s.log) && Optimal(w, Expand(s.log))
  {
    forall p | 0 <= p < |w| ensures Retired(w, s.log, p) {
      assert p in s.data[..s.a];
    }
    Completes(input, w, s.log);
    ShortestFirstIsOptimal(w, Expand(s.log));
  }

  // ---------- The scheduler ----------

  method SendToChild(exec: array<nat>, running: nat, slice: nat, timeCounter: nat) returns (timeCounter': nat)
    requires running < exec.Length && slice <= exec[running] < UINT_RANGE && timeCounter + slice < UINT_RANGE
    modifies exec
    ensures exec[..] == old(exec[..])[running := old(exec[running]) - slice]
    ensures timeCounter' == timeCounter + slice
  {
    Exact(exec[running], slice);
    Exact(timeCounter, slice);
    exec[running] := Sub32(exec[running], slice);
    timeCounter' := Add32(timeCounter, slice);
  }

  /** Sorting the ready segment puts a process with the least remaining time at its head. */
  method SortReady(data: array<nat>, head: nat, count: nat, ghost w: seq<Job>, ghost s: State, exec: seq<nat>)
    requires Inv(w, s) && s.data == data[..] && s.exec == exec && s.head == head && s.a == head + count
    modifies data
    ensures Inv(w, s.(data := data[..])) && LeastFirst(s.(data := data[..]))
  {
    assert s.data[head..head + count] == data[head..head + count];
    SortSegment(data, head, head + count, ExecOf(exec));
    assert data[..][head..head + count] == data[head..head + count];
    SortStep(w, s, data[..]);
  }

  /** The remaining times, and pointers to the processes in ready order (lines 146-151). */
  method Load(w: seq<Job>) returns (exec: array<nat>, data: array<nat>, ghost s: State)
    requires ByReady(w)
    ensures fresh(exec) && fresh(data) && exec != data
    ensures s == State(exec[..], data[..], 0, 0, 0, []) && Inv(w, s)
  {
    var n := |w|;
    exec := new nat[n](i requires 0 <= i < n => w[i].exec);
    data := new nat[n](i => i);
    s := Initial(w);
    InitialInv(w);
    assert exec[..] == s.exec && data[..] == s.data;
  }

  /** Nobody is ready: idle until the next process is (lines 190-193). */
  method WaitForNextProcess(w: seq<Job>, next: nat, timeCounter: nat, ghost s: State)
    returns (gap: Slice, timeCounter': nat, ghost s': State)
    requires BusyUntil(w, |w|) < UINT_RANGE
    requires Inv(w, s) && s.head == s.a == next < |w| && s.clock == timeCounter != w[next].ready
    ensures Inv(w, s') && s' == s.(clock := timeCounter', log := s.log + [gap])
    ensures Progress(w, s') > Progress(w, s)
    ensures Gap(w, s.log, gap) && gap.forked == s.a
  {
    NobodyIsReady(w, s);
    IdleStep(w, s);
    IdleExact(w, next, timeCounter);
    var wait := Sub32(w[next].ready, timeCounter);
    gap := Slice(IDLE, wait, next);
    timeCounter' := Add32(timeCounter, wait);
    s' := Idled(w, s);
  }

  /** How long the head of the ready segment is let run, and whether that is to its end (lines 203-210). */
  method SliceTime(w: seq<Job>, exec: array<nat>, data: array<nat>, head: nat, count: nat, unready: nat,
                   timeCounter: nat, ghost s: State) returns (length: nat, finished: bool)
    requires |w| == data.Length && 0 < count && unready + head + count == |w| && data[head] < exec.Length
    requires s == State(exec[..], data[..], head, head + count, timeCounter, s.log)
    requires unready != 0 ==> data[s.a] == s.a && timeCounter <= w[s.a].ready < UINT_RANGE
    requires timeCounter + exec[data[head]] < UINT_RANGE
    ensures length == SliceLength(w, s) <= exec[data[head]]
    ensures finished <==> length == exec[data[head]]
    ensures !finished ==> s.a < |w| && w[s.a].ready == timeCounter + length
  {
    length, finished := exec[data[head]], true;
    Exact(timeCounter, length);
    if unready != 0 && w[data[head + count]].ready < Add32(timeCounter, length) {
      Exact(w[s.a].ready, timeCounter);
      length, finished := Sub32(w[data[head + count]].ready, timeCounter), false;
    }
  }

  /** Lines 197-210: sort the ready segment and decide how long its head runs. */
  method Choose(w: seq<Job>, exec: array<nat>, data: array<nat>, head: nat, count: nat, unready: nat,
                timeCounter: nat, ghost s: State)
    returns (running: nat, length: nat, finished: bool, ghost c: State)
    requires BusyUntil(w, |w|) < UINT_RANGE && exec != data
    requires Inv(w, s) && s == State(exec[..], data[..], head, head + count, timeCounter, s.log)
    requires count > 0 && unready + head + count == |w|
    modifies data
    ensures c == s.(data := data[..]) && head < data.Length && running == data[head] < exec.Length
    ensures length <= exec[running] < UINT_RANGE && timeCounter + length < UINT_RANGE
    ensures finished <==> length == exec[running]
    ensures Inv(w, AfterSlice(c, length)) && Progress(w, AfterSlice(c, length)) > s.head + s.a
    ensures Chosen(w, s.log, Slice(running, length, s.a))
  {
    SortReady(data, head, count, w, s, exec[..]);
    c := s.(data := data[..]);
    SliceStep(w, c);
    HeadIsChosen(w, c);
    running := data[head];
    length, finished := SliceTime(w, exec, data, head, count, unready, timeCounter, c);
  }

  /**
   * The second half of an iteration (lines 197-226): sort, choose, run, and retire the process
   * if this was its last slice.
   */
  method ServeHead(w: seq<Job>, exec: array<nat>, data: array<nat>, head: nat, count: nat, unready: nat,
                   timeCounter: nat, ghost s: State)
    returns (slice: Slice, finished: bool, timeCounter': nat, ghost s': State)
    requires BusyUntil(w, |w|) < UINT_RANGE && exec != data
    requires Inv(w, s) && s == State(exec[..], data[..], head, head + count, timeCounter, s.log)
    requires count > 0 && unready + head + count == |w|
    modifies exec, data
    ensures Inv(w, s')
    ensures s' == State(exec[..], data[..], if finished then head + 1 else head, s.a, timeCounter', s.log + [slice])
    ensures Progress(w, s') > s.head + s.a
    ensures Chosen(w, s.log, slice) && slice.forked == s.a
  {
    var running, length;
    ghost var c;
    running, length, finished, c := Choose(w, exec, data, head, count, unready, timeCounter, s);
    s' := AfterSlice(c, length);
    timeCounter' := SendToChild(exec, running, length, timeCounter);
    slice := Slice(running, length, head + count);
    assert exec[..] == s'.exec && data[..] == s'.data;
  }

  /**
   * The loop body: admit the next process if it is due, or wait for it if nobody is ready, and
   * otherwise serve the head of the ready segment.
   */
  method Iterate(w: seq<Job>, exec: array<nat>, data: array<nat>, head: nat, count: nat, unready: nat,
                 timeCounter: nat, ghost s: State)
    returns (count': nat, unready': nat, timeCounter': nat, slice: Slice, finished: bool, ghost s': State)
    requires BusyUntil(w, |w|) < UINT_RANGE && exec != data
    requires Inv(w, s) && s == State(exec[..], data[..], head, head + count, timeCounter, s.log)
    requires head < |w| && unready + head + count == |w| && Forked(s.log) == s.a
    modifies exec, data
    ensures Inv(w, s') && Progress(w, s') > Progress(w, s)
    ensures Decided(w, s.log, slice) && slice.forked == s'.a
    ensures var head' := if finished then head + 1 else head;
            && s' == State(exec[..], data[..], head', head' + count', timeCounter', s.log + [slice])
            && unready' + head' + count' == |w|
  {
    count', unready', timeCounter', s' := count, unready, timeCounter, s;
    if unready != 0 {
      var next := data[head + count];
      assert next == s.a;
      if w[next].ready == timeCounter {
        AdmitStep(w, s);
        unready' := unready - 1;
        count' := count + 1;
        s' := s.(a := s.a + 1);
      } else if count == 0 {
        slice, timeCounter', s' := WaitForNextProcess(w, next, timeCounter, s);
        finished := false;
        return;
      }
    }
    slice, finished, timeCounter', s' := ServeHead(w, exec, data, head, count', unready', timeCounter, s');
    count' := if finished then count' - 1 else count';
  }

  /**
   * The main loop. Its 32-bit arithmetic is exact when the finishing clock is representable;
   * the log holds one slice (possibly of length zero) or one idle gap per iteration.
   */
  method Psjf(input: seq<Job>) returns (w: seq<Job>, log: seq<Slice>)
    requires FinalClock(input) < 0x1_0000_0000
    ensures Complete(input, w, log)
    ensures ShortestFirst(w, Expand(log)) && Optimal(w, Expand(log))
    ensures AllDecided(w, log) && forall i :: 0 <= i < |log| ==> log[i].forked <= Forked(log[..i]) + 1
    ensures |log| <= 2 * |input|
  {
    w := InReadyOrder(input);
    var exec, data;
    ghost var s;
    exec, data, s := Load(w);
    var n := |w|;
    var head: nat, count: nat := 0, 0;
    var timeCounter: nat, unready: nat, finishedCount := 0, n, 0;
    log := [];
    while finishedCount < n
      invariant exec != data && finishedCount == head && unready + head + count == n
      invariant s == State(exec[..], data[..], head, head + count, timeCounter, log)
      invariant Inv(w, s) && AllDecided(w, log) && Forked(log) == head + count
      invariant |log| <= Progress(w, s)
      decreases 2 * n - Progress(w, s)
    {
      var slice, finished;
      count, unready, timeCounter, slice, finished, s :=
        Iterate(w, exec, data, head, count, unready, timeCounter, s);
      DecidedSnoc(w, log, slice);
      log := log + [slice];
      if finished {
        head := head + 1;
        finishedCount := finishedCount + 1;
      }
    }
    FinalState(input, w, s);
    OneAtATime(w, log);
  }
}
