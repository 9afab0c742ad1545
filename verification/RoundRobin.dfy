/**
 * Round robin one time unit at a time. This is the policy the event-driven loop of prj1/rr.c is
 * measured against: run the front of the queue for one unit; if that ends its work or its turn,
 * drop it or send it to the back; then let the processes that are now ready join at the back.
 */
module RoundRobin {
  import opened Jobs
  import opened Traces

  const QUANTUM := 500

  /**
   * remain: units left of the current turn; rem: units left of each process; next: processes
   * admitted; turns: turns each process has ended.
   */
  datatype State = State(clock: nat, queue: seq<nat>, remain: nat, rem: seq<nat>, next: nat, turns: seq<nat>)

  ghost predicate Shape(w: seq<Job>, s: State) {
    && |s.rem| == |s.turns| == |w|
    && s.next <= |w|
    && 1 <= s.remain <= QUANTUM
    && (forall i :: 0 <= i < |s.queue| ==> s.queue[i] < s.next)
  }

  /** One process joins the back of the queue. */
  ghost function Joined(s: State): State {
    s.(queue := s.queue + [s.next], next := s.next + 1)
  }

  /** Everybody who is ready now joins the back of the queue. */
  ghost function Admit(w: seq<Job>, s: State): (r: State)
    requires Shape(w, s)
    ensures Shape(w, r)
    ensures s.queue <= r.queue && r == s.(queue := r.queue, next := r.next)
    decreases |w| - s.next
  {
    if s.next < |w| && w[s.next].ready == s.clock then
      Admit(w, Joined(s))
    else s
  }

  /** The front of the queue runs k units; a finished turn is ended. */
  ghost function RunFront(w: seq<Job>, s: State, k: nat): (r: State)
    requires Shape(w, s) && s.queue != [] && k <= s.rem[s.queue[0]] && k <= s.remain
    ensures Shape(w, r)
  {
    var p := s.queue[0];
    var r := s.(clock := s.clock + k, rem := s.rem[p := s.rem[p] - k]);
    if s.rem[p] == k then
      r.(queue := s.queue[1..], remain := QUANTUM, turns := s.turns[p := s.turns[p] + 1])
    else if s.remain == k then
      r.(queue := s.queue[1..] + [p], remain := QUANTUM, turns := s.turns[p := s.turns[p] + 1])
    else r.(remain := s.remain - k)
  }

  /** There is somebody with work to do at the front. */
  ghost predicate Busy(w: seq<Job>, s: State)
    requires Shape(w, s)
  {
    s.queue != [] && s.rem[s.queue[0]] > 0
  }

  ghost function Tick(w: seq<Job>, s: State): (r: State)
    requires Shape(w, s)
    ensures Shape(w, r)
  {
    if Busy(w, s) then Admit(w, RunFront(w, s, 1)) else Admit(w, s.(clock := s.clock + 1))
  }

  ghost function Initial(w: seq<Job>): State {
    State(0, [], QUANTUM, seq(|w|, i requires 0 <= i < |w| => w[i].exec), 0, seq(|w|, _ => 0))
  }

  /** The state at clock t, and what has been run until then. */
  ghost function At(w: seq<Job>, t: nat): (s: State)
    ensures Shape(w, s)
  {
    if t == 0 then Admit(w, Initial(w)) else Tick(w, At(w, t - 1))
  }

  ghost function Ticks(w: seq<Job>, t: nat): (tr: Trace)
    ensures |tr| == t
  {
    if t == 0 then [] else
      var s := At(w, t - 1);
      Ticks(w, t - 1) + [if Busy(w, s) then s.queue[0] else IDLE]
  }

  // ---------- Many units at once ----------

  /** Nobody joins before clock c. */
  ghost predicate QuietUntil(w: seq<Job>, s: State, c: nat) { s.next < |w| ==> w[s.next].ready >= c }

  lemma {:induction false} Settled(w: seq<Job>, s: State)
    requires Shape(w, s) && QuietUntil(w, s, s.clock + 1)
    ensures Admit(w, s) == s
  {
  }

  lemma {:induction false} OneTick(w: seq<Job>, s: State, t: nat, u: nat)
    requires Shape(w, s) && At(w, t) == s && u == t + 1
    ensures Busy(w, s) ==> At(w, u) == Admit(w, RunFront(w, s, 1)) && Ticks(w, u) == Ticks(w, t) + [s.queue[0]]
    ensures !Busy(w, s) ==> At(w, u) == Admit(w, s.(clock := s.clock + 1)) && Ticks(w, u) == Ticks(w, t) + [IDLE]
  {
  }

  lemma {:induction false} RunInTwo(w: seq<Job>, s: State, k: nat)
    requires Shape(w, s) && s.queue != [] && 2 <= k <= s.rem[s.queue[0]] && k <= s.remain
    ensures var m := RunFront(w, s, k - 1);
            m.queue == s.queue && m.clock == s.clock + k - 1 && m.next == s.next && Busy(w, m)
            && RunFront(w, m, 1) == RunFront(w, s, k)
  {
  }

  lemma {:induction false} RepeatSnoc(tr: Trace, p: int, k: nat)
    requires k > 0
    ensures tr + Repeat(p, k - 1) + [p] == tr + Repeat(p, k)
  {
  }

  lemma {:induction false} JumpStart(w: seq<Job>, s: State, u: nat)
    requires Shape(w, s) && At(w, s.clock) == Admit(w, s)
    requires s.queue != [] && 1 <= s.rem[s.queue[0]] && u == s.clock + 1 && QuietUntil(w, s, u)
    ensures At(w, u) == Admit(w, RunFront(w, s, 1))
    ensures Ticks(w, u) == Ticks(w, s.clock) + Repeat(s.queue[0], 1)
  {
    Settled(w, s);
    OneTick(w, s, s.clock, u);
  }

  /** One more unit of an undisturbed turn. */
  lemma {:induction false} JumpStep(w: seq<Job>, s: State, k: nat, m: State, t: nat, u: nat)
    requires Shape(w, s) && s.queue != [] && 2 <= k <= s.rem[s.queue[0]] && k <= s.remain
    requires t == s.clock + k - 1 && u == t + 1 && QuietUntil(w, s, u)
    requires m == RunFront(w, s, k - 1) && At(w, t) == Admit(w, m)
    ensures At(w, u) == Admit(w, RunFront(w, s, k))
    ensures Ticks(w, u) == Ticks(w, t) + [s.queue[0]]
  {
    RunInTwo(w, s, k);
    Settled(w, m);
    OneTick(w, m, t, u);
  }

  /** k undisturbed units of the front process, and one jump of k units, lead to the same state. */
  lemma {:induction false} RunJump(w: seq<Job>, s: State, k: nat, r: State, u: nat)
    requires Shape(w, s) && At(w, s.clock) == Admit(w, s)
    requires s.queue != [] && 1 <= k <= s.rem[s.queue[0]] && k <= s.remain && u == s.clock + k
    requires QuietUntil(w, s, u) && r == RunFront(w, s, k)
    ensures At(w, u) == Admit(w, r)
    ensures Ticks(w, u) == Ticks(w, s.clock) + Repeat(s.queue[0], k)
    decreases k
  {
    if k == 1 {
      JumpStart(w, s, u);
    } else {
      var t, m := u - 1, RunFront(w, s, k - 1);
      RunJump(w, s, k - 1, m, t);
      JumpStep(w, s, k, m, t, u);
      RepeatSnoc(Ticks(w, s.clock), s.queue[0], k);
    }
  }

  /** One more unit without anybody in the queue. */
  lemma {:induction false} IdleStep(w: seq<Job>, s: State, t: nat, u: nat)
    requires Shape(w, s) && s.queue == [] && s.clock <= t && u == t + 1 && QuietUntil(w, s, u)
    requires At(w, t) == Admit(w, s.(clock := t))
    ensures At(w, u) == Admit(w, s.(clock := u)) && Ticks(w, u) == Ticks(w, t) + [IDLE]
  {
    Settled(w, s.(clock := t));
    OneTick(w, s.(clock := t), t, u);
  }

  lemma {:induction false} IdleJump(w: seq<Job>, s: State, k: nat, u: nat)
    requires Shape(w, s) && At(w, s.clock) == Admit(w, s)
    requires s.queue == [] && u == s.clock + k && QuietUntil(w, s, u)
    ensures At(w, u) == Admit(w, s.(clock := u))
    ensures Ticks(w, u) == Ticks(w, s.clock) + Repeat(IDLE, k)
    decreases k
  {
    if k == 0 {
      assert s.(clock := u) == s && Ticks(w, u) + Repeat(IDLE, k) == Ticks(w, u);
    } else {
      var t := u - 1;
      IdleJump(w, s, k - 1, t);
      IdleStep(w, s, t, u);
      RepeatSnoc(Ticks(w, s.clock), IDLE, k);
    }
  }

  // ---------- Bounded waiting ----------

  ghost predicate Positive(w: seq<Job>) { forall p :: 0 <= p < |w| ==> w[p].exec > 0 }

  /** Everybody in the queue has work left. */
  ghost predicate Workers(w: seq<Job>, s: State)
    requires Shape(w, s)
  {
    && (forall i :: 0 <= i < |s.queue| ==> s.rem[s.queue[i]] > 0)
    && (forall i, j :: 0 <= i < j < |s.queue| ==> s.queue[i] != s.queue[j])
    && (forall p :: s.next <= p < |w| ==> s.rem[p] == w[p].exec)
  }

  lemma {:induction false} AdmitWorkers(w: seq<Job>, s: State)
    requires Shape(w, s) && Workers(w, s) && Positive(w)
    ensures Workers(w, Admit(w, s))
    decreases |w| - s.next
  {
    if s.next < |w| && w[s.next].ready == s.clock {
      AdmitWorkers(w, Joined(s));
    }
  }

  lemma {:induction false} RunWorkers(w: seq<Job>, s: State)
    requires Shape(w, s) && Workers(w, s) && s.queue != []
    ensures Workers(w, RunFront(w, s, 1))
  {
  }

  lemma {:induction false} TickWorkers(w: seq<Job>, s: State)
    requires Shape(w, s) && Workers(w, s) && Positive(w)
    ensures Workers(w, Tick(w, s))
  {
    if Busy(w, s) {
      RunWorkers(w, s);
      AdmitWorkers(w, RunFront(w, s, 1));
    } else {
      AdmitWorkers(w, s.(clock := s.clock + 1));
    }
  }

  /** With execution times of at least 1, everybody in the queue has work left, at all times. */
  lemma {:induction false} WorkersAlways(w: seq<Job>, t: nat)
    requires Positive(w)
    ensures Workers(w, At(w, t))
  {
    if t == 0 {
      AdmitWorkers(w, Initial(w));
    } else {
      WorkersAlways(w, t - 1);
      TickWorkers(w, At(w, t - 1));
    }
  }

  /** In one unit the process at position i >= 1 stays there while the turn goes on, or moves up by one. */
  lemma {:induction false} OneUnitCloser(w: seq<Job>, t: nat, i: nat)
    requires Positive(w) && 1 <= i < |At(w, t).queue|
    ensures var s, s' := At(w, t), At(w, t + 1);
            || (i < |s'.queue| && s'.queue[i] == s.queue[i] && s'.remain == s.remain - 1)
            || (i - 1 < |s'.queue| && s'.queue[i - 1] == s.queue[i] && s'.remain == QUANTUM)
  {
    WorkersAlways(w, t);
    var s := At(w, t);
    var m := RunFront(w, s, 1);
    OneTick(w, s, t, t + 1);
    if m.queue == s.queue {
      assert Admit(w, m).queue[i] == s.queue[i];
    } else {
      assert m.queue[i - 1] == s.queue[i];
      assert Admit(w, m).queue[i - 1] == m.queue[i - 1];
    }
  }

  /** Whoever is at the front is run next. */
  lemma {:induction false} FrontRuns(w: seq<Job>, t: nat)
    requires Positive(w) && At(w, t).queue != []
    ensures Ticks(w, t + 1)[t] == At(w, t).queue[0]
  {
    WorkersAlways(w, t);
    OneTick(w, At(w, t), t, t + 1);
  }

  /**
   * Bounded waiting: whatever arrives later, the process at position i >= 1 is at the front with
   * a whole turn ahead of it within remain + (i - 1) * 500 units.
   */
  lemma {:induction false} BoundedWaiting(w: seq<Job>, t: nat, i: nat) returns (u: nat)
    requires Positive(w) && 1 <= i < |At(w, t).queue|
    ensures t < u <= t + At(w, t).remain + (i - 1) * 500
    ensures At(w, u).queue != [] && At(w, u).queue[0] == At(w, t).queue[i]
    ensures At(w, t).remain <= 500 == At(w, u).remain
    decreases At(w, t).remain + (i - 1) * QUANTUM
  {
    OneUnitCloser(w, t, i);
    u := t + 1;
    var s, s' := At(w, t), At(w, u);
    if i < |s'.queue| && s'.queue[i] == s.queue[i] && s'.remain == s.remain - 1 {
      u := BoundedWaiting(w, u, i);
    } else if i > 1 {
      u := BoundedWaiting(w, u, i - 1);
    }
  }

  // ---------- Arrivals join last ----------

  /**
   * Whoever joins at clock c is behind everybody else in the queue, a process sent to the back at c
   * included, and those who join together are in ready order.
   */
  ghost predicate NewestLast(w: seq<Job>, s: State)
    requires Shape(w, s)
  {
    && (forall i :: 0 <= i < |s.queue| ==> w[s.queue[i]].ready <= s.clock)
    && (forall i, j :: 0 <= i < j < |s.queue| && w[s.queue[i]].ready == s.clock ==> s.queue[j] == s.queue[i] + (j - i))
  }

  /** Those in the queue who joined now are the last ones admitted. */
  ghost predicate JustJoined(w: seq<Job>, s: State)
    requires Shape(w, s)
  {
    forall i :: 0 <= i < |s.queue| && w[s.queue[i]].ready == s.clock ==> s.queue[i] + (|s.queue| - i) == s.next
  }

  lemma {:induction false} JoinNewestLast(w: seq<Job>, s: State)
    requires Shape(w, s) && NewestLast(w, s) && JustJoined(w, s) && s.next < |w| && w[s.next].ready == s.clock
    ensures Shape(w, Joined(s)) && NewestLast(w, Joined(s)) && JustJoined(w, Joined(s))
  {
  }

  lemma {:induction false} AdmitNewestLast(w: seq<Job>, s: State)
    requires Shape(w, s) && NewestLast(w, s) && JustJoined(w, s)
    ensures NewestLast(w, Admit(w, s))
    decreases |w| - s.next
  {
    if s.next < |w| && w[s.next].ready == s.clock {
      JoinNewestLast(w, s);
      AdmitNewestLast(w, Joined(s));
    }
  }

  /** Before anybody joins at a new clock value, everybody in the queue joined earlier. */
  lemma {:induction false} TickNewestLast(w: seq<Job>, s: State)
    requires Shape(w, s) && NewestLast(w, s)
    ensures Tick(w, s).clock == s.clock + 1 && NewestLast(w, Tick(w, s))
  {
    var r := if Busy(w, s) then RunFront(w, s, 1) else s.(clock := s.clock + 1);
    forall i | 0 <= i < |r.queue| ensures w[r.queue[i]].ready < r.clock {
      assert r.queue[i] in s.queue;
    }
    AdmitNewestLast(w, r);
  }

  lemma {:induction false} InitialNewestLast(w: seq<Job>)
    ensures At(w, 0).clock == 0 && NewestLast(w, At(w, 0))
  {
    AdmitNewestLast(w, Initial(w));
  }

  /** Arrivals join behind everybody who is there, at every clock value. */
  lemma {:induction false} ArrivalsJoinLast(w: seq<Job>, t: nat)
    ensures At(w, t).clock == t && NewestLast(w, At(w, t))
  {
    if t == 0 {
      InitialNewestLast(w);
    } else {
      ArrivalsJoinLast(w, t - 1);
      TickNewestLast(w, At(w, t - 1));
    }
  }

  // ---------- Turn accounting ----------

  /** Turns a process of execution time e takes: e / QUANTUM, rounded up. */
  function TurnsFor(e: nat): nat { (e + QUANTUM - 1) / QUANTUM }

  /** The least number of turns of 500 units that cover e. */
  lemma {:induction false} TurnsCover(e: nat)
    ensures e <= 500 * TurnsFor(e) < e + 500
  {
    assert (e + 499) / 500 * 500 + (e + 499) % 500 == e + 499;
  }

  /**
   * Every turn a process has ended while it still had work lasted exactly QUANTUM units, however
   * often arrivals interrupted it; the current turn has `remain` of its units to go; a finished
   * process took TurnsFor(exec) turns.
   */
  ghost predicate Accounted(w: seq<Job>, s: State)
    requires Shape(w, s)
  {
    && (forall i, j :: 0 <= i < j < |s.queue| ==> s.queue[i] != s.queue[j])
    && (forall i :: 1 <= i < |s.queue| ==>
          var q := s.queue[i];
          w[q].exec - s.rem[q] == QUANTUM * s.turns[q])
    && (s.queue == [] ==> s.remain == QUANTUM)
    && (s.queue != [] ==>
          var q := s.queue[0];
          0 <= w[q].exec - s.rem[q] == QUANTUM * (s.turns[q] + 1) - s.remain)
    && (forall p :: s.next <= p < |w| ==> s.rem[p] == w[p].exec && s.turns[p] == 0)
    && (forall p :: 0 <= p < s.next && p !in s.queue ==>
          s.rem[p] == 0 < w[p].exec && s.turns[p] == TurnsFor(w[p].exec))
  }

  lemma {:induction false} JoinAccounted(w: seq<Job>, s: State)
    requires Shape(w, s) && Accounted(w, s) && s.next < |w|
    ensures Accounted(w, Joined(s))
  {
    var j := Joined(s);
    forall i | 1 <= i < |j.queue| ensures w[j.queue[i]].exec - j.rem[j.queue[i]] == QUANTUM * j.turns[j.queue[i]] {
      if i < |s.queue| {
        assert j.queue[i] == s.queue[i];
      } else {
        assert j.queue[i] == s.next;
      }
    }
    forall p | 0 <= p < j.next && p !in j.queue ensures p < s.next && p !in s.queue {
      assert j.queue[|s.queue|] == s.next;
      assert forall i :: 0 <= i < |s.queue| ==> j.queue[i] == s.queue[i];
    }
  }

  lemma {:induction false} AdmitAccounted(w: seq<Job>, s: State)
    requires Shape(w, s) && Accounted(w, s)
    ensures Accounted(w, Admit(w, s))
    decreases |w| - s.next
  {
    if s.next < |w| && w[s.next].ready == s.clock {
      var j := Joined(s);
      JoinAccounted(w, s);
      AdmitAccounted(w, j);
      assert Admit(w, s) == Admit(w, j);
    } else {
      assert Admit(w, s) == s;
    }
  }

  /** What is true of a process that is not at the front, whatever happens there. */
  ghost predicate Rests(w: seq<Job>, s: State, p: nat)
    requires Shape(w, s) && p < |w|
  {
    if p in s.queue then w[p].exec - s.rem[p] == QUANTUM * s.turns[p]
    else if p >= s.next then s.rem[p] == w[p].exec && s.turns[p] == 0
    else s.rem[p] == 0 < w[p].exec && s.turns[p] == TurnsFor(w[p].exec)
  }

  lemma {:induction false} FinishAccounted(w: seq<Job>, s: State)
    requires Shape(w, s) && Accounted(w, s)
    requires s.queue != [] && 1 <= s.rem[s.queue[0]] <= s.remain
    ensures Accounted(w, RunFront(w, s, s.rem[s.queue[0]]))
  {
    var p := s.queue[0];
    var r := RunFront(w, s, s.rem[p]);
    assert r.queue == s.queue[1..] && p !in r.queue;
    assert r.turns[p] == TurnsFor(w[p].exec);
    forall q | 0 <= q < |w| ensures Rests(w, r, q) {
      if q != p {
        assert r.rem[q] == s.rem[q] && r.turns[q] == s.turns[q];
        assert q in s.queue <==> q in s.queue[1..];
      }
    }
    AllRest(w, r);
  }

  lemma {:induction false} AllRest(w: seq<Job>, r: State)
    requires Shape(w, r) && r.remain == QUANTUM && forall q :: 0 <= q < |w| ==> Rests(w, r, q)
    requires forall i, j :: 0 <= i < j < |r.queue| ==> r.queue[i] != r.queue[j]
    requires forall i :: 0 <= i < |r.queue| ==> r.rem[r.queue[i]] <= w[r.queue[i]].exec
    ensures Accounted(w, r)
  {
    forall i | 0 <= i < |r.queue| ensures w[r.queue[i]].exec - r.rem[r.queue[i]] == QUANTUM * r.turns[r.queue[i]] {
      assert Rests(w, r, r.queue[i]);
    }
    forall p | r.next <= p < |w| ensures r.rem[p] == w[p].exec && r.turns[p] == 0 {
      assert p !in r.queue && Rests(w, r, p);
    }
    forall p | 0 <= p < r.next && p !in r.queue
      ensures r.rem[p] == 0 < w[p].exec && r.turns[p] == TurnsFor(w[p].exec)
    {
      assert Rests(w, r, p);
    }
  }

  lemma {:induction false} RotatedQueue(q: seq<nat>)
    requires q != [] && forall i, j :: 0 <= i < j < |q| ==> q[i] != q[j]
    ensures var r := q[1..] + [q[0]];
            && (forall i, j :: 0 <= i < j < |r| ==> r[i] != r[j])
            && (forall p :: p in q <==> p in r)
  {
    assert q == [q[0]] + q[1..];
  }

  lemma {:induction false} RotateAccounted(w: seq<Job>, s: State)
    requires Shape(w, s) && Accounted(w, s)
    requires s.queue != [] && s.remain < s.rem[s.queue[0]]
    ensures Accounted(w, RunFront(w, s, s.remain))
  {
    var p := s.queue[0];
    var r := RunFront(w, s, s.remain);
    RotatedQueue(s.queue);
    forall q | 0 <= q < |w| ensures Rests(w, r, q) {
      assert q in s.queue <==> q in r.queue;
      if q != p {
        assert r.rem[q] == s.rem[q] && r.turns[q] == s.turns[q];
      }
    }
    AllRest(w, r);
  }

  lemma {:induction false} RunAccounted(w: seq<Job>, s: State, k: nat)
    requires Shape(w, s) && Accounted(w, s)
    requires s.queue != [] && 1 <= k <= s.rem[s.queue[0]] && k <= s.remain
    ensures Accounted(w, RunFront(w, s, k))
  {
    if k == s.rem[s.queue[0]] {
      FinishAccounted(w, s);
    } else if k == s.remain {
      RotateAccounted(w, s);
    }
  }

  lemma {:induction false} AccountedAlways(w: seq<Job>, t: nat)
    ensures Accounted(w, At(w, t))
  {
    if t == 0 {
      InitialAccounted(w);
      AdmitAccounted(w, Initial(w));
    } else {
      AccountedAlways(w, t - 1);
      TickAccounted(w, At(w, t - 1));
    }
  }

  /**
   * The accounts at every clock value, in units of time: every turn but the current one and the last
   * of a process took 500 units, the current one has used up 500 - remain of its 500, and a finished
   * process used 1 to 500 units of its last.
   */
  lemma {:induction false} TurnAccounting(w: seq<Job>, t: nat)
    ensures Accounted(w, At(w, t))
    ensures var s := At(w, t);
            && (s.queue == [] ==> s.remain == 500)
            && (s.queue != [] ==>
                  var q := s.queue[0];
                  1 <= s.remain <= 500 && 0 <= w[q].exec - s.rem[q] == 500 * (s.turns[q] + 1) - s.remain)
            && (forall i :: 1 <= i < |s.queue| ==> w[s.queue[i]].exec - s.rem[s.queue[i]] == 500 * s.turns[s.queue[i]])
            && (forall p :: 0 <= p < s.next && p !in s.queue ==>
                  s.rem[p] == 0 && 500 * (s.turns[p] - 1) < w[p].exec <= 500 * s.turns[p])
  {
    AccountedAlways(w, t);
    var s := At(w, t);
    forall p | 0 <= p < s.next && p !in s.queue ensures 500 * (s.turns[p] - 1) < w[p].exec <= 500 * s.turns[p] {
      TurnsCover(w[p].exec);
    }
  }

  lemma {:induction false} InitialAccounted(w: seq<Job>)
    ensures Accounted(w, Initial(w))
  {
  }

  lemma {:induction false} IdleAccounted(w: seq<Job>, s: State)
    requires Shape(w, s) && Accounted(w, s)
    ensures Accounted(w, s.(clock := s.clock + 1))
  {
  }

  lemma {:induction false} TickAccounted(w: seq<Job>, s: State)
    requires Shape(w, s) && Accounted(w, s)
    ensures Accounted(w, Tick(w, s))
  {
    if Busy(w, s) {
      var r := RunFront(w, s, 1);
      RunAccounted(w, s, 1);
      AdmitAccounted(w, r);
      assert Tick(w, s) == Admit(w, r);
    } else {
      var r := s.(clock := s.clock + 1);
      IdleAccounted(w, s);
      AdmitAccounted(w, r);
      assert Tick(w, s) == Admit(w, r);
    }
  }

  ghost function Sum(s: seq<nat>): nat {
    if s == [] then 0 else Sum(s[..|s| - 1]) + s[|s| - 1]
  }

  lemma {:induction false} SumUpdate(s: seq<nat>, i: nat, x: nat)
    requires i < |s|
    ensures Sum(s[i := x]) == Sum(s) - s[i] + x
  {
    var n := |s| - 1;
    if i == n {
      assert s[i := x][..n] == s[..n];
    } else {
      assert s[i := x][..n] == s[..n][i := x];
      SumUpdate(s[..n], i, x);
    }
  }

  lemma {:induction false} SumMonotone(s: seq<nat>, r: seq<nat>)
    requires |s| == |r| && forall i :: 0 <= i < |s| ==> s[i] <= r[i]
    ensures Sum(s) <= Sum(r)
  {
    if s != [] {
      SumMonotone(s[..|s| - 1], r[..|s| - 1]);
    }
  }

  ghost function TurnsNeeded(w: seq<Job>): seq<nat> {
    seq(|w|, i requires 0 <= i < |w| => TurnsFor(w[i].exec))
  }

  /** Nobody ever takes more turns than it needs. */
  lemma {:induction false} TurnsBounded(w: seq<Job>, s: State)
    requires Shape(w, s) && Accounted(w, s)
    ensures Sum(s.turns) <= Sum(TurnsNeeded(w))
  {
    forall p | 0 <= p < |w| ensures s.turns[p] <= TurnsNeeded(w)[p] {
      if p in s.queue {
        var i :| 0 <= i < |s.queue| && s.queue[i] == p;
        assert QUANTUM * s.turns[p] <= w[p].exec;
      }
    }
    SumMonotone(s.turns, TurnsNeeded(w));
  }
}
