/**
 * The slice protocol between a scheduler and its children (prj1/child.c and the dispatch code of
 * the four schedulers), on one CPU under SCHED_FIFO (section 2.8.4 of the System Interfaces volume
 * of POSIX.1-2017): the head of the first non-empty priority list runs; a preempted process stays
 * at the head of its list; a process whose priority is set goes to the tail of its new list.
 *
 * The parent runs at 98, the child it has dispatched at 99, and a child that has yielded at 97; a
 * forked child inherits 98.
 */
module Protocol {

  datatype Proc = Parent | Kid(p: nat) | Nobody

  /** Where a child is in its loop: at scanf, counting off a slice, or gone. */
  datatype Phase = Unborn | AtRead | Counting(left: nat) | Exited | Reaped

  /** A child process, with the slices in its pipe that it has not read. */
  datatype Child = Child(phase: Phase, executionTime: int, priority: int, pipe: seq<nat>)

  /**
   * Where the parent is: free to fork or to write a slice; having written slice k to p and about
   * to raise its priority; about to wait for p; or asleep in wait.
   */
  datatype Pc = Command | Raise(p: nat, k: nat) | Wait(p: nat) | Asleep(p: nat)

  /** `left` is the parent's own remaining time for each process. */
  datatype State = State(kids: seq<Child>, left: seq<nat>, pc: Pc,
                         at99: seq<Proc>, at98: seq<Proc>, at97: seq<Proc>)

  function Runner(s: State): Proc {
    if s.at99 != [] then s.at99[0]
    else if s.at98 != [] then s.at98[0]
    else if s.at97 != [] then s.at97[0]
    else Nobody
  }

  function Without(q: seq<Proc>, x: Proc): (r: seq<Proc>)
    ensures forall y :: y in r <==> y in q && y != x
    ensures q != [] && q[0] != x ==> r != [] && r[0] == q[0]
    ensures |r| <= |q| && (x in q ==> |r| < |q|)
  {
    if q == [] then []
    else
      assert q == [q[0]] + q[1..];
      if q[0] == x then Without(q[1..], x) else [q[0]] + Without(q[1..], x)
  }

  /** Takes a process off every list. */
  function Off(s: State, x: Proc): State {
    s.(at99 := Without(s.at99, x), at98 := Without(s.at98, x), at97 := Without(s.at97, x))
  }

  /** Puts a process at the tail of the list of its priority. */
  function On(s: State, x: Proc, priority: int): State {
    if priority == 99 then s.(at99 := s.at99 + [x])
    else if priority == 98 then s.(at98 := s.at98 + [x])
    else s.(at97 := s.at97 + [x])
  }

  predicate Runnable(s: State, x: Proc) { x in s.at99 || x in s.at98 || x in s.at97 }

  // ---------- Steps of the parent ----------

  predicate CanFork(s: State, p: nat) {
    s.pc == Command && p < |s.kids| == |s.left| && s.kids[p].phase == Unborn
  }

  /** fork and exec: the child starts at scanf with its whole execution time. */
  function Fork(s: State, p: nat): State
    requires CanFork(s, p)
  {
    On(s.(kids := s.kids[p := Child(AtRead, s.left[p], 98, [])]), Kid(p), 98)
  }

  /** What every scheduler respects when it hands out a slice. */
  predicate CanWrite(s: State, p: nat, k: nat) {
    && s.pc == Command && p < |s.kids| == |s.left|
    && s.kids[p].phase != Unborn && s.kids[p].phase != Reaped
    && k <= s.left[p]
  }

  /** The slice goes into the pipe; a child asleep in scanf wakes up. */
  function Write(s: State, p: nat, k: nat): State
    requires CanWrite(s, p, k)
  {
    var c := s.kids[p];
    var t := s.(kids := s.kids[p := c.(pipe := c.pipe + [k])], pc := Raise(p, k));
    if c.phase == AtRead && !Runnable(s, Kid(p)) then On(t, Kid(p), c.priority) else t
  }

  predicate CanRaise(s: State) {
    s.pc.Raise? && s.pc.p < |s.kids| == |s.left| && s.pc.k <= s.left[s.pc.p]
  }

  /** The child gets priority 99; the parent waits if that was the last slice. */
  function RaisePriority(s: State): State
    requires CanRaise(s)
  {
    var p, rest := s.pc.p, s.left[s.pc.p] - s.pc.k;
    var t := s.(kids := s.kids[p := s.kids[p].(priority := 99)], left := s.left[p := rest],
                pc := if rest == 0 then Wait(p) else Command);
    if Runnable(s, Kid(p)) then On(Off(t, Kid(p)), Kid(p), 99) else t
  }

  /** wait finds the exited child z. */
  predicate CanReap(s: State, z: nat) {
    s.pc.Wait? && z < |s.kids| && s.kids[z].phase == Exited
  }

  function Reap(s: State, z: nat): State
    requires CanReap(s, z)
  {
    s.(kids := s.kids[z := s.kids[z].(phase := Reaped)], pc := Command)
  }

  /** A child that has been forked and not exited. */
  predicate Alive(c: Child) { c.phase.AtRead? || c.phase.Counting? }

  /** Nobody has exited yet, but somebody still may. */
  predicate MustSleep(s: State) {
    && s.pc.Wait?
    && (forall z :: 0 <= z < |s.kids| ==> s.kids[z].phase != Exited)
    && (exists z :: 0 <= z < |s.kids| && Alive(s.kids[z]))
  }

  function Sleep(s: State): State
    requires s.pc.Wait?
  {
    Off(s.(pc := Asleep(s.pc.p)), Parent)
  }

  /** With no child left wait fails at once, and the parent carries on. */
  predicate NoChild(s: State) {
    s.pc.Wait? && forall z :: 0 <= z < |s.kids| ==> s.kids[z].phase == Unborn || s.kids[z].phase == Reaped
  }

  function CarryOn(s: State): State { s.(pc := Command) }

  // ---------- Steps of a child (child.c:13-36) ----------

  function Run(s: State, p: nat): State
    requires p < |s.kids|
  {
    var c := s.kids[p];
    match c.phase
    case AtRead =>
      if c.pipe == [] then Off(s, Kid(p))
      else s.(kids := s.kids[p := c.(phase := Counting(c.pipe[0]), pipe := c.pipe[1..])])
    case Counting(j) =>
      if j > 0 then
        s.(kids := s.kids[p := c.(phase := Counting(j - 1), executionTime := c.executionTime - 1)])
      else if c.executionTime <= 0 then
        var t := Off(s.(kids := s.kids[p := c.(phase := Exited)]), Kid(p));
        if s.pc.Asleep? then On(t.(pc := Wait(s.pc.p)), Parent, 98) else t
      else On(Off(s.(kids := s.kids[p := c.(phase := AtRead, priority := 97)]), Kid(p)), Kid(p), 97)
    case _ => s
  }

  // ---------- Runs ----------

  ghost predicate ParentStep(s: State, s': State) {
    || (exists p :: CanFork(s, p) && s' == Fork(s, p))
    || (exists p, k :: CanWrite(s, p, k) && s' == Write(s, p, k))
    || (CanRaise(s) && s' == RaisePriority(s))
    || (exists z :: CanReap(s, z) && s' == Reap(s, z))
    || (MustSleep(s) && s' == Sleep(s))
    || (NoChild(s) && s' == CarryOn(s))
  }

  /** One step of whoever the kernel lets run. */
  ghost predicate Step(s: State, s': State) {
    match Runner(s)
    case Parent => ParentStep(s, s')
    case Kid(p) => p < |s.kids| && s' == Run(s, p)
    case Nobody => false
  }

  function Initial(exec: seq<nat>): State {
    State(seq(|exec|, _ => Child(Unborn, 0, 0, [])), exec, Command, [], [Parent], [])
  }

  ghost predicate IsRun(run: seq<State>, exec: seq<nat>) {
    run != [] && run[0] == Initial(exec) && forall i :: 0 < i < |run| ==> Step(run[i - 1], run[i])
  }

  // ---------- The invariant ----------

  /** A child that nobody is dispatching: asleep in the parent's eyes, with the parent's remaining time. */
  ghost predicate Parked(s: State, p: nat)
    requires p < |s.kids| == |s.left|
  {
    var c := s.kids[p];
    && c.phase == AtRead && c.executionTime == s.left[p]
    && c.pipe == (if s.pc.Raise? && s.pc.p == p then [s.pc.k] else [])
    && Kid(p) !in s.at99
    && (if c.priority == 98 then Kid(p) in s.at98 else c.priority == 97 && Kid(p) in s.at97)
  }

  /** The child that has been dispatched and not handed control back. */
  ghost predicate Dispatched(s: State, p: nat)
    requires p < |s.kids| == |s.left|
  {
    var c := s.kids[p];
    && s.at99 == [Kid(p)] && c.priority == 99 && Kid(p) !in s.at98 && Kid(p) !in s.at97
    && (if s.left[p] == 0 then s.pc == Wait(p) else s.pc == Command)
    && match c.phase
       case AtRead => |c.pipe| == 1 && c.executionTime == s.left[p] + c.pipe[0]
       case Counting(j) => c.pipe == [] && c.executionTime == s.left[p] + j
       case _ => false
  }

  /** Every child is accounted for by the parent's records. */
  ghost predicate Good(s: State, p: nat)
    requires p < |s.kids| == |s.left|
  {
    match s.kids[p].phase
    case Unborn => !Runnable(s, Kid(p)) && s.pc != Wait(p) && s.kids[p].priority == 0 && s.kids[p].pipe == []
    case Reaped => !Runnable(s, Kid(p)) && s.left[p] == 0 && s.pc != Wait(p) && s.kids[p].pipe == []
    case Exited => !Runnable(s, Kid(p)) && s.left[p] == 0 && s.pc == Wait(p) && s.at99 == [] && s.kids[p].pipe == []
    case _ => Dispatched(s, p) || (Parked(s, p) && s.pc != Wait(p))
  }

  ghost predicate Inv(s: State) {
    && |s.kids| == |s.left|
    && s.at98 != [] && s.at98[0] == Parent && !s.pc.Asleep?
    && (s.pc.Raise? ==> s.pc.p < |s.kids| && s.pc.k <= s.left[s.pc.p] && s.at99 == [] && s.kids[s.pc.p].phase == AtRead)
    && (s.pc.Wait? ==> s.pc.p < |s.kids|)
    && (forall x :: Runnable(s, x) ==> x == Parent || (x.Kid? && x.p < |s.kids|))
    && (s.at99 != [] ==> s.at99[0].Kid? && s.at99[0].p < |s.kids| && Dispatched(s, s.at99[0].p))
    && forall p :: 0 <= p < |s.kids| ==> Good(s, p)
  }

  lemma {:induction false} InitialInv(exec: seq<nat>)
    ensures Inv(Initial(exec))
  {
  }

  lemma {:induction false} ForkInv(s: State, p: nat)
    requires Inv(s) && Runner(s) == Parent && CanFork(s, p)
    ensures Inv(Fork(s, p))
  {
    var t := Fork(s, p);
    forall q | 0 <= q < |s.kids| ensures Good(t, q) {
      assert Good(s, q);
    }
  }

  lemma {:induction false} WriteInv(s: State, p: nat, k: nat)
    requires Inv(s) && Runner(s) == Parent && CanWrite(s, p, k)
    ensures Inv(Write(s, p, k))
  {
    var t := Write(s, p, k);
    assert Good(s, p);
    forall q | 0 <= q < |s.kids| ensures Good(t, q) {
      assert Good(s, q);
    }
  }

  lemma {:induction false} RaiseInv(s: State)
    requires Inv(s) && Runner(s) == Parent && CanRaise(s)
    ensures Inv(RaisePriority(s))
  {
    var t := RaisePriority(s);
    assert Good(s, s.pc.p);
    forall q | 0 <= q < |s.kids| ensures Good(t, q) {
      assert Good(s, q);
    }
  }

  lemma {:induction false} ReapInv(s: State, z: nat)
    requires Inv(s) && Runner(s) == Parent && CanReap(s, z)
    ensures Inv(Reap(s, z)) && s.pc == Wait(z)
  {
    var t := Reap(s, z);
    assert Good(s, z);
    forall q | 0 <= q < |s.kids| ensures Good(t, q) {
      assert Good(s, q);
    }
  }

  lemma {:induction false} RunInv(s: State, p: nat)
    requires Inv(s) && Runner(s) == Kid(p)
    ensures p < |s.kids| && Inv(Run(s, p))
  {
    var t := Run(s, p);
    assert Good(s, p);
    assert s.at99 == [Kid(p)] && |Without(s.at99, Kid(p))| == 0;
    forall q | 0 <= q < |s.kids| ensures Good(t, q) {
      assert Good(s, q);
    }
  }

  lemma {:induction false} StepInv(s: State, s': State)
    requires Inv(s) && Step(s, s')
    ensures Inv(s')
  {
    match Runner(s)
    case Parent =>
      if p :| CanFork(s, p) && s' == Fork(s, p) {
        ForkInv(s, p);
      } else if p, k :| CanWrite(s, p, k) && s' == Write(s, p, k) {
        WriteInv(s, p, k);
      } else if CanRaise(s) && s' == RaisePriority(s) {
        RaiseInv(s);
      } else if z :| CanReap(s, z) && s' == Reap(s, z) {
        ReapInv(s, z);
      } else {
        WaitFinds(s);
        assert false;
      }
    case Kid(p) => RunInv(s, p);
  }

  /** When the parent comes to wait, exactly the child it dispatched last has exited: it never sleeps. */
  lemma {:induction false} WaitFinds(s: State)
    requires Inv(s) && Runner(s) == Parent && s.pc.Wait?
    ensures s.kids[s.pc.p].phase == Exited
    ensures forall z :: 0 <= z < |s.kids| && s.kids[z].phase == Exited ==> z == s.pc.p
    ensures !MustSleep(s) && !NoChild(s)
  {
    assert Good(s, s.pc.p);
    forall z | 0 <= z < |s.kids| && s.kids[z].phase == Exited ensures z == s.pc.p {
      assert Good(s, z);
    }
  }

  /** A live child at priority 99. */
  ghost predicate Foremost(c: Child) { Alive(c) && c.priority == 99 }

  /** When the parent is free to act, every live child is where the parent's records say. */
  ghost predicate InAgreement(s: State) {
    |s.kids| == |s.left| &&
    forall p :: 0 <= p < |s.kids| ==>
      var c := s.kids[p];
      && c.phase != Exited && !c.phase.Counting?
      && (c.phase == AtRead ==> c.executionTime == s.left[p] && c.pipe == [] && c.priority != 99)
  }

  /** What the protocol guarantees at every moment. */
  ghost predicate Safe(s: State) {
    && |s.kids| == |s.left| && !s.pc.Asleep?
    && (Runner(s) == Parent && s.pc == Command ==> InAgreement(s))
    && (Runner(s) == Parent && s.pc.Wait? ==> s.pc.p < |s.kids| && s.kids[s.pc.p].phase == Exited)
    && (forall p :: 0 <= p < |s.kids| ==> |s.kids[p].pipe| <= 1)
    && (forall p :: 0 <= p < |s.kids| && s.kids[p].phase == Exited ==> s.pc == Wait(p))
    && (forall p, q :: 0 <= p < |s.kids| && 0 <= q < |s.kids| && Foremost(s.kids[p]) && Foremost(s.kids[q]) ==> p == q)
    && (forall p: nat :: Runner(s) == Kid(p) ==> p < |s.kids| && s.kids[p].priority == 99)
  }

  lemma {:induction false} InvIsSafe(s: State)
    requires Inv(s)
    ensures Safe(s)
  {
    forall p | 0 <= p < |s.kids|
      ensures |s.kids[p].pipe| <= 1
      ensures s.kids[p].phase == Exited ==> s.pc == Wait(p)
      ensures Foremost(s.kids[p]) ==> s.at99 == [Kid(p)]
      ensures Runner(s) == Parent && s.pc == Command ==>
                var c := s.kids[p];
                && c.phase != Exited && !c.phase.Counting?
                && (c.phase == AtRead ==> c.executionTime == s.left[p] && c.pipe == [] && c.priority != 99)
    {
      assert Good(s, p);
    }
    if Runner(s) == Parent && s.pc.Wait? {
      WaitFinds(s);
    }
  }

  /** In every run of parent and children, whatever the parent forks and hands out in whatever order. */
  lemma {:induction false} RunsAreSafe(run: seq<State>, exec: seq<nat>, i: nat)
    requires IsRun(run, exec) && i < |run|
    ensures Inv(run[i]) && Safe(run[i])
  {
    if i == 0 {
      InitialInv(exec);
    } else {
      RunsAreSafe(run, exec, i - 1);
      StepInv(run[i - 1], run[i]);
    }
    InvIsSafe(run[i]);
  }

  // ---------- Priorities ----------

  /** A fork gives a child priority 98, a dispatch 99 and the end of a slice 97; nothing else changes it. */
  ghost predicate Ages(c: Child, c': Child) {
    && (c.phase.Counting? ==> c.priority == 99)
    && (|| (c'.priority == c.priority && (c'.phase == AtRead ==> c.phase == AtRead))
        || (c.phase == Unborn && c.priority == 0 && c'.phase == AtRead && c'.priority == 98)
        || (c.phase == AtRead && c'.phase == AtRead && c'.priority == 99)
        || (c.phase.Counting? && c'.phase == AtRead && c'.priority == 97))
  }

  lemma {:induction false} StepAges(s: State, s': State, p: nat)
    requires Inv(s) && Step(s, s') && p < |s.kids|
    ensures |s'.kids| == |s.kids| && Ages(s.kids[p], s'.kids[p])
  {
    assert Good(s, p);
  }

  /** Child p has been counting off a slice before state i. */
  ghost predicate HasRun(run: seq<State>, i: nat, p: nat) {
    exists j :: 0 <= j < i <= |run| && p < |run[j].kids| && run[j].kids[p].phase.Counting?
  }

  lemma {:induction false} HasRunSnoc(run: seq<State>, i: nat, p: nat)
    requires i < |run| && p < |run[i].kids|
    ensures HasRun(run, i + 1, p) <==> HasRun(run, i, p) || run[i].kids[p].phase.Counting?
  {
  }

  /** The priority of a child says whether it has run, unless it is dispatched. */
  ghost predicate Marked(c: Child, ran: bool) {
    && (c.priority == 97 ==> ran)
    && (ran ==> c.priority == 97 || c.priority == 99)
    && (c.phase == AtRead && c.priority != 99 ==> c.priority == if ran then 97 else 98)
  }

  lemma {:induction false} AgesMarked(c: Child, c': Child, ran: bool)
    requires Marked(c, ran) && Ages(c, c')
    ensures Marked(c', ran || c.phase.Counting?)
  {
  }

  /**
   * In every run a child is at 97 only after it has run, and at scanf it is at 98, the priority it has
   * inherited, as long as it has not.
   */
  lemma {:induction false} PriorityTellsHistory(run: seq<State>, exec: seq<nat>, i: nat, p: nat)
    requires IsRun(run, exec) && i < |run| && p < |exec|
    ensures |run[i].kids| == |exec|
    ensures run[i].kids[p].priority == 97 ==> HasRun(run, i, p)
    ensures run[i].kids[p].phase == AtRead && run[i].kids[p].priority != 99 ==>
              run[i].kids[p].priority == if HasRun(run, i, p) then 97 else 98
  {
    MarkedAlways(run, exec, i, p);
  }

  lemma {:induction false} MarkedAlways(run: seq<State>, exec: seq<nat>, i: nat, p: nat)
    requires IsRun(run, exec) && i < |run| && p < |exec|
    ensures |run[i].kids| == |exec| && Marked(run[i].kids[p], HasRun(run, i, p))
  {
    if i > 0 {
      var j := i - 1;
      MarkedAlways(run, exec, j, p);
      RunsAreSafe(run, exec, j);
      StepAges(run[j], run[i], p);
      HasRunSnoc(run, j, p);
      AgesMarked(run[j].kids[p], run[i].kids[p], HasRun(run, j, p));
    }
  }

  /** A child that has counted off a slice and has this much left. */
  function Yielded(left: nat): Child { Child(AtRead, left, 97, []) }

  /** A child exits on the slice after which the parent waits for it, and on no other. */
  lemma {:induction false} ExitsOnLastSlice(s: State, p: nat)
    requires Inv(s) && Runner(s) == Kid(p) && p < |s.kids|
    ensures s.kids[p].phase == Counting(0) ==>
              (Run(s, p).kids[p].phase == Exited <==> s.pc == Wait(p) && s.left[p] == 0)
              && (s.left[p] > 0 ==> Run(s, p).kids[p] == Yielded(s.left[p]) && Kid(p) in Run(s, p).at97)
    ensures s.kids[p].phase != Counting(0) ==> Run(s, p).kids[p].phase.Counting?
  {
    assert Good(s, p);
  }

  // ---------- Getting control back ----------

  /** Steps the dispatched child still takes before the parent runs again. */
  ghost function StepsLeft(s: State): nat
    requires Inv(s)
  {
    if s.at99 == [] then 0
    else
      var c := s.kids[s.at99[0].p];
      match c.phase
      case AtRead => c.pipe[0] + 2
      case Counting(j) => j + 1
      case _ => 0
  }

  /** Every step of the dispatched child brings the parent's turn closer by exactly one. */
  lemma {:induction false} CountsDown(s: State, p: nat)
    requires Inv(s) && Runner(s) == Kid(p) && p < |s.kids|
    ensures Inv(Run(s, p)) && StepsLeft(Run(s, p)) == StepsLeft(s) - 1
    ensures Run(s, p).left == s.left && Run(s, p).pc == s.pc
    ensures forall q :: 0 <= q < |s.kids| && q != p ==> Run(s, p).kids[q] == s.kids[q]
    ensures Run(s, p).at99 == s.at99
            || (Run(s, p).at99 == []
                && if s.left[p] == 0 then Run(s, p).kids[p].phase == Exited else Run(s, p).kids[p] == Yielded(s.left[p]))
  {
    RunInv(s, p);
    assert Good(s, p);
    assert s.at99 == [Kid(p)] && |Without(s.at99, Kid(p))| == 0;
  }

  /** A run from s to t. */
  ghost predicate Path(run: seq<State>, s: State, t: State) {
    run != [] && run[0] == s && run[|run| - 1] == t && Linked(run)
  }

  ghost predicate Linked(run: seq<State>) { forall i :: 0 < i < |run| ==> Step(run[i - 1], run[i]) }

  lemma {:induction false} PathOn(a: seq<State>, b: seq<State>, s: State, t: State, u: State)
    requires Path(a, s, t) && Path(b, t, u)
    ensures Path(a + b[1..], s, u)
  {
    var c := a + b[1..];
    forall i | 0 < i < |c| ensures Step(c[i - 1], c[i]) {
      if i >= |a| {
        assert c[i] == b[i - |a| + 1] && c[i - 1] == b[i - |a|];
      }
    }
  }

  /** Three runs in a row; the second ends at index m. */
  lemma {:induction false} PathVia(a: seq<State>, b: seq<State>, c: seq<State>, s: State, t: State, u: State, v: State)
    returns (run: seq<State>, m: nat)
    requires Path(a, s, t) && Path(b, t, u) && Path(c, u, v)
    ensures Path(run, s, v) && |a| <= m + 1 <= |run| && run[..|a|] == a && run[m] == u
  {
    var ab := a + b[1..];
    PathOn(a, b, s, t, u);
    run, m := ab + c[1..], |ab| - 1;
    PathOn(ab, c, s, u, v);
  }

  lemma {:induction false} OneStep(s: State, t: State)
    requires Step(s, t)
    ensures Path([s, t], s, t)
  {
  }

  /** The dispatched child runs its slice to the end and gives control back. */
  lemma {:induction false} SliceRuns(s: State, p: nat) returns (t: State, run: seq<State>)
    requires Inv(s) && s.at99 == [Kid(p)] && p < |s.kids|
    ensures Inv(t) && Path(run, s, t) && |run| == StepsLeft(s) + 1 && t.at99 == []
    ensures t.left == s.left && t.pc == s.pc && |t.kids| == |s.kids|
    ensures if t.left[p] == 0 then t.kids[p].phase == Exited else t.kids[p] == Yielded(t.left[p])
    ensures forall q :: 0 <= q < |s.kids| && q != p ==> t.kids[q] == s.kids[q]
    decreases StepsLeft(s)
  {
    CountsDown(s, p);
    var u := Run(s, p);
    OneStep(s, u);
    if u.at99 == [] {
      t, run := u, [s, u];
    } else {
      var rest;
      t, rest := SliceRuns(u, p);
      PathOn([s, u], rest, s, u, t);
      run := [s, u] + rest[1..];
    }
  }

  /** The parent is free, and nobody is being dispatched. */
  ghost predicate Free(s: State) { Inv(s) && s.at99 == [] && s.pc == Command }

  lemma {:induction false} WriteStep(s: State, p: nat, k: nat) returns (t: State)
    requires Free(s) && CanWrite(s, p, k)
    ensures Inv(t) && CanRaise(t) && Path([s, t], s, t) && t.at99 == [] && Runnable(t, Kid(p))
    ensures t.pc == Raise(p, k) && t.left == s.left && |t.kids| == |s.kids|
    ensures forall q :: 0 <= q < |s.kids| && q != p ==> t.kids[q] == s.kids[q]
  {
    t := Write(s, p, k);
    WriteInv(s, p, k);
    assert Good(s, p);
    OneStep(s, t);
  }

  lemma {:induction false} RaiseStep(s: State, p: nat, k: nat) returns (t: State)
    requires Inv(s) && s.at99 == [] && s.pc == Raise(p, k) && CanRaise(s) && Runnable(s, Kid(p))
    ensures Inv(t) && Path([s, t], s, t) && t.at99 == [Kid(p)]
    ensures t.left == s.left[p := s.left[p] - k] && t.pc == if t.left[p] == 0 then Wait(p) else Command
    ensures |t.kids| == |s.kids| && forall q :: 0 <= q < |s.kids| && q != p ==> t.kids[q] == s.kids[q]
  {
    t := RaisePriority(s);
    RaiseInv(s);
    OneStep(s, t);
  }

  /** Writing a slice and raising the child's priority, the two steps of a dispatch. */
  lemma {:induction false} Hand(s: State, p: nat, k: nat) returns (t: State, run: seq<State>)
    requires Free(s) && CanWrite(s, p, k)
    ensures Inv(t) && Path(run, s, t) && t.at99 == [Kid(p)] && |t.kids| == |s.kids|
    ensures t.left == s.left[p := s.left[p] - k] && t.pc == if t.left[p] == 0 then Wait(p) else Command
    ensures forall q :: 0 <= q < |s.kids| && q != p ==> t.kids[q] == s.kids[q]
  {
    var u := WriteStep(s, p, k);
    t := RaiseStep(u, p, k);
    run := [s, u] + [u, t][1..];
    PathOn([s, u], [u, t], s, u, t);
  }

  /** The parent waits for a child that has used up its time. */
  lemma {:induction false} Collect(s: State, p: nat) returns (t: State)
    requires Inv(s) && s.at99 == [] && s.pc == Wait(p)
    ensures Free(t) && Path([s, t], s, t) && t.left == s.left && |t.kids| == |s.kids| && p < |s.kids|
    ensures t.kids[p].phase == Reaped && forall q :: 0 <= q < |s.kids| && q != p ==> t.kids[q] == s.kids[q]
  {
    WaitFinds(s);
    t := Reap(s, p);
    ReapInv(s, p);
    OneStep(s, t);
  }

  /**
   * A whole dispatch: slice, count-down, and the wait if nothing is left. The parent is free again
   * with its record reduced by the slice; the child is gone exactly if that record is 0.
   */
  lemma {:induction false} DispatchRuns(s: State, p: nat, k: nat) returns (t: State, run: seq<State>)
    requires Free(s) && CanWrite(s, p, k)
    ensures Free(t) && Path(run, s, t) && |t.kids| == |s.kids|
    ensures t.left == s.left[p := s.left[p] - k]
    ensures if t.left[p] == 0 then t.kids[p].phase == Reaped else t.kids[p] == Yielded(t.left[p])
    ensures forall q :: 0 <= q < |s.kids| && q != p ==> t.kids[q] == s.kids[q]
  {
    var h, a := Hand(s, p, k);
    var r, b := SliceRuns(h, p);
    PathOn(a, b, s, h, r);
    run := a + b[1..];
    t := r;
    assert Good(r, p);
    if r.pc.Wait? {
      t := Collect(r, p);
      PathOn(run, [r, t], s, r, t);
      run := run + [r, t][1..];
    }
  }

  // ---------- The priority lists ----------

  lemma {:induction false} WithoutAbsent(q: seq<Proc>, x: Proc)
    requires x !in q
    ensures Without(q, x) == q
  {
    if q != [] {
      WithoutAbsent(q[1..], x);
    }
  }

  /** Taking somebody off a list leaves the others in their order. */
  lemma {:induction false} WithoutKeepsOrder(a: seq<Proc>, x: Proc, b: seq<Proc>)
    requires x !in a && x !in b
    ensures Without(a + [x] + b, x) == a + b
  {
    var q := a + [x] + b;
    if a == [] {
      assert q[1..] == b && a + b == b;
      WithoutAbsent(b, x);
    } else {
      assert q[1..] == a[1..] + [x] + b && a + b == [a[0]] + (a[1..] + b);
      WithoutKeepsOrder(a[1..], x, b);
    }
  }

  /** A free parent may fork any child; it joins the tail of the list of 98, behind the parent. */
  lemma {:induction false} ForkStep(s: State, p: nat) returns (t: State)
    requires Free(s) && p < |s.kids| && s.kids[p].phase == Unborn
    ensures Free(t) && Path([s, t], s, t)
    ensures t.kids == s.kids[p := Child(AtRead, s.left[p], 98, [])] && t.left == s.left
    ensures t.at98 == s.at98 + [Kid(p)] && t.at97 == s.at97
  {
    t := Fork(s, p);
    ForkInv(s, p);
    OneStep(s, t);
  }

  /** A raised child is alone at 99; those it leaves behind keep their order. */
  lemma {:induction false} RaiseKeepsOrder(s: State, p: nat, a: seq<Proc>, b: seq<Proc>)
    requires CanRaise(s) && p == s.pc.p && s.at99 == [] && Kid(p) !in a && Kid(p) !in b
    ensures s.at98 == a + [Kid(p)] + b && Kid(p) !in s.at97 ==>
              RaisePriority(s).at99 == [Kid(p)] && RaisePriority(s).at98 == a + b && RaisePriority(s).at97 == s.at97
    ensures s.at97 == a + [Kid(p)] + b && Kid(p) !in s.at98 ==>
              RaisePriority(s).at99 == [Kid(p)] && RaisePriority(s).at98 == s.at98 && RaisePriority(s).at97 == a + b
  {
    WithoutKeepsOrder(a, Kid(p), b);
    if Kid(p) !in s.at97 {
      WithoutAbsent(s.at97, Kid(p));
    }
    if Kid(p) !in s.at98 {
      WithoutAbsent(s.at98, Kid(p));
    }
  }

  /** A child that yields joins the tail of the list of 97. */
  lemma {:induction false} YieldJoinsTail(s: State, p: nat)
    requires Inv(s) && Runner(s) == Kid(p) && p < |s.kids| && s.kids[p].phase == Counting(0) && s.left[p] > 0
    ensures Run(s, p).at97 == s.at97 + [Kid(p)] && Run(s, p).at98 == s.at98 && Run(s, p).at99 == []
  {
    assert Good(s, p);
    WithoutAbsent(s.at97, Kid(p));
    WithoutAbsent(s.at98, Kid(p));
    assert s.at99 == [Kid(p)] && |Without(s.at99, Kid(p))| == 0;
  }

  // ---------- Sleeping and waking, whether or not a run comes to it ----------

  /** A slice wakes a child that is asleep in scanf. */
  lemma {:induction false} SliceWakesChild(s: State, p: nat, k: nat)
    requires CanWrite(s, p, k) && s.kids[p].phase == AtRead && !Runnable(s, Kid(p)) && 97 <= s.kids[p].priority <= 99
    ensures var t := Write(s, p, k);
            && t.kids[p].pipe == s.kids[p].pipe + [k]
            && match s.kids[p].priority
               case 99 => t.at99 == s.at99 + [Kid(p)]
               case 98 => t.at98 == s.at98 + [Kid(p)]
               case _ => t.at97 == s.at97 + [Kid(p)]
  {
  }

  /** A child that exits wakes a parent asleep in wait, which then finds it. */
  lemma {:induction false} ExitWakesParent(s: State, p: nat, q: nat)
    requires s.pc == Asleep(q) && p < |s.kids| && s.kids[p].phase == Counting(0) && s.kids[p].executionTime <= 0
    ensures var t := Run(s, p);
            && CanReap(t, p) && Reap(t, p).pc == Command && !MustSleep(t)
            && t.at98 == Without(s.at98, Kid(p)) + [Parent] && !Runnable(Off(t, Parent), Kid(p))
  {
  }

  /** With no child to wait for, the wait is over at once. */
  lemma {:induction false} WaitWithoutChildReturns(s: State, p: nat, t: State)
    requires Runner(s) == Parent && s.pc == Wait(p)
    requires forall z :: 0 <= z < |s.kids| ==> s.kids[z].phase == Unborn || s.kids[z].phase == Reaped
    ensures Step(s, t) <==> t == s.(pc := Command)
  {
    assert NoChild(s);
  }

  // ---------- A wait without a dispatch ----------

  /** Every child on the lists is about to read an empty pipe. */
  ghost predicate AllIdle(s: State) {
    && s.at99 == []
    && forall x :: Runnable(s, x) ==>
         x.Kid? && x.p < |s.kids| && s.kids[x.p].phase == AtRead && s.kids[x.p].pipe == []
  }

  lemma {:induction false} Drains(s: State) returns (t: State, run: seq<State>)
    requires AllIdle(s)
    ensures Path(run, s, t) && Runner(t) == Nobody && t.pc == s.pc && t.kids == s.kids
    decreases |s.at98| + |s.at97|
  {
    if s.at98 == [] && s.at97 == [] {
      t, run := s, [s];
    } else {
      var x := Runner(s);
      assert Runnable(s, x);
      var u := Run(s, x.p);
      assert x in s.at98 || x in s.at97;
      OneStep(s, u);
      var rest;
      t, rest := Drains(u);
      PathOn([s, u], rest, s, u, t);
      run := [s, u] + rest[1..];
    }
  }

  /**
   * Waiting for a live child without having dispatched anybody (which prj1/rr.c does for a process
   * with nothing to run) is a deadlock: the parent sleeps, every child goes to sleep in scanf, and
   * then nobody can take a step, ever.
   */
  lemma {:induction false} WaitWithoutDispatchDeadlocks(s: State, p: nat) returns (t: State, run: seq<State>)
    requires Free(s) && p < |s.kids| && s.kids[p].phase == AtRead
    ensures Path(run, s.(pc := Wait(p)), t) && t.pc == Asleep(p) && t.kids == s.kids
    ensures Runner(t) == Nobody && forall u :: !Step(t, u)
  {
    var a := s.(pc := Wait(p));
    forall z | 0 <= z < |s.kids| ensures s.kids[z].phase != Exited {
      assert Good(s, z);
    }
    assert Alive(a.kids[p]);
    var b := Sleep(a);
    assert Step(a, b);
    forall x | Runnable(b, x)
      ensures x.Kid? && x.p < |b.kids| && b.kids[x.p].phase == AtRead && b.kids[x.p].pipe == []
    {
      assert Runnable(s, x) && Good(s, x.p);
    }
    OneStep(a, b);
    var rest;
    t, rest := Drains(b);
    PathOn([a, b], rest, a, b, t);
    run := [a, b] + rest[1..];
  }
}
