/** Workloads, and the clock value at which any scheduler that never idles needlessly is done with them. */
module Jobs {
  import opened Sorting

  datatype Job = Job(ready: nat, exec: nat)

  /** The execution times alone. */
  ghost function Execs(w: seq<Job>): (v: seq<nat>)
    ensures |v| == |w|
  {
    seq(|w|, i requires 0 <= i < |w| => w[i].exec)
  }

  function ReadyOf(j: Job): (r: int) { j.ready }

  ghost predicate ByReady(w: seq<Job>) {
    forall i, j :: 0 <= i < j < |w| ==> w[i].ready <= w[j].ready
  }

  /** Sorting by the comparator on ready times gives ready order. */
  lemma {:induction false} SortedByReady(w: seq<Job>)
    ensures Sorted(w, ReadyOf) <==> ByReady(w)
  {
    assert forall i :: 0 <= i < |w| ==> ReadyOf(w[i]) == w[i].ready;
  }

  function Max(a: int, b: int): int { if a < b then b else a }

  /** B_k: when the first k processes are served without needless idling, their work ends here. */
  function BusyUntil(w: seq<Job>, k: nat): nat
    requires k <= |w|
  {
    if k == 0 then 0 else Max(BusyUntil(w, k - 1), w[k - 1].ready) + w[k - 1].exec
  }

  /** Total execution time of processes j..k-1. */
  function Work(w: seq<Job>, j: nat, k: nat): nat
    requires j <= k <= |w|
  {
    if j == k then 0 else Work(w, j, k - 1) + w[k - 1].exec
  }

  /** The closed form of B_k: the maximum over j of r_j + e_j + ... + e_(k-1). */
  lemma {:induction false} BusyUntilClosedForm(w: seq<Job>, k: nat)
    requires k <= |w|
    ensures forall j :: 0 <= j < k ==> w[j].ready + Work(w, j, k) <= BusyUntil(w, k)
    ensures k > 0 ==> exists j :: 0 <= j < k && w[j].ready + Work(w, j, k) == BusyUntil(w, k)
  {
    if k > 0 {
      BusyUntilClosedForm(w, k - 1);
      assert Work(w, k - 1, k) == w[k - 1].exec;
      if k > 1 && BusyUntil(w, k - 1) >= w[k - 1].ready {
        var j :| 0 <= j < k - 1 && w[j].ready + Work(w, j, k - 1) == BusyUntil(w, k - 1);
        assert w[j].ready + Work(w, j, k) == BusyUntil(w, k);
      } else {
        assert w[k - 1].ready + Work(w, k - 1, k) == BusyUntil(w, k);
      }
    }
  }

  lemma {:induction false} BusyUntilMonotone(w: seq<Job>, j: nat, k: nat)
    requires j <= k <= |w|
    ensures BusyUntil(w, j) <= BusyUntil(w, k)
    ensures j < k ==> w[k - 1].ready <= BusyUntil(w, k)
    decreases k
  {
    if j < k {
      BusyUntilMonotone(w, j, k - 1);
    }
  }

  lemma {:induction false} ReadyBeforeEnd(w: seq<Job>, a: nat)
    requires a < |w|
    ensures w[a].ready <= BusyUntil(w, |w|)
  {
    BusyUntilMonotone(w, a, a + 1);
    BusyUntilMonotone(w, a + 1, |w|);
  }

  lemma {:induction false} BusyUntilPrefix(w: seq<Job>, v: seq<Job>, k: nat)
    requires k <= |w| && k <= |v| && w[..k] == v[..k]
    ensures BusyUntil(w, k) == BusyUntil(v, k)
  {
    if k > 0 {
      assert w[..k - 1] == w[..k][..k - 1] == v[..k][..k - 1] == v[..k - 1];
      assert w[k - 1] == w[..k][k - 1] == v[..k][k - 1] == v[k - 1];
      BusyUntilPrefix(w, v, k - 1);
    }
  }

  /** Within a group of equal ready times, moving one process to the end changes nothing. */
  lemma {:induction false} MoveToEnd(w: seq<Job>, j: nat)
    requires j < |w| && forall i :: j <= i < |w| ==> w[i].ready == w[j].ready
    ensures BusyUntil(w[..j] + w[j + 1..] + [w[j]], |w|) == BusyUntil(w, |w|)
    decreases |w| - j
  {
    if j == |w| - 1 {
      assert w[..j] + w[j + 1..] + [w[j]] == w;
    } else {
      var v := w[j := w[j + 1]][j + 1 := w[j]];
      BusyUntilPrefix(w, v, j);
      SwapKeeps(w, v, j, |w|);
      MoveToEnd(v, j + 1);
      assert v[..j + 1] + v[j + 2..] + [v[j + 1]] == w[..j] + w[j + 1..] + [w[j]];
    }
  }

  lemma {:induction false} SwapKeeps(w: seq<Job>, v: seq<Job>, j: nat, k: nat)
    requires j + 2 <= k <= |w| && v == w[j := w[j + 1]][j + 1 := w[j]]
    requires w[j].ready == w[j + 1].ready && BusyUntil(w, j) == BusyUntil(v, j)
    ensures BusyUntil(w, k) == BusyUntil(v, k)
  {
    if k > j + 2 {
      SwapKeeps(w, v, j, k - 1);
    } else {
      assert BusyUntil(w, j + 1) == Max(BusyUntil(w, j), w[j].ready) + w[j].exec;
      assert BusyUntil(v, j + 1) == Max(BusyUntil(v, j), v[j].ready) + v[j].exec;
    }
  }

  lemma {:induction false} BusyUntilLast(w: seq<Job>, x: Job)
    ensures BusyUntil(w + [x], |w| + 1) == Max(BusyUntil(w, |w|), x.ready) + x.exec
  {
    assert (w + [x])[..|w|] == w[..|w|];
    BusyUntilPrefix(w + [x], w, |w|);
  }

  /** The latest process of one ready order, found in another order of the same processes. */
  lemma {:induction false} LatestElsewhere(w: seq<Job>, v: seq<Job>) returns (j: nat)
    requires ByReady(w) && ByReady(v) && multiset(w) == multiset(v) && w != []
    ensures j < |v| == |w| && v[j] == w[|w| - 1]
    ensures forall i :: j <= i < |v| ==> v[i].ready == v[j].ready
  {
    SameElements(w, v);
    var x := w[|w| - 1];
    assert x in v;
    j :| 0 <= j < |v| && v[j] == x;
    forall i | j <= i < |v| ensures v[i].ready == x.ready {
      assert v[i] in w;
    }
  }

  /** However an unstable sort breaks ties, the finishing clock is the same. */
  lemma {:induction false} TiesDoNotMatter(w: seq<Job>, v: seq<Job>)
    requires ByReady(w) && ByReady(v) && multiset(w) == multiset(v)
    ensures |w| == |v| && BusyUntil(w, |w|) == BusyUntil(v, |v|)
    decreases |w|
  {
    if w == [] {
      SameElements(w, v);
    } else {
      var j := LatestElsewhere(w, v);
      var init, rest, x := w[..|w| - 1], v[..j] + v[j + 1..], v[j];
      DropBoth(w, v, j);
      TiesDoNotMatter(init, rest);
      MoveToEnd(v, j);
      BusyUntilLast(init, x);
      BusyUntilLast(rest, x);
      assert w == init + [x];
    }
  }

  /** The clock value at which a workload, given in any order, is finished. */
  function FinalClock(input: seq<Job>): nat {
    BusyUntil(Sort(input, ReadyOf), |input|)
  }

  lemma {:induction false} FinalClockOf(input: seq<Job>, w: seq<Job>)
    requires ByReady(w) && multiset(w) == multiset(input)
    ensures |w| == |input| && BusyUntil(w, |w|) == FinalClock(input)
  {
    SortedByReady(Sort(input, ReadyOf));
    TiesDoNotMatter(w, Sort(input, ReadyOf));
  }

  /** A bound a caller can compute without sorting: the latest ready time plus all the work. */
  lemma {:induction false} FinalClockBound(w: seq<Job>, latest: nat)
    requires ByReady(w) && forall i :: 0 <= i < |w| ==> w[i].ready <= latest
    ensures BusyUntil(w, |w|) <= latest + Work(w, 0, |w|)
  {
    BusyUntilClosedForm(w, |w|);
    if w != [] {
      var j :| 0 <= j < |w| && w[j].ready + Work(w, j, |w|) == BusyUntil(w, |w|);
      WorkSplit(w, j, |w|);
    }
  }

  lemma {:induction false} WorkSplit(w: seq<Job>, j: nat, k: nat)
    requires j <= k <= |w|
    ensures Work(w, 0, k) == Work(w, 0, j) + Work(w, j, k)
    decreases k
  {
    if j < k {
      WorkSplit(w, j, k - 1);
    }
  }

  /** The initial sort of every scheduler: some ready order of the processes. */
  method InReadyOrder(input: seq<Job>) returns (w: seq<Job>)
    ensures ByReady(w) && multiset(w) == multiset(input) && |w| == |input|
    ensures BusyUntil(w, |w|) == FinalClock(input)
  {
    w := Sort(input, ReadyOf);
    SortedByReady(w);
    FinalClockOf(input, w);
  }
}
