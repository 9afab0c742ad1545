/** The circular doubly-linked ready list of the round-robin scheduler (prj1/rr.c:21-24, 86-111). */
module ReadyRing {

  class Node {
    const process: nat
    var next: Node
    var last: Node

    /** A node linked to itself. */
    constructor (process: nat)
      ensures this.process == process && next == this && last == this
    {
      this.process := process;
      next, last := this, this;
    }
  }

  /** The index after i, and the one before it, around a circle of n nodes. */
  ghost function After(i: nat, n: nat): int { if i + 1 < n then i + 1 else 0 }
  ghost function Before(i: nat, n: nat): int { if i == 0 then n - 1 else i - 1 }

  /** `next` and `last` are mutually inverse and run around one circle in which no node occurs twice. */
  ghost predicate Linked(nodes: seq<Node>)
    reads nodes
  {
    && (forall i, j :: 0 <= i < j < |nodes| ==> nodes[i] != nodes[j])
    && (forall i {:trigger nodes[i].next} :: 0 <= i < |nodes| ==> nodes[i].next == nodes[After(i, |nodes|)])
    && (forall i {:trigger nodes[i].last} :: 0 <= i < |nodes| ==> nodes[i].last == nodes[Before(i, |nodes|)])
  }

  /** The processes of a list of nodes. */
  ghost function Processes(nodes: seq<Node>): (q: seq<nat>)
    ensures |q| == |nodes| && forall i :: 0 <= i < |nodes| ==> q[i] == nodes[i].process
  {
    seq(|nodes|, i requires 0 <= i < |nodes| => nodes[i].process)
  }

  /** `job` is where the circle of nodes is entered; null when there is none. */
  ghost predicate Entry(job: Node?, nodes: seq<Node>) {
    (job == null <==> nodes == []) && (nodes != [] ==> job == nodes[0])
  }

  /** add_list: a new node just before the entry, which is the end of the list. */
  method AddList(job: Node?, p: nat, ghost nodes: seq<Node>) returns (r: Node, ghost added: Node)
    requires Linked(nodes) && Entry(job, nodes)
    modifies nodes
    ensures fresh(added) && added.process == p
    ensures Linked(nodes + [added]) && Entry(r, nodes + [added])
  {
    var newJob := new Node(p);
    added := newJob;
    if job == null {
      r := newJob;
    } else {
      assert nodes[0].last == nodes[|nodes| - 1];
      newJob.next := job;
      newJob.last := job.last;
      job.last.next := newJob;
      job.last := newJob;
      r := job;
    }
  }

  /** remove_list: the entry is unlinked; the list is entered at the node after it. */
  method RemoveList(job: Node, ghost nodes: seq<Node>) returns (r: Node?)
    requires Linked(nodes) && Entry(job, nodes)
    modifies nodes
    ensures Linked(nodes[1..]) && Entry(r, nodes[1..])
  {
    assert nodes[0].last == nodes[|nodes| - 1];
    assert nodes[0].next == if |nodes| == 1 then nodes[0] else nodes[1];
    if job.next == job {
      r := null;
    } else {
      job.next.last := job.last;
      job.last.next := job.next;
      r := job.next;
    }
  }

  /** Entering the circle one node later: the same links, read from another start. */
  lemma {:induction false} Rotated(nodes: seq<Node>)
    requires Linked(nodes) && nodes != []
    ensures Linked(nodes[1..] + [nodes[0]]) && Entry(nodes[0].next, nodes[1..] + [nodes[0]])
  {
    assert nodes[0].next == if |nodes| == 1 then nodes[0] else nodes[1];
    assert nodes[0].last == nodes[|nodes| - 1];
  }

  /** The ring seen from `cur_job`: a queue whose front is the current job. */
  class Ring {
    var cur: Node?
    ghost var nodes: seq<Node>
    ghost var queue: seq<nat>
    ghost var footprint: set<Node>

    ghost predicate Valid()
      reads this, footprint
    {
      && (forall i :: 0 <= i < |nodes| ==> nodes[i] in footprint)
      && Linked(nodes) && Entry(cur, nodes) && queue == Processes(nodes)
    }

    constructor ()
      ensures Valid() && queue == [] && footprint == {}
    {
      cur, nodes, queue, footprint := null, [], [], {};
    }

    /** The current job. */
    function Front(): (p: nat)
      requires Valid() && cur != null
      reads this, footprint
      ensures queue != [] && p == queue[0]
    {
      cur.process
    }

    method Add(p: nat)
      requires Valid()
      modifies this, footprint
      ensures Valid() && queue == old(queue) + [p]
      ensures old(footprint) <= footprint && fresh(footprint - old(footprint))
    {
      ghost var added;
      cur, added := AddList(cur, p, nodes);
      nodes, queue, footprint := nodes + [added], queue + [p], footprint + {added};
    }

    method Remove()
      requires Valid() && cur != null
      modifies this, footprint
      ensures Valid() && queue == old(queue)[1..]
      ensures footprint == old(footprint)
    {
      cur := RemoveList(cur, nodes);
      nodes, queue := nodes[1..], queue[1..];
    }

    /** `cur_job = cur_job->next`: the front of the queue goes to its end; no link changes. */
    method Advance()
      requires Valid() && cur != null
      modifies this
      ensures Valid() && queue == old(queue)[1..] + [old(queue)[0]]
      ensures footprint == old(footprint)
    {
      Rotated(nodes);
      cur := cur.next;
      nodes, queue := nodes[1..] + [nodes[0]], queue[1..] + [queue[0]];
    }
  }
}
