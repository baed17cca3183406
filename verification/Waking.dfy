/** Which nodes have a live worklist entry: in every state of the solver, all that were not
    visited with all of their members, except those that are still asleep. */
module Waking {
  import opened Constraints
  import opened ConstraintGraph
  import opened Propagation
  import opened Building

  // Every representative with members that it was not yet visited with, and with somewhere to
  // propagate them, has a live entry.
  ghost predicate AllQueued(g: Graph, q: Queue) {
    forall n: nat :: Waiting(g, n) && Outgoing(g, n) ==> Queued(g, q, n)
  }

  ghost predicate Waiting(g: Graph, n: nat) {
    IsRep(g.root, n) && Points(g, n) != Prev(g, n)
  }

  // When solving began, every representative with members had an outgoing constraint.
  ghost predicate AllOutgoing(b: Begun) {
    forall n: nat :: n < |b.nodes| && IsRep(b.root, n) && b.nodes[n].pointsTo != {} ==>
      b.nodes[n].copyTo + b.nodes[n].loadTo + b.nodes[n].storeFrom + b.nodes[n].gepTo != {}
  }

  // Between steps, a node that is waiting has a live entry if and only if it is not asleep; a
  // node that is asleep has no complex constraint.
  lemma QueuedUnlessAsleep(y: System, g: Graph, q: Queue, v: Visit, n: nat)
    requires Running(y, g, q, v, {}) && IsRep(g.root, n)
    ensures Waiting(g, n) ==> (Queued(g, q, n) <==> !Asleep(g, n))
    ensures Asleep(g, n) ==> Waiting(g, n) && CplxOf(g, n) == {}
  {
    hide Inv, WorkedOff, AllSettled, CplxOf;
  }

  // So a waiting node with an outgoing constraint lacks an entry if and only if it is asleep
  // and has got a copy edge in the meantime.
  lemma QueuedExactly(y: System, g: Graph, q: Queue, v: Visit)
    requires Running(y, g, q, v, {})
    ensures AllQueued(g, q) <==> forall n: nat :: IsRep(g.root, n) && Asleep(g, n) ==> CopyTo(g, n) == {}
  {
    hide Running, Asleep, Queued;
    forall n: nat | IsRep(g.root, n) ensures (Waiting(g, n) && Outgoing(g, n) ==> Queued(g, q, n)) <==> (Asleep(g, n) ==> CopyTo(g, n) == {}) {
      QueuedUnlessAsleep(y, g, q, v, n);
    }
  }

  // If every representative with members had an outgoing constraint when solving began, every
  // waiting node has a live entry in every state, whether it has outgoing constraints or not.
  lemma NoneAsleep(y: System, g: Graph, q: Queue, v: Visit, n: nat)
    requires Running(y, g, q, v, {}) && AllOutgoing(g.begun) && Waiting(g, n)
    ensures Queued(g, q, n)
  {
    QueuedUnlessAsleep(y, g, q, v, n);
    assert IsRep(g.begun.root, n) by { hide Inv, WorkedOff, AllSettled; }
  }

  // Adding the copy edge from a to b leaves a waiting with an outgoing constraint and without an
  // entry if and only if a was waiting without an entry before.
  lemma NewEdge(g: Graph, q: Queue, a: nat, b: nat)
    requires a < |g.nodes| && b < |g.nodes| && a != b && IsRep(g.root, a)
    ensures var h := g.(nodes := LinkAt(GrowAt(g.nodes, b, g.nodes[a].pointsTo), a, b));
      (Waiting(h, a) && Outgoing(h, a) && !Queued(h, q, a)) <==> (Waiting(g, a) && !Queued(g, q, a))
  {
    var h := g.(nodes := LinkAt(GrowAt(g.nodes, b, g.nodes[a].pointsTo), a, b));
    assert b in CopyTo(h, a) && Points(h, a) == Points(g, a) && Prev(h, a) == Prev(g, a) && Vtime(h, a) == Vtime(g, a);
  }
}
