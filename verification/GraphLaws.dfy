/**
 * What the calls on a graph come to over whole runs, told by the calls and their answers alone: which edges
 * are there, with which labels, and which types stay.
 */
module GraphLaws {
  import opened TenantIds
  import opened Digraph
  import opened GraphSpec

  // ----- edges -----

  /** The call was accepted and asks for the edge with this label. */
  predicate Says(c: Call, e: Edge, rel: string) {
    c.outcome == Ok &&
    match c.op
    case AddEdge(from, to, r) => e == (from, to) && rel == r
    case UpdateFromEntity(node, _, targets) => e.0 == node && e.1 in targets && rel == targets[e.1]
    case _ => false
  }

  /** The call takes the edge away: by name, with one of its ends, or by an update that no longer has it. */
  predicate Unlinks(c: Call, e: Edge) {
    match c.op
    case RemoveEdge(from, to) => e == (from, to)
    case RemoveNode(id) => id == e.0 || id == e.1
    case UpdateFromEntity(node, _, targets) => c.outcome == Ok && e.0 == node && e.1 !in targets
    case _ => false
  }

  predicate FailedUpdate(c: Call, node: NodeId) {
    c.op.UpdateFromEntity? && c.op.node == node && c.outcome != Ok
  }

  predicate Linked(v: View, e: Edge, rel: string) {
    e in v.edges && v.edges[e] == rel
  }

  lemma AddEdgeLinks(v: View, c: Call, v': View, e: Edge, rel: string)
    requires c.op.AddEdge? && Step(v, c.op, v', c.outcome)
    ensures Says(c, e, rel) ==> Linked(v', e, rel)
    ensures !(exists l :: Says(c, e, l)) ==> (Linked(v', e, rel) <==> Linked(v, e, rel))
  {
    hide CycleVerdict;
    var Call(AddEdge(f, t, put), r) := c;
    AddEdgeEffect(v, f, t, put, v', r);
    if r == Ok {
      assert Says(c, (f, t), put);
    }
  }

  /** One call: an edge is linked after it if the call says so, or if it was and the call says nothing else. */
  lemma StepLinksIff(v: View, c: Call, v': View, e: Edge, rel: string)
    requires Step(v, c.op, v', c.outcome) && !FailedUpdate(c, e.0)
    ensures Linked(v', e, rel)
       <==> Says(c, e, rel) || (Linked(v, e, rel) && !Unlinks(c, e) && forall l :: Says(c, e, l) ==> l == rel)
  {
    hide CycleVerdict, MicroSteps, AddEdgeTo, TypesGrow;
    match c.op
    case AddNode(id, typ) => AddNodeKeeps(v, id, typ);
    case RemoveNode(id) =>
    case AddEdge(from, to, put) =>
      AddEdgeLinks(v, c, v', e, rel);
      if l :| Says(c, e, l) {
        assert l == put && e == (from, to);
        AddEdgeLinks(v, c, v', e, l);
      }
    case RemoveEdge(from, to) =>
    case UpdateFromEntity(node, entity, targets) =>
      AddNodeKeeps(v, node, entity);
      if e.0 == node && e.1 in targets && c.outcome == Ok {
        assert Says(c, e, targets[e.1]);
      }
    case SetCycleCheckLimit(n) =>
  }

  lemma NothingIsLinked(mode: Mode, e: Edge, rel: string)
    ensures !Linked(Empty(mode), e, rel)
  {
  }

  /** Call `k` says the edge with this label, and no later call takes it back. */
  ghost predicate LastSaid(calls: seq<Call>, e: Edge, rel: string, k: int) {
    && 0 <= k < |calls| && Says(calls[k], e, rel)
    && forall m :: k < m < |calls| ==> !Unlinks(calls[m], e) && forall l :: Says(calls[m], e, l) ==> l == rel
  }

  /**
   * After any run from the empty graph an edge is there with a label exactly when some accepted call said so
   * and none has taken it back since, provided no entity update of its source failed.
   */
  lemma {:induction false} EdgeIsThereIff(views: seq<View>, calls: seq<Call>, mode: Mode, e: Edge, rel: string)
    requires IsRun(views, calls) && views[0] == Empty(mode)
    requires forall i :: 0 <= i < |calls| ==> !FailedUpdate(calls[i], e.0)
    ensures Linked(views[|calls|], e, rel) <==> exists k :: LastSaid(calls, e, rel, k)
  {
    hide Step, Says, Unlinks, FailedUpdate, Linked;
    if calls == [] {
      NothingIsLinked(mode, e, rel);
    } else {
      var n := |calls| - 1;
      var before := calls[..n];
      EdgeIsThereIff(views[..n + 1], before, mode, e, rel);
      StepLinksIff(views[n], calls[n], views[n + 1], e, rel);
      assert Says(calls[n], e, rel) ==> LastSaid(calls, e, rel, n);
      if k :| LastSaid(before, e, rel, k) {
        if !Unlinks(calls[n], e) && forall l :: Says(calls[n], e, l) ==> l == rel {
          assert LastSaid(calls, e, rel, k);
        }
      }
      if k :| LastSaid(calls, e, rel, k) {
        if k < n {
          assert LastSaid(before, e, rel, k);
        }
      }
    }
  }

  // ----- types -----

  predicate Settled(v: View, n: NodeId, typ: string) {
    n in v.types && v.types[n] == typ && typ != "" && typ != VODE
  }

  /** A node's type stays unless the node goes. */
  lemma StepKeepsType(v: View, c: Call, v': View, n: NodeId, typ: string)
    requires Step(v, c.op, v', c.outcome) && Settled(v, n, typ)
    ensures if c.op == RemoveNode(n) then n !in v'.types else Settled(v', n, typ)
  {
    hide CycleVerdict, MicroSteps, AddEdgeTo;
    if c.op.AddEdge? {
      AddEdgeEffect(v, c.op.from, c.op.to, c.op.rel, v', c.outcome);
    }
  }

  /** In every run a type, once a node has one, is the node's until the node is removed. */
  lemma {:induction false} TypeStaysUntilRemoved(views: seq<View>, calls: seq<Call>, n: NodeId, typ: string)
    requires IsRun(views, calls) && Settled(views[0], n, typ)
    requires forall i :: 0 <= i < |calls| ==> calls[i].op != RemoveNode(n)
    ensures Settled(views[|calls|], n, typ)
  {
    hide Step, Settled;
    if calls != [] {
      var k := |calls| - 1;
      TypeStaysUntilRemoved(views[..k + 1], calls[..k], n, typ);
      StepKeepsType(views[k], calls[k], views[k + 1], n, typ);
    }
  }

  /**
   * AddNode is refused over the type exactly when the node has settled on another one; then nothing changes.
   * An accepted AddNode leaves the node with the wanted type, unless a placeholder was asked for a settled
   * node or no type was given; other nodes keep theirs, and no edge changes.
   */
  lemma AddNodeAnswers(v: View, id: NodeId, typ: string, v': View, r: Outcome)
    requires Step(v, AddNode(id, typ), v', r)
    ensures r == ErrMalformedNodeId <==> Malformed(id)
    ensures r == ErrNodeTypeMismatch
       <==> !Malformed(id) && typ != "" && typ != VODE && exists t :: t != typ && Settled(v, id, t)
    ensures r in {Ok, ErrMalformedNodeId, ErrNodeTypeMismatch} && (r != Ok ==> v' == v)
    ensures r == Ok && typ != "" && typ != VODE ==> Settled(v', id, typ)
    ensures r == Ok ==> id in v'.types && (typ != "" ==> v'.types[id] != "") && v'.edges == v.edges
    ensures forall n :: n != id ==> (n in v'.types <==> n in v.types) && (n in v.types ==> v'.types[n] == v.types[n])
  {
    if r == ErrNodeTypeMismatch {
      assert Settled(v, id, v.types[id]);
    }
  }
}
