/** The in-memory graph: one record per node, plus the maps that every mutator must keep in step. */
module FlatGraphs {
  import opened Basics
  import opened TenantIds
  import opened Digraph
  import opened GroupedBooks
  import opened GraphSpec
  import opened GraphRecords
  import opened GraphSearch
  import opened GraphSnapshot

  class FlatGraph {
    var nodes: Records
    var index: map<string, set<NodeId>>
    var tenantNodes: map<string, set<NodeId>>
    var edgeCount: int
    var nodeCounters: map<string, int>
    var edgeCounters: map<string, int>
    var vodeCounters: map<string, int>
    var cycleDetection: Mode
    var cycleCheckLimit: int
    ghost var view: View

    /** Every redundant field agrees with the graph being represented. */
    ghost predicate InStep()
      reads this
    {
      && Mirrors(nodes, view)
      && NodeBooks(view.types, index, tenantNodes, nodeCounters, vodeCounters)
      && EdgeBooks(view.edges, edgeCount, edgeCounters)
      && cycleDetection == view.mode && cycleCheckLimit == view.limit
    }

    ghost predicate Valid()
      reads this
    {
      InStep() && WellFormed(view)
    }

    lemma NodeFacts()
      requires Valid()
      ensures nodes.Keys == view.types.Keys
      ensures forall n :: n in nodes ==> nodes[n].typ == view.types[n]
      ensures cycleDetection == view.mode && cycleCheckLimit == view.limit
    {
    }

    constructor (mode: Mode)
      ensures Valid() && view == Empty(mode)
    {
      nodes, index, tenantNodes := map[], map[], map[];
      edgeCount, nodeCounters, edgeCounters, vodeCounters := 0, map[], map[], map[];
      cycleDetection, cycleCheckLimit := mode, DEFAULT_CYCLE_CHECK_LIMIT;
      view := Empty(mode);
      new;
      assert forall k: string :: Group(view.types.Keys, NodeIdPrefix, k) == {};
      assert forall k: string :: Group(Vodes(view.types), NodeIdPrefix, k) == {};
      assert forall k: string :: Group(Typed(view.types), TypeKey(view.types), k) == {};
      assert forall k: string :: Group(view.edges.Keys, EdgePrefix, k) == {};
    }

    method SetCycleCheckLimit(n: int)
      requires Valid()
      modifies this
      ensures Valid()
      ensures Step(old(view), Op.SetCycleCheckLimit(n), view, Ok)
    {
      var limit := n;
      if limit <= 0 {
        limit := DEFAULT_CYCLE_CHECK_LIMIT;
      }
      cycleCheckLimit := limit;
      view := view.(limit := limit);
    }

    /** The creating half of addNodeLocked. */
    method CreateNode(id: NodeId)
      requires Valid() && id !in nodes && !Malformed(id)
      modifies this
      ensures Valid()
      ensures view == old(view).(types := old(view).types[id := ""])
    {
      hide NodeBooks, EdgeBooks, Mirrors, WellFormed, NodeIdPrefix, Malformed;
      OutFacts();
      AddNodeKeeps(view, id, "");
      NewNodeMirrors(nodes, view, id);
      NewNodeBooks(view.types, id, index, tenantNodes, nodeCounters, vodeCounters);
      var pfx := NodeIdPrefix(id);
      nodes := nodes[id := NodeRecord("", map[], map[])];
      nodeCounters := Bump(nodeCounters, pfx, 1);
      tenantNodes := IndexAdd(tenantNodes, pfx, id);
      view := view.(types := view.types[id := ""]);
    }

    /** The typing half of addNodeLocked: a first type, or the promotion of a placeholder. */
    method SetType(id: NodeId, typ: string)
      requires Valid() && id in nodes
      requires typ != "" && typ != nodes[id].typ && nodes[id].typ in {"", VODE}
      modifies this
      ensures Valid()
      ensures view == old(view).(types := old(view).types[id := typ])
    {
      hide NodeBooks, EdgeBooks, Mirrors, WellFormed, NodeIdPrefix, Malformed;
      NodeFacts();
      AddNodeKeeps(view, id, typ);
      RetypeMirrors(nodes, view, id, typ);
      RetypeBooks(view.types, id, typ, index, tenantNodes, nodeCounters, vodeCounters);
      var rec := nodes[id];
      var pfx := NodeIdPrefix(id);
      if rec.typ == VODE {
        vodeCounters := Bump(vodeCounters, pfx, -1);
      } else if typ == VODE {
        vodeCounters := Bump(vodeCounters, pfx, 1);
      }
      if rec.typ != "" {
        index := IndexDel(index, rec.typ, id);
      }
      nodes := nodes[id := rec.(typ := typ)];
      index := IndexAdd(index, typ, id);
      view := view.(types := view.types[id := typ]);
    }

    method AddNode(id: NodeId, typ: string) returns (r: Outcome)
      requires Valid()
      modifies this
      ensures Valid()
      ensures Step(old(view), Op.AddNode(id, typ), view, r)
    {
      hide Valid, NodeIdPrefix, Malformed;
      NodeFacts();
      if Malformed(id) {
        return ErrMalformedNodeId;
      }
      if id !in nodes {
        CreateNode(id);
        NodeFacts();
      }
      var was := nodes[id].typ;
      if typ != "" && was != typ {
        if was != "" && typ == VODE {
          return Ok;
        } else if was != "" && was != VODE {
          return ErrNodeTypeMismatch;
        }
        SetType(id, typ);
      }
      return Ok;
    }

    lemma EndpointFacts()
      requires Valid()
      ensures forall e :: e in view.edges ==> e.0 in nodes && e.1 in nodes
    {
    }

    lemma EdgeFacts(n: NodeId, m: NodeId)
      requires Valid() && (n, m) in view.edges
      ensures !CrossTenant(n, m) && !Malformed(n) && !Malformed(m)
    {
      hide Malformed, CrossTenant, Mirrors, NodeBooks, EdgeBooks;
      assert !CrossTenant((n, m).0, (n, m).1);
    }

    lemma OutFactsAt(n: NodeId)
      requires Valid() && n in nodes
      ensures n in view.types && nodes[n].typ == view.types[n]
      ensures forall m :: m in nodes[n].out <==> (n, m) in view.edges
    {
      OutFacts();
      NodeFacts();
    }

    lemma OutFacts()
      requires Valid()
      ensures nodes.Keys == view.types.Keys
      ensures forall e :: e in view.edges ==> e.0 in nodes && e.1 in nodes
      ensures forall n, m :: n in nodes ==> (m in nodes[n].out <==> (n, m) in view.edges)
      ensures forall n, m :: n in nodes && m in nodes[n].out ==> nodes[n].out[m] == view.edges[(n, m)]
    {
    }

    /** Breadth-first search from `to`, with a budget counted in distinct visited nodes. */
    method WouldCreateCycle(from: NodeId, to: NodeId) returns (cycle: bool)
      requires Valid()
      ensures CycleVerdict(view, from, to, cycle)
    {
      hide Valid, Followed, ReachSet;
      OutFacts();
      NodeFacts();
      ghost var E := Followed(view.edges.Keys, from);
      ghost var R := ReachSet(E, to);
      FollowedAreEdges(view.edges.Keys, from);
      ReachesRefl(E, to);
      ReachSetContains(E, to, to);
      if from == to {
        return true;
      }
      var visited: set<NodeId> := {};
      var queue := [to];
      var head := 0;
      assert queue[head] == to;
      while head < |queue|
        invariant 0 <= head <= |queue|
        invariant from !in visited && visited <= R
        invariant forall i :: 0 <= i < |queue| ==> queue[i] in R
        invariant to in visited || InTail(queue, head, to)
        invariant forall e :: e in E && e.0 in visited ==> e.1 in visited || InTail(queue, head, e.1)
        invariant cycleCheckLimit > 0 ==> |visited| <= cycleCheckLimit
        decreases R - visited, |queue| - head
      {
        TailAdvances(queue, head);
        var cur := queue[head];
        head := head + 1;
        if cur == from {
          return true;
        }
        if cycleCheckLimit > 0 && |visited| >= cycleCheckLimit {
          SubsetSize(visited, R);
          return true;
        }
        if cur in visited {
          continue;
        }
        visited := visited + {cur};
        if cur in nodes {
          ghost var before := queue;
          queue := EnqueueFollowed(from, cur, visited, queue, head);
          TailGrows(before, queue, head);
          forall i | |before| <= i < |queue|
            ensures queue[i] in R
          {
            ReachSetStep(E, to, cur, queue[i]);
          }
        }
      }
      ClosedSetHoldsReachSet(E, visited, to);
      SubsetSize(R, visited);
      return false;
    }

    /** The inner loop of wouldCreateCycle: neighbours in any order, other tenants' skipped. */
    method EnqueueFollowed(from: NodeId, cur: NodeId, visited: set<NodeId>, queue: seq<NodeId>, head: nat)
      returns (queue': seq<NodeId>)
      requires Valid() && cur in nodes && head <= |queue|
      ensures queue <= queue'
      ensures forall i :: |queue| <= i < |queue'| ==> (cur, queue'[i]) in Followed(view.edges.Keys, from)
      ensures forall e :: e in Followed(view.edges.Keys, from) && e.0 == cur ==>
              e.1 in visited || InTail(queue', head, e.1)
    {
      hide Valid, NodeIdPrefix;
      OutFacts();
      queue' := queue;
      var rest := nodes[cur].out.Keys;
      while rest != {}
        invariant rest <= nodes[cur].out.Keys && queue <= queue'
        invariant forall i :: |queue| <= i < |queue'| ==> (cur, queue'[i]) in Followed(view.edges.Keys, from)
        invariant forall m :: m in nodes[cur].out.Keys - rest && !CrossTenant(from, m) ==>
                  m in visited || InTail(queue', head, m)
        decreases rest
      {
        var m :| m in rest;
        rest := rest - {m};
        var npfx := NodeIdPrefix(m);
        if npfx != "" && NodeIdPrefix(from) != "" && npfx != NodeIdPrefix(from) {
          continue;
        }
        if m !in visited {
          TailGrows(queue', queue' + [m], head);
          queue' := queue' + [m];
          assert queue'[|queue'| - 1] == m;
        }
      }
    }

    /** Records a checked edge in both halves and in the counters. */
    method LinkEdge(f: NodeId, t: NodeId, rel: string)
      requires Valid() && f in nodes && t in nodes && t !in nodes[f].out
      requires nodes[f].typ != "" && nodes[t].typ != "" && !CrossTenant(f, t)
      modifies this
      ensures Valid() && view == old(view).(edges := old(view).edges[(f, t) := rel])
    {
      hide NodeBooks, EdgeBooks, Mirrors, WellFormed, NodeIdPrefix, CrossTenant;
      OutFactsAt(f);
      OutFactsAt(t);
      LinkKeepsWellFormed(view, f, t, rel);
      LinkMirrors(nodes, view, f, t, rel);
      NewEdgeBooks(view.edges, (f, t), rel, edgeCount, edgeCounters);
      nodes := LinkOut(nodes, f, t, rel);
      nodes := LinkIn(nodes, f, t, rel);
      edgeCount := edgeCount + 1;
      edgeCounters := Bump(edgeCounters, NodeIdPrefix(f), 1);
      view := view.(edges := view.edges[(f, t) := rel]);
    }

    /** Deletes an existing edge from both halves and from the counters. */
    method UnlinkEdge(f: NodeId, t: NodeId)
      requires Valid() && f in nodes && t in nodes[f].out
      modifies this
      ensures Valid() && view == DropEdge(old(view), (f, t))
    {
      hide NodeBooks, EdgeBooks, Mirrors, WellFormed, NodeIdPrefix, UnlinkIn, UnlinkOut, Bump;
      OutFactsAt(f);
      FewerEdgesKeepWellFormed(view, DropEdge(view, (f, t)));
      UnlinkMirrors(nodes, view, f, t);
      DropEdgeBooks(view.edges, (f, t), edgeCount, edgeCounters);
      nodes := UnlinkOut(nodes, f, t);
      nodes := UnlinkIn(nodes, f, t);
      edgeCount := edgeCount - 1;
      edgeCounters := Bump(edgeCounters, NodeIdPrefix(f), -1);
      view := DropEdge(view, (f, t));
    }

    method AddEdge(from: NodeId, to: NodeId, rel: string) returns (r: Outcome)
      requires Valid()
      modifies this
      ensures Valid()
      ensures Step(old(view), Op.AddEdge(from, to, rel), view, r)
    {
      hide Valid, NodeIdPrefix, Malformed, CycleVerdict;
      var fromPrefix, toPrefix := NodeIdPrefix(from), NodeIdPrefix(to);
      if fromPrefix != "" && toPrefix != "" && fromPrefix != toPrefix {
        return ErrCrossTenantEdge;
      }
      PlaceholderTypes(view, from);
      r := AddNode(from, VODE);
      if r != Ok {
        return;
      }
      PlaceholderTypes(view, to);
      r := AddNode(to, VODE);
      if r != Ok {
        return;
      }
      NodeFacts();
      OutFacts();
      if to in nodes[from].out {
        return if nodes[from].out[to] == rel then Ok else ErrEdgeAlreadyExists;
      }
      if cycleDetection != Ignore {
        var cycle := WouldCreateCycle(from, to);
        if cycle && cycleDetection == Error {
          return ErrCycleDetected;
        }
      }
      LinkEdge(from, to, rel);
      return Ok;
    }

    method RemoveEdge(from: NodeId, to: NodeId) returns (r: Outcome)
      requires Valid()
      modifies this
      ensures Valid()
      ensures Step(old(view), Op.RemoveEdge(from, to), view, r)
    {
      hide Valid;
      OutFacts();
      r := Ok;
      if from !in nodes || to !in nodes[from].out {
        assert view.edges - {(from, to)} == view.edges;
        return;
      }
      UnlinkEdge(from, to);
    }

    /**
     * First loop of RemoveNode: clears `id` from its neighbours' `inc` maps, not its own `out` map.
     * `mirror` is the record map with that `out` cleared too.
     */
    method DetachOut(id: NodeId) returns (ghost mirror: Records)
      requires Valid() && id in nodes
      modifies this`nodes, this`edgeCount, this`edgeCounters, this`view
      ensures Mirrors(mirror, view) && SameButOut(mirror, nodes, id)
      ensures nodes.Keys == old(nodes.Keys) && nodes[id].typ == old(nodes[id].typ)
      ensures EdgeBooks(view.edges, edgeCount, edgeCounters)
      ensures view == old(view).(edges := view.edges)
      ensures Kept(old(view.edges), view.edges, id)
      ensures forall e :: e in view.edges ==> e.0 != id
    {
      hide Mirrors, WellFormed, EdgeBooks, NodeBooks, NodeIdPrefix, SameButOut, UnlinkIn, UnlinkOut, Kept, Bump;
      OutFactsAt(id);
      KeptRefl(view.edges, id);
      var rest := nodes[id].out.Keys;
      mirror := nodes;
      SameButOutRefl(nodes, id);
      while rest != {}
        invariant nodes.Keys == old(nodes.Keys) && nodes[id].typ == old(nodes[id].typ)
        invariant Mirrors(mirror, view) && SameButOut(mirror, nodes, id)
        invariant EdgeBooks(view.edges, edgeCount, edgeCounters)
        invariant view == old(view).(edges := view.edges)
        invariant Kept(old(view.edges), view.edges, id)
        invariant forall m :: (id, m) in view.edges <==> m in rest
        decreases rest
      {
        var m :| m in rest;
        UnlinkMirrors(mirror, view, id, m);
        DropEdgeBooks(view.edges, (id, m), edgeCount, edgeCounters);
        MirrorUnlinkOut(mirror, nodes, id, m);
        KeptDrop(old(view.edges), view.edges, (id, m), id);
        mirror := UnlinkIn(UnlinkOut(mirror, id, m), id, m);
        nodes := UnlinkIn(nodes, id, m);
        edgeCount := edgeCount - 1;
        edgeCounters := Bump(edgeCounters, NodeIdPrefix(id), -1);
        view := DropEdge(view, (id, m));
        rest := rest - {m};
      }
    }

    /** Clears the edge `(m, id)` from the source's `out` map only; `id` is about to go. */
    method ClearSource(m: NodeId, id: NodeId, ghost mirror: Records) returns (ghost mirror': Records)
      requires Mirrors(mirror, view) && mirror - {id} == nodes - {id} && id in nodes && m in nodes && m != id
      requires EdgeBooks(view.edges, edgeCount, edgeCounters) && (m, id) in view.edges
      modifies this`nodes, this`edgeCount, this`edgeCounters, this`view
      ensures Mirrors(mirror', view) && mirror' - {id} == nodes - {id}
      ensures EdgeBooks(view.edges, edgeCount, edgeCounters)
      ensures view == DropEdge(old(view), (m, id))
      ensures nodes.Keys == old(nodes.Keys) && nodes[id].typ == old(nodes[id].typ)
    {
      hide Mirrors, EdgeBooks, NodeIdPrefix, UnlinkIn, UnlinkOut, Bump;
      UnlinkMirrors(mirror, view, m, id);
      UnlinkKeepsNodes(nodes, m, id);
      DropEdgeBooks(view.edges, (m, id), edgeCount, edgeCounters);
      MirrorUnlinkIn(mirror, nodes, id, m);
      mirror' := UnlinkIn(UnlinkOut(mirror, m, id), m, id);
      nodes := UnlinkOut(nodes, m, id);
      edgeCount := edgeCount - 1;
      edgeCounters := Bump(edgeCounters, NodeIdPrefix(m), -1);
      view := DropEdge(view, (m, id));
    }

    /** Second loop of RemoveNode: clears `id` from its sources' `out` maps. */
    method DetachIn(id: NodeId, ghost mirror: Records)
      requires Mirrors(mirror, view) && SameButOut(mirror, nodes, id)
      requires EdgeBooks(view.edges, edgeCount, edgeCounters)
      requires forall e :: e in view.edges ==> e.0 in nodes && e.0 != id
      modifies this`nodes, this`edgeCount, this`edgeCounters, this`view
      ensures Mirrors(nodes - {id}, view.(types := view.types - {id}))
      ensures EdgeBooks(view.edges, edgeCount, edgeCounters)
      ensures view == old(view).(edges := view.edges)
      ensures Kept(old(view.edges), view.edges, id)
      ensures nodes.Keys == old(nodes.Keys) && nodes[id].typ == old(nodes[id].typ)
      ensures forall e :: e in view.edges ==> e.0 != id && e.1 != id
    {
      hide Mirrors, EdgeBooks, NodeIdPrefix, UnlinkIn, UnlinkOut, Kept, Bump;
      ghost var mirror' := mirror;
      KeptRefl(view.edges, id);
      InFacts(mirror', view, id);
      var rest := nodes[id].inc.Keys;
      while rest != {}
        invariant id !in rest && rest <= nodes.Keys
        invariant nodes.Keys == old(nodes.Keys) && nodes[id].typ == old(nodes[id].typ)
        invariant Mirrors(mirror', view) && mirror' - {id} == nodes - {id}
        invariant EdgeBooks(view.edges, edgeCount, edgeCounters)
        invariant view == old(view).(edges := view.edges)
        invariant Kept(old(view.edges), view.edges, id)
        invariant forall m :: (m, id) in view.edges <==> m in rest
        decreases rest
      {
        var m :| m in rest;
        KeptDrop(old(view.edges), view.edges, (m, id), id);
        mirror' := ClearSource(m, id, mirror');
        rest := rest - {m};
      }
      DropNodeMirrors(mirror', view, id);
      KeptAreEdges(old(view.edges), view.edges, id);
    }

    /** Last part of RemoveNode: drops the detached record from the map and the node books. */
    method ForgetNode(id: NodeId)
      requires id in nodes && id in view.types && nodes[id].typ == view.types[id]
      requires Mirrors(nodes - {id}, view.(types := view.types - {id}))
      requires NodeBooks(view.types, index, tenantNodes, nodeCounters, vodeCounters)
      modifies this`nodes, this`index, this`tenantNodes, this`nodeCounters, this`vodeCounters, this`view
      ensures Mirrors(nodes, view)
      ensures NodeBooks(view.types, index, tenantNodes, nodeCounters, vodeCounters)
      ensures view == old(view).(types := old(view).types - {id})
    {
      hide Mirrors, NodeBooks, NodeIdPrefix, IndexDel, Bump;
      DropNodeBooks(view.types, id, index, tenantNodes, nodeCounters, vodeCounters);
      var pfx, typ := NodeIdPrefix(id), nodes[id].typ;
      if typ != "" {
        index := IndexDel(index, typ, id);
      }
      if typ == VODE {
        vodeCounters := Bump(vodeCounters, pfx, -1);
      }
      nodes := nodes - {id};
      nodeCounters := Bump(nodeCounters, pfx, -1);
      tenantNodes := IndexDel(tenantNodes, pfx, id);
      view := view.(types := view.types - {id});
    }

    method RemoveNode(id: NodeId) returns (r: Outcome)
      requires Valid()
      modifies this
      ensures Valid()
      ensures Step(old(view), Op.RemoveNode(id), view, r)
    {
      hide Mirrors, EdgeBooks, NodeBooks, WellFormed, Kept, DropNode, SameButOut;
      NodeFacts();
      EndpointFacts();
      r := Ok;
      ghost var v := view;
      if id !in nodes {
        NothingToDrop(v, id);
        return;
      }
      ghost var mirror := DetachOut(id);
      ghost var middle := view.edges;
      KeptAreEdges(v.edges, middle, id);
      DetachIn(id, mirror);
      KeptIsDropNode(v, middle, view.edges, id);
      ForgetNode(id);
    }

    /** First loop of the entity update: edges whose target is gone are removed. */
    method PruneEdges(node: NodeId, targets: map<NodeId, string>)
      requires Valid() && node in nodes
      modifies this
      ensures Valid() && node in nodes
      ensures MicroSteps(old(view), view)
      ensures view == old(view).(edges := Pruned(old(view.edges), node, targets.Keys))
    {
      hide Valid, Micro, MicroSteps, Pruned;
      NodeFacts();
      ghost var v := view;
      OutFactsAt(node);
      var rest := nodes[node].out.Keys;
      MicroStepsRefl(v);
      ghost var gone: set<NodeId> := {};
      assert v.edges - OutEdges(node, gone) == v.edges;
      while rest != {}
        invariant Valid() && node in nodes
        invariant MicroSteps(v, view)
        invariant view == v.(edges := v.edges - OutEdges(node, gone))
        invariant forall m :: (node, m) in v.edges <==> m in rest || m in gone || (m in targets && (node, m) in v.edges)
        invariant gone !! targets.Keys && gone !! rest
        invariant forall m :: m in rest ==> (node, m) in v.edges
        decreases rest
      {
        var m :| m in rest;
        rest := rest - {m};
        if m !in targets {
          OutFactsAt(node);
          assert (node, m) in view.edges;
          ghost var before := view;
          UnlinkEdge(node, m);
          NodeFacts();
          MicroDrop(before, (node, m));
          MicroStepsThen(v, before, view);
          gone := gone + {m};
          assert v.edges - OutEdges(node, gone - {m}) - {(node, m)} == v.edges - OutEdges(node, gone);
        }
      }
      PrunedIs(v.edges, node, targets.Keys, gone);
    }

    /** Relabels an existing edge by delete and re-add, putting the old label back if that fails. */
    method Relabel(node: NodeId, t: NodeId, rel: string) returns (r: Outcome)
      requires Valid() && node in nodes && t in nodes[node].out
      modifies this
      ensures Valid()
      ensures MicroSteps(old(view), view) && view.mode == old(view).mode && view.limit == old(view).limit
      ensures TypesGrow(old(view.types), view.types)
      ensures r == Ok ==> view.types == Placed(old(view.types), {node, t})
      ensures r == Ok ==> view.edges == old(view.edges)[(node, t) := rel]
      ensures r != Ok ==> r.ErrRelabel? && r.cause == ErrCycleDetected && view.mode == Error
      ensures r != Ok ==> view.edges == if r.restored then old(view.edges) else old(view.edges) - {(node, t)}
    {
      hide Valid, MicroSteps, AddEdgeTo, TypesGrow, Placed, Malformed, CrossTenant;
      ghost var v := view;
      OutFacts();
      EdgeFacts(node, t);
      var oldRel := nodes[node].out[t];
      UnlinkEdge(node, t);
      r := AddEdge(node, t, rel);
      ghost var v3 := view;
      RelabelEffect(v, node, t, rel, v3, r);
      if r == Ok {
        return;
      }
      var restored := AddEdge(node, t, oldRel);
      RestoreEffect(v, node, t, v3, view, restored);
      r := ErrRelabel(restored == Ok, r);
    }

    /** One target of the entity update. */
    method ApplyTarget(node: NodeId, t: NodeId, rel: string) returns (r: Outcome)
      requires Valid() && node in nodes
      modifies this
      ensures Valid() && node in nodes
      ensures MicroSteps(old(view), view) && view.mode == old(view).mode && view.limit == old(view).limit
      ensures TypesGrow(old(view.types), view.types)
      ensures r == Ok ==> view.types == Placed(old(view.types), {node, t})
      ensures r == Ok ==> view.edges == old(view.edges)[(node, t) := rel]
      ensures r != Ok ==> UpdateError(view.mode, r) && (r.ErrRelabel? && !r.restored ==> (node, t) in old(view.edges))
      ensures r != Ok ==>
                view.edges == if r.ErrRelabel? && !r.restored then old(view.edges) - {(node, t)} else old(view.edges)
    {
      hide Valid, Micro, MicroSteps, AddEdgeTo, Malformed, CrossTenant, Placed;
      ghost var v := view;
      NodeFacts();
      r := AddEdge(node, t, rel);
      ghost var v1 := view;
      AddEdgeEffect(v, node, t, rel, v1, r);
      MicroStepsRefl(v);
      MicroStepsThen(v, v, v1);
      NodeFacts();
      if r == ErrEdgeAlreadyExists {
        OutFactsAt(node);
        r := Relabel(node, t, rel);
        MicroStepsTrans(v, v1, view);
        PlacedTwice(v.types, {node, t}, {node, t});
        assert {node, t} + {node, t} == {node, t};
        NodeFacts();
      }
    }

    /** Second loop of the entity update, over the targets in any order. */
    method ApplyTargets(node: NodeId, targets: map<NodeId, string>) returns (r: Outcome)
      requires Valid() && node in nodes
      requires forall e :: e in view.edges && e.0 == node ==> e.1 in targets
      modifies this
      ensures Valid()
      ensures MicroSteps(old(view), view) && view.mode == old(view).mode && view.limit == old(view).limit
      ensures TypesGrow(old(view.types), view.types)
      ensures EdgesOldOrNew(old(view.edges), node, targets, view.edges)
      ensures r == Ok || UpdateError(view.mode, r)
      ensures Survive(old(view.edges), node, targets.Keys, view.edges, r)
      ensures r == Ok ==> view.types == Placed(old(view.types), PlacedBy(node, targets.Keys))
      ensures r == Ok ==> view.edges == old(view.edges) + OutEdgesTo(node, targets, targets.Keys)
    {
      hide Valid, Micro, MicroSteps, Placed, OutEdgesTo, EdgesOldOrNew, TypesGrow, Survive, UpdateError;
      ghost var v := view;
      MicroStepsRefl(v);
      PlacedNone(v.types);
      NoTargetYet(v.edges, node, targets);
      var rest := targets.Keys;
      ghost var done: set<NodeId> := {};
      while rest != {}
        invariant done == targets.Keys - rest && rest <= targets.Keys
        invariant Valid() && node in nodes && MicroSteps(v, view)
        invariant view.mode == v.mode && view.limit == v.limit
        invariant view.types == Placed(v.types, PlacedBy(node, done))
        invariant view.edges == v.edges + OutEdgesTo(node, targets, done)
        decreases rest
      {
        var t :| t in rest;
        ghost var before := view;
        r := ApplyTarget(node, t, targets[t]);
        MicroStepsTrans(v, before, view);
        if r != Ok {
          PlacedGrow(v.types, PlacedBy(node, done), view.types);
          PartialEdges(v.edges, node, targets, done, t, view.edges);
          NotYetThere(v.edges, node, targets, done, t);
          PartialSurvive(v.edges, node, targets, done, t, view.edges, r);
          return;
        }
        PlacedTwice(v.types, PlacedBy(node, done), {node, t});
        assert PlacedBy(node, done) + {node, t} == PlacedBy(node, done + {t});
        OneMoreTarget(v.edges, node, targets, done, t);
        rest := rest - {t};
        done := done + {t};
      }
      assert done == targets.Keys;
      PlacedGrow(v.types, PlacedBy(node, done), view.types);
      PartialEdges(v.edges, node, targets, done, node, view.edges);
      PartialSurvive(v.edges, node, targets, done, node, view.edges, Ok);
      return Ok;
    }

    method CollectTargets(tenant: uint16, edges: seq<EntityEdge>) returns (targets: map<NodeId, string>)
      ensures targets == TargetsOf(tenant, edges)
    {
      targets := map[];
      for i := 0 to |edges|
        invariant targets == TargetsOf(tenant, edges[..i])
      {
        var ee := edges[i];
        assert edges[..i + 1][..i] == edges[..i];
        targets := targets[MakeNodeId(tenant, ee.target, ee.targetId) := ee.rel];
      }
      assert edges[..|edges|] == edges;
    }

    method UpdateFromEntityForTenant(tenant: uint16, entity: string, id: int, extracted: Extracted) returns (r: Outcome)
      requires Valid()
      modifies this
      ensures Valid()
      ensures extracted.DuplicateTarget? ==> view == old(view) && r == ErrDuplicateEdgeTarget
      ensures extracted.Edges? ==>
                Step(old(view), Op.UpdateFromEntity(MakeNodeId(tenant, entity, id), entity,
                                                    TargetsOf(tenant, extracted.edges)), view, r)
      ensures extracted.Edges? && r == Ok ==>
                PointsAsNamed(view, MakeNodeId(tenant, entity, id), tenant, extracted.edges)
    {
      hide Valid, Micro, MicroSteps, AddNodeTo, MakeNodeId, Placed, ReplaceOut, OutEdgesTo, EdgesOldOrNew, TypesGrow;
      hide Survive, UpdateError;
      if extracted.DuplicateTarget? {
        return ErrDuplicateEdgeTarget;
      }
      var node := MakeNodeId(tenant, entity, id);
      var targets := CollectTargets(tenant, extracted.edges);
      ghost var v := view;
      r := AddNode(node, entity);
      if r != Ok {
        return;
      }
      ghost var v1 := view;
      AddNodeKeeps(v, node, entity);
      AddNodeAdds(v, node, entity);
      MicroAddNode(v, node, entity);
      MicroStepsRefl(v);
      MicroStepsThen(v, v, v1);
      NodeFacts();
      PruneEdges(node, targets);
      ghost var v2 := view;
      MicroStepsTrans(v, v1, v2);
      r := ApplyTargets(node, targets);
      MicroStepsTrans(v, v2, view);
      PrunedPartial(v.edges, node, targets, view.edges);
      PrunedSurvive(v.edges, node, targets, view.edges, r);
      AllTargets(v.edges, node, targets);
      if r == Ok {
        ReplacedPointsAsNamed(v.edges, view, node, tenant, extracted.edges);
      }
    }

    /** The pre-flight check for AddEdge; it looks at the same things except malformed IDs. */
    method CheckEdge(from: NodeId, to: NodeId, rel: string) returns (r: Outcome)
      requires Valid()
      ensures CheckEdgeTo(view, from, to, rel, r)
    {
      hide Valid, CycleVerdict, NodeIdPrefix;
      var fromPrefix, toPrefix := NodeIdPrefix(from), NodeIdPrefix(to);
      if fromPrefix != "" && toPrefix != "" && fromPrefix != toPrefix {
        return ErrCrossTenantEdge;
      }
      NodeFacts();
      OutFacts();
      if from in nodes && to in nodes[from].out {
        return if nodes[from].out[to] == rel then Ok else ErrEdgeAlreadyExists;
      }
      if cycleDetection == Error {
        var cycle := WouldCreateCycle(from, to);
        if cycle {
          return ErrCycleDetected;
        }
      }
      return Ok;
    }

    // ----- cycle search -----

    /** Out-neighbours carrying `prefix`, in any order; every ID carries the empty prefix. */
    method NeighbourList(n: NodeId, prefix: string) returns (iter: seq<NodeId>)
      requires n in nodes
      ensures forall m :: m in iter <==> m in nodes[n].out && HasPrefix(m, prefix)
    {
      hide HasPrefix;
      iter := [];
      var rest := nodes[n].out.Keys;
      while rest != {}
        invariant rest <= nodes[n].out.Keys
        invariant forall m :: m in iter <==> m in nodes[n].out && m !in rest && HasPrefix(m, prefix)
        decreases rest
      {
        var m :| m in rest;
        rest := rest - {m};
        if HasPrefix(m, prefix) {
          iter := iter + [m];
        }
      }
    }

    /** The prefix test, applied to out-neighbours, selects exactly the edges that stay inside S. */
    ghost predicate Selects(prefix: string, S: set<NodeId>)
      reads this
    {
      && S <= nodes.Keys
      && forall e :: e in view.edges && e.0 in S ==> (HasPrefix(e.1, prefix) <==> e.1 in S)
    }

    method ScopedNeighbours(n: NodeId, prefix: string, ghost S: set<NodeId>) returns (iter: seq<NodeId>)
      requires Valid() && Selects(prefix, S) && n in S
      ensures Lists(Induced(view.edges.Keys, S), n, iter)
    {
      hide Valid, HasPrefix;
      OutFactsAt(n);
      iter := NeighbourList(n, prefix);
    }

    /** One depth-first tree: explores everything reachable from a white node. */
    method Explore(start: NodeId, prefix: string, ghost S: set<NodeId>, colour: Colours, ghost rank: Ranks)
      returns (cycle: bool, colour': Colours, ghost rank': Ranks)
      requires Valid() && Selects(prefix, S) && start in S
      requires Colour(colour, start) == 0
      requires ColoursOk(colour, [], rank) && RanksOk(Induced(view.edges.Keys, S), rank)
      ensures cycle ==> Cyclic(Induced(view.edges.Keys, S))
      ensures !cycle ==> ColoursOk(colour', [], rank') && RanksOk(Induced(view.edges.Keys, S), rank')
      ensures !cycle ==> rank.Keys + {start} <= rank'.Keys
    {
      hide Valid, HasPrefix, ColoursOk, StackOk, RanksOk, Cyclic, Induced, Lists, Selects, OnStack;
      ghost var F := Induced(view.edges.Keys, S);
      rank' := rank;
      var iter := ScopedNeighbours(start, prefix, S);
      var stack := [Frame(start, iter, 0)];
      StartStack(F, colour, rank, start, iter);
      colour' := colour[start := 1];
      ghost var white := set n | n in S && Colour(colour', n) == 0;
      while |stack| > 0
        invariant ColoursOk(colour', stack, rank') && StackOk(F, stack, rank') && RanksOk(F, rank')
        invariant forall i :: 0 <= i < |stack| ==> stack[i].node in S
        invariant rank.Keys <= rank'.Keys
        invariant if |stack| > 0 then stack[0].node == start else start in rank'
        invariant white == set n | n in S && Colour(colour', n) == 0
        decreases white, |stack|, if |stack| > 0 then |stack[|stack| - 1].iter| - stack[|stack| - 1].idx else 0
      {
        var top := stack[|stack| - 1];
        StackTop(F, stack, rank');
        if top.idx < |top.iter| {
          var m := top.iter[top.idx];
          ColourMeans(colour', stack, rank', m);
          ListedAreInside(view.edges.Keys, S, top.node, top.iter, top.idx);
          if Colour(colour', m) == 0 {
            var nbrs := ScopedNeighbours(m, prefix, S);
            PushWhite(F, stack, rank', m, nbrs);
            ghost var before := stack;
            stack := stack[..|stack| - 1] + [top.(idx := top.idx + 1), Frame(m, nbrs, 0)];
            PushColours(colour', before, rank', stack, m);
            colour' := colour'[m := 1];
            assert m in white;
            white := white - {m};
          } else if Colour(colour', m) == 1 {
            BackEdgeIsCycle(F, stack, rank', m);
            return true, colour', rank';
          } else {
            SkipBlack(F, colour', stack, rank');
            stack := stack[..|stack| - 1] + [top.(idx := top.idx + 1)];
          }
        } else {
          FinishColours(colour', stack, rank');
          FinishRanks(F, stack, rank');
          FinishStack(F, stack, rank', |rank'|);
          rank' := rank'[top.node := |rank'|];
          colour' := colour'[top.node := 2];
          stack := stack[..|stack| - 1];
        }
      }
      return false, colour', rank';
    }

    /** Starts a depth-first tree at every white node of S, in any order. */
    method SearchCycle(S: set<NodeId>, prefix: string) returns (cycle: bool)
      requires Valid() && Selects(prefix, S)
      ensures cycle <==> Cyclic(Induced(view.edges.Keys, S))
    {
      hide Valid, HasPrefix, ColoursOk, RanksOk, Cyclic;
      ghost var F := Induced(view.edges.Keys, S);
      var colour: Colours := map[];
      ghost var rank: Ranks := map[];
      NothingColoured(F);
      var rest := S;
      while rest != {}
        invariant rest <= S && S - rest <= rank.Keys
        invariant ColoursOk(colour, [], rank) && RanksOk(F, rank)
        decreases rest
      {
        var start :| start in rest;
        rest := rest - {start};
        ColourMeans(colour, [], rank, start);
        if Colour(colour, start) != 0 {
          continue;
        }
        cycle, colour, rank := Explore(start, prefix, S, colour, rank);
        if cycle {
          return true;
        }
      }
      AllBlackIsAcyclic(F, rank);
      return false;
    }

    method HasCycle() returns (cycle: bool)
      requires Valid()
      ensures cycle <==> Cyclic(view.edges.Keys)
    {
      hide Valid, Cyclic;
      EndpointFacts();
      assert Selects("", nodes.Keys);
      cycle := SearchCycle(nodes.Keys, "");
      assert Induced(view.edges.Keys, nodes.Keys) == view.edges.Keys;
    }

    /** Absent exactly when the prefix is empty, which the source refuses. */
    method HasCycleForTenant(prefix: string) returns (r: TenantVerdict)
      requires Valid()
      ensures r.TenantRequired? <==> prefix == ""
      ensures prefix != "" ==> r.cycle == Cyclic(TenantEdges(view.edges.Keys, prefix))
    {
      hide Cyclic, NodeIdPrefix;
      if prefix == "" {
        return TenantRequired;
      }
      var S := Members(tenantNodes, prefix);
      TenantFacts(prefix);
      var cycle := SearchCycle(S, prefix);
      return Verdict(cycle);
    }

    lemma TenantFacts(prefix: string)
      requires Valid() && prefix != ""
      ensures Selects(prefix, Members(tenantNodes, prefix))
      ensures Induced(view.edges.Keys, Members(tenantNodes, prefix)) == TenantEdges(view.edges.Keys, prefix)
    {
      hide HasPrefix, NodeIdPrefix, Malformed, CrossTenant, CountersMatch, TypeIndexMatch;
      NodeFacts();
      EndpointFacts();
      var S := Members(tenantNodes, prefix);
      assert S == Group(view.types.Keys, NodeIdPrefix, prefix);
      forall e | e in view.edges && e.0 in S
        ensures HasPrefix(e.1, prefix) <==> e.1 in S
      {
        assert NodeIdPrefix(e.0) == prefix;
        PrefixTestDecidesTenant(e.1, prefix);
      }
    }

    // ----- shortest paths -----

    /** FindPath's inner loop: unseen neighbours of `queue[h]` are recorded and queued, in any order. */
    method Discover(from: NodeId, maxDepth: int, visited: Visited, queue: seq<NodeId>, h: nat)
      returns (visited': Visited, queue': seq<NodeId>)
      requires Valid() && BfsOk(view.edges.Keys, visited, queue, h, from, maxDepth)
      requires h < |queue| && queue[h] in nodes && visited[queue[h]].depth < maxDepth
      ensures BfsOk(view.edges.Keys, visited', queue', h + 1, from, maxDepth)
      ensures queue <= queue'
    {
      hide Valid, ParentsOk, QueueOk, Expanded, BfsOk;
      var cur := queue[h];
      OutFactsAt(cur);
      BfsHead(view.edges.Keys, visited, queue, h, from, maxDepth);
      visited', queue' := visited, queue;
      var nextDepth := visited[cur].depth + 1;
      var rest := nodes[cur].out.Keys;
      while rest != {}
        invariant rest <= nodes[cur].out.Keys && queue <= queue'
        invariant BfsOk(view.edges.Keys, visited', queue', h, from, maxDepth)
        invariant cur in visited' && visited'[cur].depth == nextDepth - 1
        invariant forall m :: m in nodes[cur].out && m !in rest ==> m in visited'
        decreases rest
      {
        var m :| m in rest;
        rest := rest - {m};
        if m !in visited' {
          BfsDiscover(view.edges.Keys, visited', queue', h, from, maxDepth, m);
          visited' := visited'[m := BfsEntry(cur, nextDepth)];
          queue' := queue' + [m];
        }
      }
      BfsAdvance(view.edges.Keys, visited', queue', h, from, maxDepth);
    }

    method FindPath(from: NodeId, to: NodeId, maxDepth: int) returns (r: PathResult)
      requires Valid()
      ensures r.CrossTenantPath? <==> CrossTenant(from, to)
      ensures r.NodeNotFound? <==> !CrossTenant(from, to) && (from !in view.types || to !in view.types)
      ensures r.Found? || r.NoPath? ==> (r.Found? <==> from == to || WithinDepth(view.edges.Keys, from, to, maxDepth))
      ensures r.Found? ==> PathFromTo(view.edges.Keys, r.path, from, to)
      ensures r.Found? ==> IsDistance(view.edges.Keys, from, to, |r.path| - 1)
    {
      hide Valid, ParentsOk, QueueOk, Expanded, BfsOk, NodeIdPrefix, PathFromTo;
      var fromPrefix, toPrefix := NodeIdPrefix(from), NodeIdPrefix(to);
      if fromPrefix != "" && toPrefix != "" && fromPrefix != toPrefix {
        return CrossTenantPath;
      }
      NodeFacts();
      EndpointFacts();
      if from !in nodes || to !in nodes {
        return NodeNotFound;
      }
      ghost var E := view.edges.Keys;
      if from == to {
        ZeroDistance(E, from);
        return Found([from]);
      }
      var visited: Visited := map[from := BfsEntry("", 0)];
      var queue := [from];
      var head := 0;
      BfsStart(E, from, maxDepth, BfsEntry("", 0));
      while head < |queue|
        invariant head <= |queue| && BfsOk(E, visited, queue, head, from, maxDepth)
        invariant to !in queue[..head]
        decreases |nodes| + 1 - head
      {
        BfsHead(E, visited, queue, head, from, maxDepth);
        BfsInside(E, nodes.Keys, visited, queue, head, from, maxDepth);
        var cur := queue[head];
        var entry := visited[cur];
        if cur == to {
          BfsShortest(E, visited, queue, head, from, maxDepth);
          var path := Backtrack(from, to, visited);
          return Found(path);
        }
        assert queue[..head + 1] == queue[..head] + [cur];
        if entry.depth >= maxDepth {
          BfsAdvance(E, visited, queue, head, from, maxDepth);
        } else {
          ghost var before := queue;
          visited, queue := Discover(from, maxDepth, visited, queue, head);
          assert queue[..head + 1] == before[..head + 1];
        }
        head := head + 1;
      }
      assert queue[..head] == queue;
      BfsExhausted(E, visited, queue, from, maxDepth, to);
      return NoPath;
    }

    /** Follows parent pointers back from `to`, then reverses the list in place. */
    method Backtrack(from: NodeId, to: NodeId, visited: Visited) returns (path: seq<NodeId>)
      requires ParentsOk(view.edges.Keys, visited, from) && to in visited
      ensures PathFromTo(view.edges.Keys, path, from, to) && |path| == visited[to].depth + 1
    {
      ghost var E := view.edges.Keys;
      path := [];
      var n := to;
      while n != from
        invariant n in visited && visited[n].depth + |path| == visited[to].depth
        invariant if path == [] then n == to else path[0] == to && (n, path[|path| - 1]) in E
        invariant forall i :: 0 <= i < |path| - 1 ==> (path[i + 1], path[i]) in E
        decreases visited[n].depth
      {
        path := path + [n];
        n := visited[n].parent;
      }
      path := path + [from];
      ghost var back := path;
      path := Reverse(path);
      ReversedIsPath(E, back, path);
    }

    /** PathExists's inner loop: stops at the first sight of `to`. `known` shadows the depths. */
    method DiscoverUnless(from: NodeId, to: NodeId, maxDepth: int, visited: set<NodeId>, queue: seq<(NodeId, int)>,
                          h: nat, ghost known: Visited, ghost order: seq<NodeId>)
      returns (found: bool, visited': set<NodeId>, queue': seq<(NodeId, int)>, ghost known': Visited,
               ghost order': seq<NodeId>)
      requires Valid() && BfsOk(view.edges.Keys, known, order, h, from, maxDepth)
      requires QueueShadows(queue, visited, order, known) && to !in visited
      requires h < |queue| && queue[h].0 in nodes && queue[h].1 < maxDepth
      ensures found <==> (queue[h].0, to) in view.edges
      ensures !found ==> BfsOk(view.edges.Keys, known', order', h + 1, from, maxDepth)
      ensures !found ==> QueueShadows(queue', visited', order', known') && to !in visited'
      ensures order <= order'
    {
      hide Valid, ParentsOk, QueueOk, Expanded, BfsOk;
      var (cur, depth) := queue[h];
      OutFactsAt(cur);
      BfsHead(view.edges.Keys, known, order, h, from, maxDepth);
      visited', queue', known', order' := visited, queue, known, order;
      found := false;
      var rest := nodes[cur].out.Keys;
      while rest != {}
        invariant rest <= nodes[cur].out.Keys && order <= order'
        invariant BfsOk(view.edges.Keys, known', order', h, from, maxDepth)
        invariant QueueShadows(queue', visited', order', known') && to !in visited'
        invariant cur in known' && known'[cur].depth == depth
        invariant forall m :: m in nodes[cur].out && m !in rest ==> m in known' && m != to
        decreases rest
      {
        var m :| m in rest;
        rest := rest - {m};
        if m == to {
          return true, visited', queue', known', order';
        }
        if m !in visited' {
          BfsDiscover(view.edges.Keys, known', order', h, from, maxDepth, m);
          visited' := visited' + {m};
          queue' := queue' + [(m, depth + 1)];
          known' := known'[m := BfsEntry(cur, depth + 1)];
          order' := order' + [m];
        }
      }
      BfsAdvance(view.edges.Keys, known', order', h, from, maxDepth);
    }

    method PathExists(from: NodeId, to: NodeId, maxDepth: int) returns (r: ExistsResult)
      requires Valid()
      ensures r.PathCrossTenant? <==> CrossTenant(from, to)
      ensures r.EndpointNotFound? <==> !CrossTenant(from, to) && (from !in view.types || to !in view.types)
      ensures r.Answer? ==> (r.exists_ <==> from == to || WithinDepth(view.edges.Keys, from, to, maxDepth))
      ensures r.Answer? && r.exists_ ==> IsDistance(view.edges.Keys, from, to, r.length)
    {
      hide Valid, ParentsOk, QueueOk, Expanded, BfsOk, NodeIdPrefix, PathFromTo;
      var fromPrefix, toPrefix := NodeIdPrefix(from), NodeIdPrefix(to);
      if fromPrefix != "" && toPrefix != "" && fromPrefix != toPrefix {
        return PathCrossTenant;
      }
      NodeFacts();
      EndpointFacts();
      if from !in nodes || to !in nodes {
        return EndpointNotFound;
      }
      ghost var E := view.edges.Keys;
      if from == to {
        ZeroDistance(E, from);
        return Answer(true, 0);
      }
      var visited := {from};
      var queue := [(from, 0)];
      var head := 0;
      ghost var known: Visited, order := map[from := BfsEntry("", 0)], [from];
      BfsStart(E, from, maxDepth, BfsEntry("", 0));
      while head < |queue|
        invariant head <= |queue| && BfsOk(E, known, order, head, from, maxDepth)
        invariant QueueShadows(queue, visited, order, known) && to !in visited
        decreases |nodes| + 1 - head
      {
        BfsHead(E, known, order, head, from, maxDepth);
        BfsInside(E, nodes.Keys, known, order, head, from, maxDepth);
        var (cur, depth) := queue[head];
        if depth >= maxDepth {
          BfsAdvance(E, known, order, head, from, maxDepth);
          head := head + 1;
          continue;
        }
        var found: bool;
        ghost var known1, order1 := known, order;
        found, visited, queue, known, order := DiscoverUnless(from, to, maxDepth, visited, queue, head, known, order);
        if found {
          BfsNextIsTo(E, known1, order1, head, from, maxDepth, to);
          return Answer(true, depth + 1);
        }
        head := head + 1;
      }
      assert order[..head] == order;
      BfsExhausted(E, known, order, from, maxDepth, to);
      return Answer(false, 0);
    }

    /** The two searches, differently structured, report the same existence and the same length. */
    method CompareSearches(from: NodeId, to: NodeId, maxDepth: int) returns (p: PathResult, x: ExistsResult)
      requires Valid()
      ensures p.Found? <==> x.Answer? && x.exists_
      ensures p.NoPath? <==> x.Answer? && !x.exists_
      ensures p.Found? ==> |p.path| - 1 == x.length
    {
      hide Valid, IsDistance, WithinDepth, CrossTenant;
      p := FindPath(from, to, maxDepth);
      x := PathExists(from, to, maxDepth);
      if p.Found? && x.Answer? {
        DistanceUnique(view.edges.Keys, from, to, |p.path| - 1, x.length);
      }
    }

    // ----- persistence -----

    method Save() returns (data: Snapshot)
      requires Valid()
      ensures data == SnapshotOf(view)
    {
      hide NodeBooks, EdgeBooks, WellFormed, OutOf, InOf;
      var listing: Listing := map[];
      var rest := nodes.Keys;
      while rest != {}
        invariant rest <= nodes.Keys
        invariant listing == map n | n in nodes.Keys - rest :: NodeData(nodes[n].typ, nodes[n].out)
        decreases rest
      {
        var n :| n in rest;
        listing := listing[n := NodeData(nodes[n].typ, nodes[n].out)];
        rest := rest - {n};
      }
      data := Snapshot(listing, Known(cycleDetection), cycleCheckLimit);
    }

    /** Replays one listed node's edges, in any order, counting failures; `clean` if none came before. */
    method ReplayEdges(id: NodeId, data: NodeData, ghost L: Listing, ghost clean: bool) returns (errs: nat)
      requires Valid() && view.mode == Ignore && id !in L
      requires clean ==> !Malformed(id)
      requires clean ==> view.types == LoadedTypes(L[id := NodeData(data.typ, map[])])
      requires clean ==> view.edges == ListedEdges(L[id := NodeData(data.typ, map[])])
      modifies this
      ensures Valid() && view.mode == Ignore && view.limit == old(view.limit)
      ensures clean ==> (errs == 0 <==> forall t :: t in data.out ==> !Malformed(t) && !CrossTenant(id, t))
      ensures clean && errs == 0 ==>
              view.types == LoadedTypes(L[id := data]) && view.edges == ListedEdges(L[id := data])
    {
      hide Valid, LoadedTypes, ListedEdges, AddEdgeTo, Malformed, CrossTenant;
      errs := 0;
      var rest := data.out.Keys;
      ghost var done: map<NodeId, string> := map[];
      while rest != {}
        invariant rest <= data.out.Keys && done == data.out - rest
        invariant Valid() && view.mode == Ignore && view.limit == old(view.limit)
        invariant clean ==> (errs == 0 <==> forall t :: t in done ==> !Malformed(t) && !CrossTenant(id, t))
        invariant clean && errs == 0 ==> view.types == LoadedTypes(L[id := NodeData(data.typ, done)])
        invariant clean && errs == 0 ==> view.edges == ListedEdges(L[id := NodeData(data.typ, done)])
        decreases rest
      {
        var t :| t in rest;
        ghost var v := view;
        var r := AddEdge(id, t, data.out[t]);
        AddEdgeEffect(v, id, t, data.out[t], view, r);
        ghost var M := L[id := NodeData(data.typ, done)];
        if clean && errs == 0 {
          LoadEdgeStep(M, id, t, data.out[t], v, view, r);
        }
        if r != Ok {
          errs := errs + 1;
        }
        rest := rest - {t};
        assert data.out - rest == done[t := data.out[t]];
        assert M[id := M[id].(out := done[t := data.out[t]])] == L[id := NodeData(data.typ, done[t := data.out[t]])];
        done := done[t := data.out[t]];
      }
      assert done == data.out;
    }

    /** Replays a whole listing, in any order, into an empty scratch graph, counting failures. */
    method Replay(listing: Listing) returns (errs: nat)
      requires Valid() && view.mode == Ignore && view.types == map[] && view.edges == map[]
      modifies this
      ensures Valid() && view.mode == Ignore && view.limit == old(view.limit)
      ensures errs == 0 <==> Loadable(listing)
      ensures errs == 0 ==> view.types == LoadedTypes(listing) && view.edges == ListedEdges(listing)
    {
      hide Valid, LoadedTypes, ListedEdges, AddNodeTo, Malformed, CrossTenant;
      errs := 0;
      var rest := listing.Keys;
      ghost var done: Listing := map[];
      EmptyListing();
      while rest != {}
        invariant rest <= listing.Keys && done == listing - rest
        invariant Valid() && view.mode == Ignore && view.limit == old(view.limit)
        invariant errs == 0 <==> Loadable(done)
        invariant errs == 0 ==> view.types == LoadedTypes(done) && view.edges == ListedEdges(done)
        decreases rest
      {
        var id :| id in rest;
        rest := rest - {id};
        ghost var v := view;
        var r := AddNode(id, listing[id].typ);
        AddNodeKeeps(v, id, listing[id].typ);
        if errs == 0 {
          LoadNodeStep(done, id, listing[id].typ, v);
        }
        LoadableGrows(done, id, listing[id]);
        assert listing - rest == done[id := listing[id]];
        if r != Ok {
          errs := errs + 1;
        } else {
          var more := ReplayEdges(id, listing[id], done, errs == 0);
          errs := errs + more;
        }
        done := done[id := listing[id]];
      }
      assert done == listing;
    }

    /** Replaces the graph by a replay of `data`; on any failure the receiver is untouched. */
    method Load(data: Snapshot) returns (r: LoadResult)
      requires Valid()
      modifies this
      ensures Valid()
      ensures r.UnrecognisedMode? <==> data.mode.Unknown?
      ensures r.Loaded? <==> !data.mode.Unknown? && Loadable(data.nodes)
      ensures !r.Loaded? ==> view == old(view)
      ensures r.Loaded? ==> view.types == LoadedTypes(data.nodes) && view.edges == ListedEdges(data.nodes)
      ensures r.Loaded? ==> view.mode == (if data.mode.Known? then data.mode.mode else old(view.mode))
      ensures r.Loaded? ==> view.limit == (if data.limit > 0 then data.limit else old(view.limit))
    {
      hide Valid, LoadedTypes, ListedEdges, Loadable;
      if data.mode.Unknown? {
        return UnrecognisedMode;
      }
      LimitFacts();
      var scratch := new FlatGraph(Ignore);
      scratch.SetCycleCheckLimit(if data.limit > 0 then data.limit else cycleCheckLimit);
      var errs := scratch.Replay(data.nodes);
      if errs > 0 {
        return EntriesSkipped(errs);
      }
      Adopt(scratch, if data.mode.Known? then data.mode.mode else cycleDetection);
      return Loaded;
    }

    /** Takes over the state of a freshly replayed graph. */
    method Adopt(scratch: FlatGraph, mode: Mode)
      requires scratch.Valid() && scratch != this
      modifies this
      ensures Valid() && view == scratch.view.(mode := mode)
    {
      hide Mirrors, NodeBooks, EdgeBooks, WellFormed;
      ModeKeepsWellFormed(scratch.view, mode);
      ModeKeepsMirrors(scratch.nodes, scratch.view, mode);
      nodes, index, tenantNodes := scratch.nodes, scratch.index, scratch.tenantNodes;
      edgeCount, nodeCounters := scratch.edgeCount, scratch.nodeCounters;
      edgeCounters, vodeCounters := scratch.edgeCounters, scratch.vodeCounters;
      cycleDetection, cycleCheckLimit := mode, scratch.cycleCheckLimit;
      view := scratch.view.(mode := mode);
    }

    lemma LimitFacts()
      requires Valid()
      ensures view.limit > 0 && cycleCheckLimit == view.limit && cycleDetection == view.mode
    {
    }

    /** A saved graph always loads, into any graph and in any replay order, as the graph that was saved. */
    method SaveThenLoad(into: FlatGraph) returns (r: LoadResult)
      requires Valid() && into.Valid()
      modifies into
      ensures into.Valid() && r == Loaded && into.view == old(view)
    {
      hide Valid, LoadedTypes, ListedEdges, Loadable;
      LimitFacts();
      WellFormedFact();
      var data := Save();
      SavedGraphReplays(view);
      r := into.Load(data);
    }

    lemma WellFormedFact()
      requires Valid()
      ensures WellFormed(view)
    {
    }
  }

  datatype PathResult = Found(path: seq<NodeId>) | CrossTenantPath | NodeNotFound | NoPath

  datatype ExistsResult = Answer(exists_: bool, length: nat) | PathCrossTenant | EndpointNotFound

  datatype TenantVerdict = TenantRequired | Verdict(cycle: bool)

  /** The subgraph on the nodes of one tenant. */
  function TenantEdges(E: Edges, prefix: string): Edges {
    set e | e in E && NodeIdPrefix(e.0) == prefix && NodeIdPrefix(e.1) == prefix
  }
}
