/**
 * A FlatGraph's node records and books as values: how the two edge halves mirror one edge set, what
 * the node and edge books must equal, and what each in-place update does to them.
 */
module GraphRecords {
  import opened TenantIds
  import opened Digraph
  import opened GroupedBooks
  import opened GraphSpec

  datatype NodeRecord = NodeRecord(typ: string, out: map<NodeId, string>, inc: map<NodeId, string>)

  type Records = map<NodeId, NodeRecord>

  function EdgePrefix(e: Edge): string {
    NodeIdPrefix(e.0)
  }

  function Vodes(types: map<NodeId, string>): set<NodeId> {
    set n | n in types && types[n] == VODE
  }

  function Typed(types: map<NodeId, string>): set<NodeId> {
    set n | n in types && types[n] != ""
  }

  function TypeKey(types: map<NodeId, string>): NodeId -> string {
    n => if n in types then types[n] else ""
  }

  function OutOf(edges: map<Edge, string>, n: NodeId): map<NodeId, string> {
    map m | m in (set e | e in edges :: e.1) && (n, m) in edges :: edges[(n, m)]
  }

  function InOf(edges: map<Edge, string>, n: NodeId): map<NodeId, string> {
    map m | m in (set e | e in edges :: e.0) && (m, n) in edges :: edges[(m, n)]
  }

  function RecordOf(v: View, n: NodeId): NodeRecord
    requires n in v.types
  {
    NodeRecord(v.types[n], OutOf(v.edges, n), InOf(v.edges, n))
  }


  /** `out` and `inc` are the two mirrored halves of one edge set. */
  ghost predicate Mirrors(nodes: Records, v: View) {
    && nodes.Keys == v.types.Keys
    && (forall n :: n in nodes ==> nodes[n] == RecordOf(v, n))
  }

  ghost predicate TypeIndexMatch(types: map<NodeId, string>, index: map<string, set<NodeId>>) {
    IndexMatch(Typed(types), TypeKey(types), index)
  }

  /** Index, tenant sets and the per-tenant node counters equal a recount of the nodes. */
  ghost predicate NodeBooks(types: map<NodeId, string>, index: map<string, set<NodeId>>,
                            tenantNodes: map<string, set<NodeId>>, nodeCounters: map<string, int>,
                            vodeCounters: map<string, int>) {
    && CountersMatch(types.Keys, NodeIdPrefix, nodeCounters)
    && CountersMatch(Vodes(types), NodeIdPrefix, vodeCounters)
    && IndexMatch(types.Keys, NodeIdPrefix, tenantNodes)
    && TypeIndexMatch(types, index)
  }

  /** Edge counters equal a recount of the edges by the tenant of their source. */
  ghost predicate EdgeBooks(edges: map<Edge, string>, edgeCount: int, edgeCounters: map<string, int>) {
    && edgeCount == |edges|
    && CountersMatch(edges.Keys, EdgePrefix, edgeCounters)
  }

  function LinkOut(nodes: Records, f: NodeId, t: NodeId, rel: string): Records
    requires f in nodes
  {
    nodes[f := nodes[f].(out := nodes[f].out[t := rel])]
  }

  function LinkIn(nodes: Records, f: NodeId, t: NodeId, rel: string): Records
    requires t in nodes
  {
    nodes[t := nodes[t].(inc := nodes[t].inc[f := rel])]
  }

  function UnlinkOut(nodes: Records, f: NodeId, t: NodeId): Records {
    if f in nodes then nodes[f := nodes[f].(out := nodes[f].out - {t})] else nodes
  }

  function UnlinkIn(nodes: Records, f: NodeId, t: NodeId): Records {
    if t in nodes then nodes[t := nodes[t].(inc := nodes[t].inc - {f})] else nodes
  }

  /** Clearing an entry changes neither which nodes there are nor their types. */
  lemma UnlinkKeepsNodes(nodes: Records, f: NodeId, t: NodeId)
    ensures UnlinkOut(nodes, f, t).Keys == nodes.Keys && UnlinkIn(nodes, f, t).Keys == nodes.Keys
    ensures forall n :: n in nodes ==>
            UnlinkOut(nodes, f, t)[n].typ == nodes[n].typ && UnlinkIn(nodes, f, t)[n].typ == nodes[n].typ
  {
  }

  lemma OutAfterLink(edges: map<Edge, string>, f: NodeId, t: NodeId, rel: string, n: NodeId)
    ensures OutOf(edges[(f, t) := rel], n) == if n == f then OutOf(edges, n)[t := rel] else OutOf(edges, n)
  {
  }

  lemma InAfterLink(edges: map<Edge, string>, f: NodeId, t: NodeId, rel: string, n: NodeId)
    ensures InOf(edges[(f, t) := rel], n) == if n == t then InOf(edges, n)[f := rel] else InOf(edges, n)
  {
  }

  lemma OutAfterUnlink(edges: map<Edge, string>, f: NodeId, t: NodeId, n: NodeId)
    ensures OutOf(edges - {(f, t)}, n) == if n == f then OutOf(edges, n) - {t} else OutOf(edges, n)
  {
  }

  lemma InAfterUnlink(edges: map<Edge, string>, f: NodeId, t: NodeId, n: NodeId)
    ensures InOf(edges - {(f, t)}, n) == if n == t then InOf(edges, n) - {f} else InOf(edges, n)
  {
  }

  lemma LinkMirrors(nodes: Records, v: View, f: NodeId, t: NodeId, rel: string)
    requires Mirrors(nodes, v) && f in nodes && t in nodes
    ensures Mirrors(LinkIn(LinkOut(nodes, f, t, rel), f, t, rel), v.(edges := v.edges[(f, t) := rel]))
  {
    var v' := v.(edges := v.edges[(f, t) := rel]);
    var nodes1 := LinkOut(nodes, f, t, rel);
    var nodes2 := LinkIn(nodes1, f, t, rel);
    assert nodes2.Keys == nodes.Keys;
    forall n | n in nodes2
      ensures nodes2[n] == RecordOf(v', n)
    {
      OutAfterLink(v.edges, f, t, rel, n);
      InAfterLink(v.edges, f, t, rel, n);
      assert nodes[n] == RecordOf(v, n);
    }
  }

  lemma UnlinkMirrors(nodes: Records, v: View, f: NodeId, t: NodeId)
    requires Mirrors(nodes, v)
    ensures Mirrors(UnlinkIn(UnlinkOut(nodes, f, t), f, t), DropEdge(v, (f, t)))
  {
    var v' := DropEdge(v, (f, t));
    var nodes' := UnlinkIn(UnlinkOut(nodes, f, t), f, t);
    assert nodes'.Keys == nodes.Keys;
    forall n | n in nodes'
      ensures nodes'[n] == RecordOf(v', n)
    {
      OutAfterUnlink(v.edges, f, t, n);
      InAfterUnlink(v.edges, f, t, n);
      assert nodes[n] == RecordOf(v, n);
    }
  }

  lemma NewNodeMirrors(nodes: Records, v: View, id: NodeId)
    requires Mirrors(nodes, v) && id !in nodes
    requires forall e :: e in v.edges ==> e.0 != id && e.1 != id
    ensures Mirrors(nodes[id := NodeRecord("", map[], map[])], v.(types := v.types[id := ""]))
  {
  }

  lemma RetypeMirrors(nodes: Records, v: View, id: NodeId, typ: string)
    requires Mirrors(nodes, v) && id in nodes
    ensures Mirrors(nodes[id := nodes[id].(typ := typ)], v.(types := v.types[id := typ]))
  {
    var v' := v.(types := v.types[id := typ]);
    var nodes' := nodes[id := nodes[id].(typ := typ)];
    assert nodes'.Keys == v'.types.Keys;
    forall n | n in nodes'
      ensures nodes'[n] == RecordOf(v', n)
    {
      assert nodes[n] == RecordOf(v, n);
    }
  }

  lemma DropNodeMirrors(nodes: Records, v: View, id: NodeId)
    requires Mirrors(nodes, v)
    ensures Mirrors(nodes - {id}, v.(types := v.types - {id}))
  {
  }

  lemma NewNodeIndex(types: map<NodeId, string>, n: NodeId, index: map<string, set<NodeId>>)
    requires n !in types && TypeIndexMatch(types, index)
    ensures TypeIndexMatch(types[n := ""], index)
  {
  }

  lemma RetypeIndex(types: map<NodeId, string>, n: NodeId, t: string, index: map<string, set<NodeId>>)
    requires n in types && t != "" && TypeIndexMatch(types, index)
    ensures TypeIndexMatch(types[n := t],
                           IndexAdd(if types[n] != "" then IndexDel(index, types[n], n) else index, t, n))
  {
    var types' := types[n := t];
    var rest := Typed(types) - {n};
    var without := if types[n] != "" then IndexDel(index, types[n], n) else index;
    if types[n] != "" {
      IndexDelMatch(Typed(types), TypeKey(types), index, n);
    } else {
      assert rest == Typed(types);
    }
    IndexRekey(rest, TypeKey(types), TypeKey(types'), without);
    IndexAddMatch(rest, TypeKey(types'), without, n);
    assert Typed(types') == rest + {n};
  }

  lemma DropNodeIndex(types: map<NodeId, string>, n: NodeId, index: map<string, set<NodeId>>)
    requires n in types && TypeIndexMatch(types, index)
    ensures TypeIndexMatch(types - {n}, if types[n] != "" then IndexDel(index, types[n], n) else index)
  {
    var types' := types - {n};
    if types[n] != "" {
      IndexDelMatch(Typed(types), TypeKey(types), index, n);
      assert Typed(types') == Typed(types) - {n};
      IndexRekey(Typed(types'), TypeKey(types), TypeKey(types'), IndexDel(index, types[n], n));
    } else {
      assert Typed(types') == Typed(types);
      IndexRekey(Typed(types'), TypeKey(types), TypeKey(types'), index);
    }
  }

  lemma RetypeVodes(types: map<NodeId, string>, n: NodeId, t: string, c: map<string, int>)
    requires n in types && t != types[n] && CountersMatch(Vodes(types), NodeIdPrefix, c)
    ensures CountersMatch(Vodes(types[n := t]), NodeIdPrefix,
                          if types[n] == VODE then Bump(c, NodeIdPrefix(n), -1)
                          else if t == VODE then Bump(c, NodeIdPrefix(n), 1) else c)
  {
    var types' := types[n := t];
    if types[n] == VODE {
      CountDel(Vodes(types), NodeIdPrefix, c, n);
      assert Vodes(types') == Vodes(types) - {n};
    } else if t == VODE {
      CountAdd(Vodes(types), NodeIdPrefix, c, n);
      assert Vodes(types') == Vodes(types) + {n};
    } else {
      assert Vodes(types') == Vodes(types);
    }
  }

  lemma DropNodeVodes(types: map<NodeId, string>, n: NodeId, c: map<string, int>)
    requires n in types && CountersMatch(Vodes(types), NodeIdPrefix, c)
    ensures CountersMatch(Vodes(types - {n}), NodeIdPrefix,
                          if types[n] == VODE then Bump(c, NodeIdPrefix(n), -1) else c)
  {
    if types[n] == VODE {
      CountDel(Vodes(types), NodeIdPrefix, c, n);
      assert Vodes(types - {n}) == Vodes(types) - {n};
    } else {
      assert Vodes(types - {n}) == Vodes(types);
    }
  }

  lemma NewNodeBooks(types: map<NodeId, string>, n: NodeId, index: map<string, set<NodeId>>,
                     tenantNodes: map<string, set<NodeId>>, nodeCounters: map<string, int>,
                     vodeCounters: map<string, int>)
    requires n !in types && NodeBooks(types, index, tenantNodes, nodeCounters, vodeCounters)
    ensures NodeBooks(types[n := ""], index, IndexAdd(tenantNodes, NodeIdPrefix(n), n),
                      Bump(nodeCounters, NodeIdPrefix(n), 1), vodeCounters)
  {
    hide CountersMatch, IndexMatch, NodeIdPrefix, Bump, IndexAdd, TypeIndexMatch;
    CountAdd(types.Keys, NodeIdPrefix, nodeCounters, n);
    IndexAddMatch(types.Keys, NodeIdPrefix, tenantNodes, n);
    assert types[n := ""].Keys == types.Keys + {n};
    assert Vodes(types[n := ""]) == Vodes(types);
    NewNodeIndex(types, n, index);
  }

  lemma RetypeBooks(types: map<NodeId, string>, n: NodeId, t: string, index: map<string, set<NodeId>>,
                    tenantNodes: map<string, set<NodeId>>, nodeCounters: map<string, int>,
                    vodeCounters: map<string, int>)
    requires n in types && t != "" && t != types[n]
    requires NodeBooks(types, index, tenantNodes, nodeCounters, vodeCounters)
    ensures NodeBooks(types[n := t],
                      IndexAdd(if types[n] != "" then IndexDel(index, types[n], n) else index, t, n),
                      tenantNodes, nodeCounters,
                      if types[n] == VODE then Bump(vodeCounters, NodeIdPrefix(n), -1)
                      else if t == VODE then Bump(vodeCounters, NodeIdPrefix(n), 1) else vodeCounters)
  {
    assert types[n := t].Keys == types.Keys;
    RetypeIndex(types, n, t, index);
    RetypeVodes(types, n, t, vodeCounters);
  }

  lemma DropNodeBooks(types: map<NodeId, string>, n: NodeId, index: map<string, set<NodeId>>,
                      tenantNodes: map<string, set<NodeId>>, nodeCounters: map<string, int>,
                      vodeCounters: map<string, int>)
    requires n in types && NodeBooks(types, index, tenantNodes, nodeCounters, vodeCounters)
    ensures NodeBooks(types - {n}, if types[n] != "" then IndexDel(index, types[n], n) else index,
                      IndexDel(tenantNodes, NodeIdPrefix(n), n), Bump(nodeCounters, NodeIdPrefix(n), -1),
                      if types[n] == VODE then Bump(vodeCounters, NodeIdPrefix(n), -1) else vodeCounters)
  {
    assert (types - {n}).Keys == types.Keys - {n};
    CountDel(types.Keys, NodeIdPrefix, nodeCounters, n);
    IndexDelMatch(types.Keys, NodeIdPrefix, tenantNodes, n);
    DropNodeIndex(types, n, index);
    DropNodeVodes(types, n, vodeCounters);
  }

  lemma NewEdgeBooks(edges: map<Edge, string>, e: Edge, rel: string, edgeCount: int, edgeCounters: map<string, int>)
    requires e !in edges && EdgeBooks(edges, edgeCount, edgeCounters)
    ensures EdgeBooks(edges[e := rel], edgeCount + 1, Bump(edgeCounters, NodeIdPrefix(e.0), 1))
  {
    CountAdd(edges.Keys, EdgePrefix, edgeCounters, e);
    assert edges[e := rel].Keys == edges.Keys + {e};
  }

  lemma DropEdgeBooks(edges: map<Edge, string>, e: Edge, edgeCount: int, edgeCounters: map<string, int>)
    requires e in edges && EdgeBooks(edges, edgeCount, edgeCounters)
    ensures EdgeBooks(edges - {e}, edgeCount - 1, Bump(edgeCounters, NodeIdPrefix(e.0), -1))
  {
    CountDel(edges.Keys, EdgePrefix, edgeCounters, e);
    assert (edges - {e}).Keys == edges.Keys - {e};
  }

  /** What ExtractEntityEdges found in an entity document: its references, or a repeated target. */
  datatype Extracted = Edges(edges: seq<EntityEdge>) | DuplicateTarget

  datatype EntityEdge = EntityEdge(target: string, targetId: int, rel: string)

  function TargetsOf(tenant: uint16, edges: seq<EntityEdge>): map<NodeId, string> {
    if edges == [] then map[]
    else
      var last := edges[|edges| - 1];
      TargetsOf(tenant, edges[..|edges| - 1])[MakeNodeId(tenant, last.target, last.targetId) := last.rel]
  }

  /** Reference `i` is the last one to name the node `t`. */
  predicate LastNames(tenant: uint16, edges: seq<EntityEdge>, t: NodeId, i: int) {
    && 0 <= i < |edges| && t == MakeNodeId(tenant, edges[i].target, edges[i].targetId)
    && forall k :: i < k < |edges| ==> t != MakeNodeId(tenant, edges[k].target, edges[k].targetId)
  }

  /** The targets are the nodes the references name in the node's own tenant, each labelled by the last such. */
  lemma {:induction false} TargetsAreTheNamedNodes(tenant: uint16, edges: seq<EntityEdge>)
    ensures forall i :: 0 <= i < |edges| ==>
              MakeNodeId(tenant, edges[i].target, edges[i].targetId) in TargetsOf(tenant, edges)
    ensures forall t :: t in TargetsOf(tenant, edges) ==>
              exists i :: LastNames(tenant, edges, t, i) && TargetsOf(tenant, edges)[t] == edges[i].rel
  {
    hide MakeNodeId;
    if edges != [] {
      var n := |edges| - 1;
      TargetsAreTheNamedNodes(tenant, edges[..n]);
      forall t | t in TargetsOf(tenant, edges)
        ensures exists i :: LastNames(tenant, edges, t, i) && TargetsOf(tenant, edges)[t] == edges[i].rel
      {
        if t == MakeNodeId(tenant, edges[n].target, edges[n].targetId) {
          assert LastNames(tenant, edges, t, n);
        } else {
          var i :| LastNames(tenant, edges[..n], t, i) && TargetsOf(tenant, edges[..n])[t] == edges[i].rel;
          assert LastNames(tenant, edges, t, i);
        }
      }
      forall i | 0 <= i < |edges|
        ensures MakeNodeId(tenant, edges[i].target, edges[i].targetId) in TargetsOf(tenant, edges)
      {
        assert i < n ==> edges[..n][i] == edges[i];
      }
    }
  }

  /** What a scoped tenant's entity refers to is in that tenant. */
  lemma TargetsStayInTheTenant(tenant: uint16, edges: seq<EntityEdge>, t: NodeId)
    requires tenant != 0 && t in TargetsOf(tenant, edges)
    ensures NodeIdPrefix(t) == GraphNodePrefix(tenant) && !Malformed(t)
  {
    hide MakeNodeId, NodeIdPrefix, Malformed;
    TargetsAreTheNamedNodes(tenant, edges);
    var i :| LastNames(tenant, edges, t, i);
    ScopedIdCarriesItsTenant(tenant, edges[i].target, edges[i].targetId);
  }

  /**
   * The node points exactly at the nodes its references name, each edge labelled by the last reference
   * that names its target.
   */
  ghost predicate PointsAsNamed(v: View, node: NodeId, tenant: uint16, edges: seq<EntityEdge>) {
    && (forall i :: 0 <= i < |edges| ==> (node, MakeNodeId(tenant, edges[i].target, edges[i].targetId)) in v.edges)
    && (forall t :: (node, t) in v.edges ==>
          exists i :: LastNames(tenant, edges, t, i) && v.edges[(node, t)] == edges[i].rel)
  }

  lemma ReplacedPointsAsNamed(before: map<Edge, string>, v: View, node: NodeId, tenant: uint16, edges: seq<EntityEdge>)
    requires v.edges == ReplaceOut(before, node, TargetsOf(tenant, edges))
    ensures PointsAsNamed(v, node, tenant, edges)
  {
    hide MakeNodeId, LastNames, TargetsOf;
    TargetsAreTheNamedNodes(tenant, edges);
    var targets := TargetsOf(tenant, edges);
    forall t | (node, t) in v.edges
      ensures t in targets && v.edges[(node, t)] == targets[t]
    {
    }
    forall t | t in targets
      ensures (node, t) in v.edges
    {
    }
  }

  function OutEdges(node: NodeId, targets: set<NodeId>): set<Edge> {
    set t | t in targets :: (node, t)
  }

  function OutEdgesTo(node: NodeId, targets: map<NodeId, string>, S: set<NodeId>): map<Edge, string>
    requires S <= targets.Keys
  {
    map e | e in OutEdges(node, S) :: targets[e.1]
  }

  /** The edges left once `node` keeps only edges into `targets`. */
  function Pruned(edges: map<Edge, string>, node: NodeId, targets: set<NodeId>): map<Edge, string> {
    map e | e in edges && (e.0 == node ==> e.1 in targets) :: edges[e]
  }

  lemma PrunedIs(edges: map<Edge, string>, node: NodeId, targets: set<NodeId>, gone: set<NodeId>)
    requires gone !! targets
    requires forall m :: (node, m) in edges ==> m in gone || m in targets
    ensures edges - OutEdges(node, gone) == Pruned(edges, node, targets)
  {
  }

  lemma MicroAddNode(v: View, id: NodeId, typ: string)
    ensures Micro(v, AddNodeTo(v, id, typ).0)
  {
  }

  lemma AddNodeAdds(v: View, id: NodeId, typ: string)
    requires AddNodeTo(v, id, typ).1 == Ok
    ensures id in AddNodeTo(v, id, typ).0.types
  {
  }

  lemma PlacedNone(types: map<NodeId, string>)
    ensures Placed(types, {}) == types
  {
  }

  lemma PlacedGrow(types: map<NodeId, string>, S: set<NodeId>, types': map<NodeId, string>)
    requires TypesGrow(Placed(types, S), types') || types' == Placed(types, S)
    ensures TypesGrow(types, types')
  {
  }

  lemma NoTargetYet(edges: map<Edge, string>, node: NodeId, targets: map<NodeId, string>)
    ensures edges + OutEdgesTo(node, targets, {}) == edges
  {
  }

  lemma OneMoreTarget(edges: map<Edge, string>, node: NodeId, targets: map<NodeId, string>, S: set<NodeId>, t: NodeId)
    requires S <= targets.Keys && t in targets
    ensures (edges + OutEdgesTo(node, targets, S))[(node, t) := targets[t]]
            == edges + OutEdgesTo(node, targets, S + {t})
  {
  }

  lemma AllTargets(edges: map<Edge, string>, node: NodeId, targets: map<NodeId, string>)
    ensures Pruned(edges, node, targets.Keys) + OutEdgesTo(node, targets, targets.Keys)
            == ReplaceOut(edges, node, targets)
  {
  }

  lemma PartialEdges(edges: map<Edge, string>, node: NodeId, targets: map<NodeId, string>, done: set<NodeId>,
                     t: NodeId, edges': map<Edge, string>)
    requires done <= targets.Keys && forall e :: e in edges && e.0 == node ==> e.1 in targets
    requires var base := edges + OutEdgesTo(node, targets, done); edges' == base || edges' == base - {(node, t)}
    ensures EdgesOldOrNew(edges, node, targets, edges')
  {
  }

  lemma PartialSurvive(edges: map<Edge, string>, node: NodeId, targets: map<NodeId, string>, done: set<NodeId>,
                       t: NodeId, edges': map<Edge, string>, r: Outcome)
    requires done <= targets.Keys
    requires r.ErrRelabel? && !r.restored ==> t in targets && t !in done && (node, t) in edges
    requires var base := edges + OutEdgesTo(node, targets, done);
             edges' == if r.ErrRelabel? && !r.restored then base - {(node, t)} else base
    ensures Survive(edges, node, targets.Keys, edges', r)
  {
    hide OutEdgesTo;
    var more := OutEdgesTo(node, targets, done);
    forall u | (node, u) in edges && !(r.ErrRelabel? && !r.restored && u == t)
      ensures (node, u) in edges'
    {
      assert (node, u) in edges + more;
    }
  }

  lemma PrunedSurvive(edges: map<Edge, string>, node: NodeId, targets: map<NodeId, string>, edges': map<Edge, string>,
                      r: Outcome)
    requires Survive(Pruned(edges, node, targets.Keys), node, targets.Keys, edges', r)
    ensures Survive(edges, node, targets.Keys, edges', r)
  {
  }

  /** What is not a target yet is still as it was. */
  lemma NotYetThere(edges: map<Edge, string>, node: NodeId, targets: map<NodeId, string>, done: set<NodeId>, t: NodeId)
    requires done <= targets.Keys && t !in done
    ensures (node, t) in edges + OutEdgesTo(node, targets, done) <==> (node, t) in edges
  {
  }

  lemma PrunedPartial(edges: map<Edge, string>, node: NodeId, targets: map<NodeId, string>, edges': map<Edge, string>)
    requires EdgesOldOrNew(Pruned(edges, node, targets.Keys), node, targets, edges')
    ensures EdgesOldOrNew(edges, node, targets, edges')
  {
  }

  /** `edges'` is `edges` without some of the edges that touch `id`. */
  ghost predicate Kept(edges: map<Edge, string>, edges': map<Edge, string>, id: NodeId) {
    && (forall e :: e in edges' ==> e in edges && edges'[e] == edges[e])
    && (forall e :: e in edges && e.0 != id && e.1 != id ==> e in edges')
  }

  lemma KeptRefl(edges: map<Edge, string>, id: NodeId)
    ensures Kept(edges, edges, id)
  {
  }

  lemma KeptDrop(edges: map<Edge, string>, edges': map<Edge, string>, e: Edge, id: NodeId)
    requires Kept(edges, edges', id) && (e.0 == id || e.1 == id)
    ensures Kept(edges, edges' - {e}, id)
  {
  }

  lemma KeptAreEdges(edges: map<Edge, string>, edges': map<Edge, string>, id: NodeId)
    requires Kept(edges, edges', id)
    ensures edges'.Keys <= edges.Keys
  {
  }

  lemma NothingToDrop(v: View, id: NodeId)
    requires id !in v.types && forall e :: e in v.edges ==> e.0 in v.types && e.1 in v.types
    ensures DropNode(v, id) == v
  {
  }

  lemma KeptIsDropNode(v: View, edges1: map<Edge, string>, edges2: map<Edge, string>, id: NodeId)
    requires WellFormed(v) && Kept(v.edges, edges1, id) && Kept(edges1, edges2, id)
    requires forall e :: e in edges2 ==> e.0 != id && e.1 != id
    ensures v.(types := v.types - {id}, edges := edges2) == DropNode(v, id)
    ensures WellFormed(DropNode(v, id))
  {
    hide Malformed, CrossTenant;
    var kept := map e | e in v.edges && e.0 != id && e.1 != id :: v.edges[e];
    assert kept == edges2;
  }

  /** The records agree except for what `id` lists in its own `out` map. */
  ghost predicate SameButOut(mirror: Records, nodes: Records, id: NodeId) {
    && id in mirror && id in nodes && mirror - {id} == nodes - {id}
    && mirror[id].inc == nodes[id].inc && mirror[id].typ == nodes[id].typ
  }

  lemma SameButOutRefl(nodes: Records, id: NodeId)
    requires id in nodes
    ensures SameButOut(nodes, nodes, id)
  {
  }

  lemma SameElsewhere(mirror: Records, nodes: Records, id: NodeId, n: NodeId)
    requires mirror - {id} == nodes - {id} && n != id
    ensures n in mirror <==> n in nodes
    ensures n in mirror ==> mirror[n] == nodes[n]
  {
    assert n in mirror - {id} <==> n in nodes - {id};
    assert n in mirror ==> (mirror - {id})[n] == (nodes - {id})[n];
  }

  lemma MirrorUnlinkOut(mirror: Records, nodes: Records, id: NodeId, m: NodeId)
    requires SameButOut(mirror, nodes, id)
    ensures SameButOut(UnlinkIn(UnlinkOut(mirror, id, m), id, m), UnlinkIn(nodes, id, m), id)
    ensures UnlinkIn(nodes, id, m).Keys == nodes.Keys && UnlinkIn(nodes, id, m)[id].typ == nodes[id].typ
  {
    if m != id {
      SameElsewhere(mirror, nodes, id, m);
    }
    var mirror' := UnlinkIn(UnlinkOut(mirror, id, m), id, m);
    var nodes' := UnlinkIn(nodes, id, m);
    forall n | n != id
      ensures n in mirror' <==> n in nodes'
      ensures n in mirror' ==> mirror'[n] == nodes'[n]
    {
      SameElsewhere(mirror, nodes, id, n);
    }
    assert mirror' - {id} == nodes' - {id};
  }

  lemma MirrorUnlinkIn(mirror: Records, nodes: Records, id: NodeId, m: NodeId)
    requires mirror - {id} == nodes - {id} && m != id
    ensures UnlinkIn(UnlinkOut(mirror, m, id), m, id) - {id} == UnlinkOut(nodes, m, id) - {id}
  {
    forall n | n != id
      ensures n in mirror <==> n in nodes
      ensures n in mirror ==> mirror[n] == nodes[n]
    {
      SameElsewhere(mirror, nodes, id, n);
    }
  }

  lemma InFacts(nodes: Records, v: View, id: NodeId)
    requires Mirrors(nodes, v) && id in nodes
    ensures forall m :: m in nodes[id].inc <==> (m, id) in v.edges
  {
  }
}
