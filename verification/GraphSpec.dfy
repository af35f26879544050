/**
 * What a FlatGraph call does to the graph it represents: node types and labelled edges, without
 * the redundant maps. Map iteration order in the source makes some calls relations, not functions.
 */
module GraphSpec {
  import opened TenantIds
  import opened Digraph

  const VODE: string := "__vode__"
  const DEFAULT_CYCLE_CHECK_LIMIT: int := 512

  datatype Mode = Ignore | Warn | Error

  datatype View = View(types: map<NodeId, string>, edges: map<Edge, string>, mode: Mode, limit: int)

  datatype Outcome =
    | Ok
    | ErrMalformedNodeId
    | ErrNodeTypeMismatch
    | ErrCrossTenantEdge
    | ErrEdgeAlreadyExists
    | ErrCycleDetected
    | ErrDuplicateEdgeTarget
    | ErrRelabel(restored: bool, cause: Outcome)

  function Empty(mode: Mode): View {
    View(map[], map[], mode, DEFAULT_CYCLE_CHECK_LIMIT)
  }

  /** What every reachable graph satisfies. An untyped node never has an edge. */
  ghost predicate WellFormed(v: View) {
    && v.limit > 0
    && (forall n :: n in v.types ==> !Malformed(n))
    && (forall e :: e in v.edges ==>
          && e.0 in v.types && e.1 in v.types
          && v.types[e.0] != "" && v.types[e.1] != ""
          && !CrossTenant(e.0, e.1))
  }

  // ----- single updates -----

  /** addNodeLocked: creates the node if missing, then settles its type. */
  function AddNodeTo(v: View, id: NodeId, typ: string): (View, Outcome) {
    if Malformed(id) then (v, ErrMalformedNodeId)
    else
      var types := if id in v.types then v.types else v.types[id := ""];
      var was := types[id];
      if typ == "" || was == typ || (was != "" && typ == VODE) then (v.(types := types), Ok)
      else if was != "" && was != VODE then (v.(types := types), ErrNodeTypeMismatch)
      else (v.(types := types[id := typ]), Ok)
  }

  function DropEdge(v: View, e: Edge): View {
    v.(edges := v.edges - {e})
  }

  function DropNode(v: View, id: NodeId): View {
    v.(types := v.types - {id}, edges := map e | e in v.edges && e.0 != id && e.1 != id :: v.edges[e])
  }

  /** The edges the cycle check follows when `from` asks: those not entering another tenant. */
  function Followed(E: Edges, from: NodeId): Edges {
    set e | e in E && !CrossTenant(from, e.1)
  }

  /**
   * The verdicts wouldCreateCycle may give. With R the nodes reachable from `to` over followed
   * edges: exact while |R| is below the budget, and a conservative "cycle" above it.
   */
  ghost predicate CycleVerdict(v: View, from: NodeId, to: NodeId, cycle: bool) {
    var R := ReachSet(Followed(v.edges.Keys, from), to);
    && (from in R ==> cycle)
    && (from !in R && (v.limit <= 0 || |R| < v.limit) ==> !cycle)
    && (0 < v.limit < |R| ==> cycle)
  }

  /** addEdgeLocked: placeholder endpoints are created even when the edge is then refused. */
  ghost predicate AddEdgeTo(v: View, from: NodeId, to: NodeId, rel: string, v': View, r: Outcome) {
    if CrossTenant(from, to) then v' == v && r == ErrCrossTenantEdge
    else
      var (v1, r1) := AddNodeTo(v, from, VODE);
      if r1 != Ok then v' == v1 && r == r1
      else
        var (v2, r2) := AddNodeTo(v1, to, VODE);
        if r2 != Ok then v' == v2 && r == r2
        else if (from, to) in v2.edges then
          v' == v2 && r == (if v2.edges[(from, to)] == rel then Ok else ErrEdgeAlreadyExists)
        else if r == ErrCycleDetected then
          v' == v2 && v.mode == Error && CycleVerdict(v2, from, to, true)
        else
          && r == Ok && v' == v2.(edges := v2.edges[(from, to) := rel])
          && (v.mode == Error ==> CycleVerdict(v2, from, to, false))
  }

  /** CheckEdge: AddEdge's verdict without its effects, except that malformed IDs are not looked at. */
  ghost predicate CheckEdgeTo(v: View, from: NodeId, to: NodeId, rel: string, r: Outcome) {
    if CrossTenant(from, to) then r == ErrCrossTenantEdge
    else if (from, to) in v.edges then r == (if v.edges[(from, to)] == rel then Ok else ErrEdgeAlreadyExists)
    else
      r in {Ok, ErrCycleDetected}
      && if v.mode == Error then CycleVerdict(v, from, to, r == ErrCycleDetected) else r == Ok
  }

  // ----- UpdateFromEntity: a chain of single updates -----

  ghost predicate Micro(v: View, v': View) {
    || (exists id, typ :: v' == AddNodeTo(v, id, typ).0)
    || (exists e :: v' == DropEdge(v, e))
    || (exists from, to, rel, r :: AddEdgeTo(v, from, to, rel, v', r))
  }

  ghost predicate MicroRun(run: seq<View>) {
    |run| > 0 && forall i :: 0 <= i < |run| - 1 ==> Micro(run[i], run[i + 1])
  }

  ghost predicate MicroSteps(v: View, v': View) {
    exists run :: MicroRun(run) && run[0] == v && run[|run| - 1] == v'
  }

  /** `S` typed as placeholders wherever it is missing or untyped. */
  function Placed(types: map<NodeId, string>, S: set<NodeId>): map<NodeId, string> {
    map n | n in types.Keys + S :: if n in S && (n !in types || types[n] == "") then VODE else types[n]
  }

  function PlacedBy(node: NodeId, targets: set<NodeId>): set<NodeId> {
    if targets == {} then {} else targets + {node}
  }

  /** The same edges, except that `node` points exactly at `targets`. */
  function ReplaceOut(edges: map<Edge, string>, node: NodeId, targets: map<NodeId, string>): map<Edge, string> {
    map e | e in edges.Keys + (set t | t in targets :: (node, t)) && (e.0 == node ==> e.1 in targets) ::
      if e.0 == node then targets[e.1] else edges[e]
  }

  /** Nodes stay, and a node keeps a type it has. */
  ghost predicate TypesGrow(types: map<NodeId, string>, types': map<NodeId, string>) {
    forall n :: n in types ==> n in types' && (types[n] == "" || types'[n] == types[n])
  }

  /** Other nodes' edges stay, and the node's own edges are old or new ones. */
  ghost predicate EdgesOldOrNew(edges: map<Edge, string>, node: NodeId, targets: map<NodeId, string>,
                                edges': map<Edge, string>) {
    && (forall e: Edge :: e.0 != node ==> (e in edges' <==> e in edges) && (e in edges ==> edges'[e] == edges[e]))
    && (forall e :: e in edges' && e.0 == node ==>
          && e.1 in targets
          && (edges'[e] == targets[e.1] || (e in edges && edges'[e] == edges[e])))
  }

  /** Why AddEdge refuses an edge between typed nodes: a cycle only in "error" mode. */
  predicate EdgeError(mode: Mode, r: Outcome) {
    r == ErrCrossTenantEdge || r == ErrMalformedNodeId || (r == ErrCycleDetected && mode == Error)
  }

  /** Why an entity update stops: a refused edge, or a relabelling the cycle check refused. */
  predicate UpdateError(mode: Mode, r: Outcome) {
    EdgeError(mode, r) || (r.ErrRelabel? && r.cause == ErrCycleDetected && mode == Error)
  }

  /** Of the node's old edges to targets it keeps, none is lost, or just one whose label could not be put back. */
  ghost predicate Survive(edges: map<Edge, string>, node: NodeId, targets: set<NodeId>, edges': map<Edge, string>,
                          r: Outcome) {
    if r.ErrRelabel? && !r.restored then
      exists t :: t in targets && (node, t) in edges && (node, t) !in edges'
        && forall u :: u in targets && u != t && (node, u) in edges ==> (node, u) in edges'
    else forall u :: u in targets && (node, u) in edges ==> (node, u) in edges'
  }

  /** UpdateFromEntityForTenant: exact on success; on failure what was done so far stays. */
  ghost predicate UpdateTo(v: View, node: NodeId, entity: string, targets: map<NodeId, string>, v': View, r: Outcome) {
    var (v1, r1) := AddNodeTo(v, node, entity);
    if r1 != Ok then v' == v1 && r == r1
    else
      && MicroSteps(v, v')
      && v'.mode == v.mode && v'.limit == v.limit
      && (r == Ok ==>
            && v'.types == Placed(v1.types, PlacedBy(node, targets.Keys))
            && v'.edges == ReplaceOut(v.edges, node, targets))
      && (r == Ok || UpdateError(v.mode, r))
      && EdgesOldOrNew(v.edges, node, targets, v'.edges)
      && Survive(v.edges, node, targets.Keys, v'.edges, r)
      && TypesGrow(v1.types, v'.types)
  }

  // ----- runs -----

  datatype Op =
    | AddNode(id: NodeId, typ: string)
    | RemoveNode(id: NodeId)
    | AddEdge(from: NodeId, to: NodeId, rel: string)
    | RemoveEdge(from: NodeId, to: NodeId)
    | UpdateFromEntity(node: NodeId, entity: string, targets: map<NodeId, string>)
    | SetCycleCheckLimit(n: int)

  ghost predicate Step(v: View, op: Op, v': View, r: Outcome) {
    match op
    case AddNode(id, typ) => (v', r) == AddNodeTo(v, id, typ)
    case RemoveNode(id) => v' == DropNode(v, id) && r == Ok
    case AddEdge(from, to, rel) => AddEdgeTo(v, from, to, rel, v', r)
    case RemoveEdge(from, to) => v' == DropEdge(v, (from, to)) && r == Ok
    case UpdateFromEntity(node, entity, targets) => UpdateTo(v, node, entity, targets, v', r)
    case SetCycleCheckLimit(n) => v' == v.(limit := if n <= 0 then DEFAULT_CYCLE_CHECK_LIMIT else n) && r == Ok
  }

  datatype Call = Call(op: Op, outcome: Outcome)

  /** A run of calls, failing ones included: `views[i]` is the graph before `calls[i]`. */
  ghost predicate IsRun(views: seq<View>, calls: seq<Call>) {
    && |views| == |calls| + 1
    && forall i :: 0 <= i < |calls| ==> Step(views[i], calls[i].op, views[i + 1], calls[i].outcome)
  }

  // ----- tenant scopes -----

  predicate InScope(n: NodeId, p: string) {
    NodeIdPrefix(n) == p || NodeIdPrefix(n) == ""
  }

  /** The subgraph on the nodes of tenant `p` and the unscoped nodes. */
  function Scope(E: Edges, p: string): Edges {
    set e | e in E && InScope(e.0, p) && InScope(e.1, p)
  }

  ghost predicate TenantsAcyclic(v: View) {
    forall p: string :: !Cyclic(Scope(v.edges.Keys, p))
  }

  lemma ScopeGrowth(E: Edges, f: NodeId, t: NodeId, p: string)
    ensures Scope(E + {(f, t)}, p) ==
            Scope(E, p) + if InScope(f, p) && InScope(t, p) then {(f, t)} else {}
  {
  }

  /** The check never skips a node that could close a cycle within the asking node's own scope. */
  lemma ScopeIsFollowed(E: Edges, f: NodeId, p: string)
    requires InScope(f, p)
    ensures Scope(E, p) <= Followed(E, f)
  {
  }

  lemma FollowedAreEdges(E: Edges, f: NodeId)
    ensures Followed(E, f) <= E
  {
  }

  lemma AcceptedEdgeKeepsScopeAcyclic(E: Edges, f: NodeId, t: NodeId, p: string)
    requires !Cyclic(Scope(E, p))
    requires f !in ReachSet(Followed(E, f), t)
    ensures !Cyclic(Scope(E + {(f, t)}, p))
  {
    ScopeGrowth(E, f, t, p);
    if InScope(f, p) && InScope(t, p) {
      EdgeClosesCycleIff(Scope(E, p), f, t);
      if Reaches(Scope(E, p), t, f) {
        ScopeIsFollowed(E, f, p);
        ReachesMono(Scope(E, p), Followed(E, f), t, f);
        ReachSetContains(Followed(E, f), t, f);
      }
    } else {
      assert Scope(E + {(f, t)}, p) == Scope(E, p);
    }
  }

  lemma FewerEdgesStayAcyclic(v: View, v': View)
    requires TenantsAcyclic(v) && v'.edges.Keys <= v.edges.Keys
    ensures TenantsAcyclic(v')
  {
    forall p: string
      ensures !Cyclic(Scope(v'.edges.Keys, p))
    {
      CyclicMono(Scope(v'.edges.Keys, p), Scope(v.edges.Keys, p));
    }
  }

  lemma AddNodeKeeps(v: View, id: NodeId, typ: string)
    ensures AddNodeTo(v, id, typ).0.edges == v.edges
    ensures AddNodeTo(v, id, typ).0.mode == v.mode && AddNodeTo(v, id, typ).0.limit == v.limit
    ensures WellFormed(v) ==> WellFormed(AddNodeTo(v, id, typ).0)
  {
  }

  lemma LinkKeepsWellFormed(v: View, f: NodeId, t: NodeId, rel: string)
    requires WellFormed(v) && f in v.types && t in v.types
    requires v.types[f] != "" && v.types[t] != "" && !CrossTenant(f, t)
    ensures WellFormed(v.(edges := v.edges[(f, t) := rel]))
  {
  }

  lemma FewerEdgesKeepWellFormed(v: View, v': View)
    requires WellFormed(v) && v'.edges.Keys <= v.edges.Keys
    requires v'.types == v.types && v'.limit == v.limit
    ensures WellFormed(v')
  {
  }

  lemma PlaceholderTypes(v: View, id: NodeId)
    ensures AddNodeTo(v, id, VODE).1 == if Malformed(id) then ErrMalformedNodeId else Ok
    ensures !Malformed(id) ==> AddNodeTo(v, id, VODE).0.types == Placed(v.types, {id})
    ensures !Malformed(id) ==> id in AddNodeTo(v, id, VODE).0.types && AddNodeTo(v, id, VODE).0.types[id] != ""
  {
  }

  lemma AddEdgeKeepsAcyclic(v: View, from: NodeId, to: NodeId, rel: string, v': View, r: Outcome)
    requires v.mode == Error && TenantsAcyclic(v)
    requires AddEdgeTo(v, from, to, rel, v', r)
    ensures TenantsAcyclic(v')
  {
    var v1 := AddNodeTo(v, from, VODE).0;
    var v2 := AddNodeTo(v1, to, VODE).0;
    if v'.edges.Keys == v.edges.Keys {
      FewerEdgesStayAcyclic(v, v');
    } else {
      assert v'.edges.Keys == v.edges.Keys + {(from, to)};
      assert CycleVerdict(v2, from, to, false);
      forall p: string
        ensures !Cyclic(Scope(v'.edges.Keys, p))
      {
        AcceptedEdgeKeepsScopeAcyclic(v.edges.Keys, from, to, p);
      }
    }
  }

  lemma AddEdgeKeepsWellFormed(v: View, from: NodeId, to: NodeId, rel: string, v': View, r: Outcome)
    requires WellFormed(v) && AddEdgeTo(v, from, to, rel, v', r)
    ensures WellFormed(v') && v'.mode == v.mode && v'.limit == v.limit
  {
    var v1 := AddNodeTo(v, from, VODE).0;
    var v2 := AddNodeTo(v1, to, VODE).0;
    AddNodeKeeps(v, from, VODE);
    AddNodeKeeps(v1, to, VODE);
    PlaceholderTypes(v, from);
    PlaceholderTypes(v1, to);
    assert v'.types in {v.types, v1.types, v2.types};
    if v'.edges != v.edges {
      assert v' == v2.(edges := v2.edges[(from, to) := rel]);
      assert v2.types[from] != "" && v2.types[to] != "";
    }
  }

  lemma MicroKeeps(v: View, v': View)
    requires Micro(v, v') && WellFormed(v)
    ensures WellFormed(v') && v'.mode == v.mode
    ensures v.mode == Error && TenantsAcyclic(v) ==> TenantsAcyclic(v')
  {
    if exists id, typ :: v' == AddNodeTo(v, id, typ).0 {
      var id, typ :| v' == AddNodeTo(v, id, typ).0;
      AddNodeKeeps(v, id, typ);
      if TenantsAcyclic(v) {
        FewerEdgesStayAcyclic(v, v');
      }
    } else if exists e :: v' == DropEdge(v, e) {
      if TenantsAcyclic(v) {
        FewerEdgesStayAcyclic(v, v');
      }
    } else {
      var from, to, rel, r :| AddEdgeTo(v, from, to, rel, v', r);
      AddEdgeKeepsWellFormed(v, from, to, rel, v', r);
      if v.mode == Error && TenantsAcyclic(v) {
        AddEdgeKeepsAcyclic(v, from, to, rel, v', r);
      }
    }
  }

  lemma {:induction false} MicroRunKeeps(run: seq<View>)
    requires MicroRun(run) && WellFormed(run[0])
    ensures WellFormed(run[|run| - 1]) && run[|run| - 1].mode == run[0].mode
    ensures run[0].mode == Error && TenantsAcyclic(run[0]) ==> TenantsAcyclic(run[|run| - 1])
  {
    if |run| > 1 {
      MicroRunKeeps(run[..|run| - 1]);
      MicroKeeps(run[|run| - 2], run[|run| - 1]);
    }
  }

  lemma StepKeeps(v: View, op: Op, v': View, r: Outcome)
    requires Step(v, op, v', r) && WellFormed(v)
    ensures WellFormed(v') && v'.mode == v.mode
    ensures v.mode == Error && TenantsAcyclic(v) ==> TenantsAcyclic(v')
  {
    match op {
      case AddNode(id, typ) =>
        assert Micro(v, v');
        MicroKeeps(v, v');
      case AddEdge(from, to, rel) =>
        assert Micro(v, v');
        MicroKeeps(v, v');
      case UpdateFromEntity(node, entity, targets) =>
        if AddNodeTo(v, node, entity).1 != Ok {
          assert Micro(v, v');
          MicroKeeps(v, v');
        } else {
          var run :| MicroRun(run) && run[0] == v && run[|run| - 1] == v';
          MicroRunKeeps(run);
        }
      case RemoveNode(_) =>
        if TenantsAcyclic(v) {
          FewerEdgesStayAcyclic(v, v');
        }
      case RemoveEdge(_, _) =>
        if TenantsAcyclic(v) {
          FewerEdgesStayAcyclic(v, v');
        }
      case SetCycleCheckLimit(_) =>
        if TenantsAcyclic(v) {
          FewerEdgesStayAcyclic(v, v');
        }
    }
  }

  lemma {:induction false} EveryRunIsWellFormed(views: seq<View>, calls: seq<Call>, mode: Mode)
    requires IsRun(views, calls) && views[0] == Empty(mode)
    ensures WellFormed(views[|calls|]) && views[|calls|].mode == mode
  {
    if calls != [] {
      var n := |calls| - 1;
      EveryRunIsWellFormed(views[..n + 1], calls[..n], mode);
      StepKeeps(views[n], calls[n].op, views[n + 1], calls[n].outcome);
    }
  }

  /** In "error" mode no run of calls from the empty graph ever closes a cycle within a tenant's scope. */
  lemma {:induction false} EveryRunKeepsTenantsAcyclic(views: seq<View>, calls: seq<Call>)
    requires IsRun(views, calls) && views[0] == Empty(Error)
    ensures TenantsAcyclic(views[|calls|])
  {
    if calls == [] {
      forall p: string
        ensures !Cyclic(Scope(views[0].edges.Keys, p))
      {
        RankedIsAcyclic(Scope(views[0].edges.Keys, p), map[]);
      }
    } else {
      var n := |calls| - 1;
      EveryRunKeepsTenantsAcyclic(views[..n + 1], calls[..n]);
      EveryRunIsWellFormed(views[..n + 1], calls[..n], Error);
      StepKeeps(views[n], calls[n].op, views[n + 1], calls[n].outcome);
    }
  }

  /** The one case where two searches of the same graph may disagree: the budget is exactly used up. */
  ghost predicate OnBudget(v: View, from: NodeId, to: NodeId) {
    var R := ReachSet(Followed(v.edges.Keys, from), to);
    v.mode == Error && from !in R && |R| == v.limit
  }

  /**
   * CheckEdge's promise, "the first error AddEdge would return", holds exactly when neither ID is
   * malformed: it accepts or rejects such an edge on other grounds, and AddEdge then refuses the ID.
   */
  lemma CheckEdgePredictsAddEdgeIff(v: View, from: NodeId, to: NodeId, rel: string, checked: Outcome,
                                    v': View, added: Outcome)
    requires WellFormed(v) && !OnBudget(v, from, to)
    requires CheckEdgeTo(v, from, to, rel, checked) && AddEdgeTo(v, from, to, rel, v', added)
    ensures checked == added <==> !Malformed(from) && !Malformed(to)
  {
    var v1 := AddNodeTo(v, from, VODE).0;
    var v2 := AddNodeTo(v1, to, VODE).0;
    PlaceholderTypes(v, from);
    PlaceholderTypes(v1, to);
    AddNodeKeeps(v, from, VODE);
    AddNodeKeeps(v1, to, VODE);
    if !CrossTenant(from, to) && !Malformed(from) && !Malformed(to) && (from, to) !in v.edges && v.mode == Error {
      assert CycleVerdict(v2, from, to, added == ErrCycleDetected);
      assert CycleVerdict(v, from, to, checked == ErrCycleDetected);
    }
  }

  lemma MicroStepsRefl(v: View)
    ensures MicroSteps(v, v)
  {
    assert MicroRun([v]);
  }

  lemma MicroStepsThen(v: View, v1: View, v2: View)
    requires MicroSteps(v, v1) && Micro(v1, v2)
    ensures MicroSteps(v, v2)
  {
    hide Micro;
    var run :| MicroRun(run) && run[0] == v && run[|run| - 1] == v1;
    var run' := run + [v2];
    assert MicroRun(run');
  }

  lemma {:induction false} MicroStepsTrans(v: View, v1: View, v2: View)
    requires MicroSteps(v, v1) && MicroSteps(v1, v2)
    ensures MicroSteps(v, v2)
  {
    hide Micro;
    var run :| MicroRun(run) && run[0] == v && run[|run| - 1] == v1;
    var more :| MicroRun(more) && more[0] == v1 && more[|more| - 1] == v2;
    var all := run + more[1..];
    forall i | 0 <= i < |all| - 1
      ensures Micro(all[i], all[i + 1])
    {
      if i < |run| - 1 {
        assert Micro(run[i], run[i + 1]);
      } else {
        assert Micro(more[i - |run| + 1], more[i - |run| + 2]);
      }
    }
    assert MicroRun(all) && all[0] == v && all[|all| - 1] == v2;
  }

  /** What one AddEdge does, in the terms the entity update needs. */
  lemma AddEdgeEffect(v: View, f: NodeId, t: NodeId, rel: string, v': View, r: Outcome)
    requires AddEdgeTo(v, f, t, rel, v', r)
    ensures Micro(v, v') && v'.mode == v.mode && v'.limit == v.limit
    ensures TypesGrow(v.types, v'.types)
    ensures r in {Ok, ErrEdgeAlreadyExists} ==> v'.types == Placed(v.types, {f, t})
    ensures r == Ok ==> v'.edges == v.edges[(f, t) := rel]
    ensures r != Ok ==> v'.edges == v.edges
    ensures r == ErrEdgeAlreadyExists <==>
            !CrossTenant(f, t) && !Malformed(f) && !Malformed(t) && (f, t) in v.edges && v.edges[(f, t)] != rel
    ensures r == Ok || r == ErrEdgeAlreadyExists || EdgeError(v.mode, r)
    ensures !CrossTenant(f, t) && !Malformed(f) && !Malformed(t) && (f, t) !in v.edges ==>
            r == Ok || r == ErrCycleDetected
  {
    hide Malformed, CycleVerdict, CrossTenant, AddNodeTo, Placed, TypesGrow, Micro;
    assert Micro(v, v') by {
      EdgeIsMicro(v, f, t, rel, v', r);
    }
    var v1 := AddNodeTo(v, f, VODE).0;
    PlaceholderTypes(v, f);
    AddNodeKeeps(v, f, VODE);
    PlaceholderTypes(v1, t);
    AddNodeKeeps(v1, t, VODE);
    PlacedGrows(v.types, {});
    PlacedGrows(v.types, {f});
    PlacedGrows(v.types, {f, t});
    PlacedTwice(v.types, {f}, {t});
    assert {f} + {t} == {f, t};
    MalformedIsNotPlaced(v, f);
    MalformedIsNotPlaced(v1, t);
  }

  /** Deleting an edge and adding it again under another label. */
  lemma RelabelEffect(v: View, f: NodeId, t: NodeId, rel: string, v': View, r: Outcome)
    requires AddEdgeTo(DropEdge(v, (f, t)), f, t, rel, v', r) && !CrossTenant(f, t) && !Malformed(f) && !Malformed(t)
    ensures MicroSteps(v, v') && v'.mode == v.mode && v'.limit == v.limit && TypesGrow(v.types, v'.types)
    ensures r == Ok ==> v'.types == Placed(v.types, {f, t}) && v'.edges == v.edges[(f, t) := rel]
    ensures r != Ok ==> v'.edges == v.edges - {(f, t)} && r == ErrCycleDetected && v.mode == Error
  {
    hide Micro, MicroSteps, AddEdgeTo, Malformed, CrossTenant, Placed, TypesGrow;
    MicroStepsRefl(v);
    MicroDrop(v, (f, t));
    MicroStepsThen(v, v, DropEdge(v, (f, t)));
    AddEdgeEffect(DropEdge(v, (f, t)), f, t, rel, v', r);
    MicroStepsThen(v, DropEdge(v, (f, t)), v');
    assert (v.edges - {(f, t)})[(f, t) := rel] == v.edges[(f, t) := rel];
  }

  /** Putting the old label back, which can fail in its turn. */
  lemma RestoreEffect(v: View, f: NodeId, t: NodeId, v1: View, v': View, r: Outcome)
    requires (f, t) in v.edges && MicroSteps(v, v1) && TypesGrow(v.types, v1.types)
    requires v1.edges == v.edges - {(f, t)} && v1.mode == v.mode && v1.limit == v.limit
    requires AddEdgeTo(v1, f, t, v.edges[(f, t)], v', r)
    ensures MicroSteps(v, v') && v'.mode == v.mode && v'.limit == v.limit && TypesGrow(v.types, v'.types)
    ensures v'.edges == if r == Ok then v.edges else v.edges - {(f, t)}
  {
    hide Micro, MicroSteps, AddEdgeTo, Malformed, CrossTenant, Placed;
    AddEdgeEffect(v1, f, t, v.edges[(f, t)], v', r);
    MicroStepsThen(v, v1, v');
    assert (v.edges - {(f, t)})[(f, t) := v.edges[(f, t)]] == v.edges;
  }

  lemma MicroDrop(v: View, e: Edge)
    ensures Micro(v, DropEdge(v, e))
  {
  }

  lemma EdgeIsMicro(v: View, f: NodeId, t: NodeId, rel: string, v': View, r: Outcome)
    requires AddEdgeTo(v, f, t, rel, v', r)
    ensures Micro(v, v')
  {
    hide AddEdgeTo, AddNodeTo;
  }

  lemma PlacedGrows(types: map<NodeId, string>, S: set<NodeId>)
    ensures TypesGrow(types, types) && TypesGrow(types, Placed(types, S))
  {
  }

  lemma MalformedIsNotPlaced(v: View, id: NodeId)
    ensures Malformed(id) ==> AddNodeTo(v, id, VODE).0 == v
  {
  }

  lemma PlacedTwice(types: map<NodeId, string>, S: set<NodeId>, T: set<NodeId>)
    ensures Placed(Placed(types, S), T) == Placed(types, S + T)
  {
  }
}
