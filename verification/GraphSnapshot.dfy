/** Saving a graph and replaying the saved file, in any order, into an empty one. */
module GraphSnapshot {
  import opened TenantIds
  import opened Digraph
  import opened GraphSpec
  import opened GraphRecords

  datatype NodeData = NodeData(typ: string, out: map<NodeId, string>)

  type Listing = map<NodeId, NodeData>

  /** The mode string of a saved file: files of older versions have none. */
  datatype ModeField = Absent | Known(mode: Mode) | Unknown

  datatype Snapshot = Snapshot(nodes: Listing, mode: ModeField, limit: int)

  datatype LoadResult = Loaded | UnrecognisedMode | EntriesSkipped(n: nat)

  function SnapshotOf(v: View): Snapshot {
    Snapshot(map n | n in v.types :: NodeData(v.types[n], OutOf(v.edges, n)), Known(v.mode), v.limit)
  }

  function Listed(L: Listing): set<Edge> {
    set n, t | n in L && t in L[n].out :: (n, t)
  }

  function ListedEdges(L: Listing): map<Edge, string> {
    map e | e in Listed(L) :: L[e.0].out[e.1]
  }

  predicate Touched(L: Listing, n: NodeId) {
    (n in L && L[n].out != map[]) || exists m :: m in L && n in L[m].out
  }

  function Targets(L: Listing): set<NodeId> {
    set n, t | n in L && t in L[n].out :: t
  }

  /** The types a replay ends with: whatever an edge touches untyped becomes a placeholder. */
  function LoadedTypes(L: Listing): map<NodeId, string> {
    map n | n in L.Keys + Targets(L) :: TypeAt(L, n)
  }

  function TypeAt(L: Listing, n: NodeId): string {
    if n in L && L[n].typ != "" then L[n].typ else if Touched(L, n) then VODE else ""
  }

  /** No malformed ID and no edge between tenants. */
  predicate Loadable(L: Listing) {
    && (forall n :: n in L ==> !Malformed(n))
    && (forall n, t :: n in L && t in L[n].out ==> !Malformed(t) && !CrossTenant(n, t))
  }

  lemma ListedIff(L: Listing, n: NodeId, t: NodeId)
    ensures (n, t) in Listed(L) <==> n in L && t in L[n].out
  {
  }

  lemma TargetsIff(L: Listing, t: NodeId)
    ensures t in Targets(L) <==> exists m :: m in L && t in L[m].out
  {
  }

  lemma NewNodeTouchesNothing(L: Listing, id: NodeId, typ: string)
    requires id !in L
    ensures var L' := L[id := NodeData(typ, map[])];
            && Targets(L') == Targets(L) && Listed(L') == Listed(L)
            && forall n :: Touched(L', n) <==> Touched(L, n)
    ensures Touched(L, id) <==> id in Targets(L)
  {
    var L' := L[id := NodeData(typ, map[])];
    forall n, t
      ensures (n in L' && t in L'[n].out) <==> (n in L && t in L[n].out)
    {
    }
    TargetsIff(L, id);
  }

  /** Replaying a node before any of its own edges: a placeholder is promoted, or the node is new. */
  lemma LoadNodeStep(L: Listing, id: NodeId, typ: string, v: View)
    requires id !in L && v.types == LoadedTypes(L) && v.edges == ListedEdges(L)
    ensures var (v', r) := AddNodeTo(v, id, typ);
            var L' := L[id := NodeData(typ, map[])];
            && r == (if Malformed(id) then ErrMalformedNodeId else Ok)
            && (r == Ok ==> v'.types == LoadedTypes(L') && v'.edges == ListedEdges(L'))
  {
    hide Malformed, Touched, Targets, Listed, LoadedTypes;
    var L' := L[id := NodeData(typ, map[])];
    NewNodeTouchesNothing(L, id, typ);
    assert ListedEdges(L') == ListedEdges(L) by {
      ListedAreListed(L);
    }
    if !Malformed(id) {
      LoadNodeTypes(L, id, typ, v);
    }
  }

  lemma LoadNodeTypes(L: Listing, id: NodeId, typ: string, v: View)
    requires id !in L && v.types == LoadedTypes(L) && !Malformed(id)
    ensures AddNodeTo(v, id, typ).1 == Ok && AddNodeTo(v, id, typ).0.types == LoadedTypes(L[id := NodeData(typ, map[])])
  {
    hide Malformed, Touched, Targets, Listed, ListedEdges;
    var L' := L[id := NodeData(typ, map[])];
    NewNodeTouchesNothing(L, id, typ);
    assert id in v.types <==> id in Targets(L);
    assert id in v.types ==> v.types[id] == VODE;
    var types' := AddNodeTo(v, id, typ).0.types;
    assert types'.Keys == LoadedTypes(L').Keys;
    forall n | n in types'
      ensures types'[n] == TypeAt(L', n)
    {
      assert n != id ==> types'[n] == v.types[n] == TypeAt(L, n);
    }
  }

  lemma ListedAreListed(L: Listing)
    ensures forall e :: e in Listed(L) ==> e.0 in L && e.1 in L[e.0].out
  {
  }

  lemma TouchedAfterEdge(L: Listing, id: NodeId, t: NodeId, rel: string, n: NodeId)
    requires id in L
    ensures var L' := L[id := L[id].(out := L[id].out[t := rel])];
            && (n in Targets(L') <==> n in Targets(L) || n == t)
            && (Touched(L', n) <==> Touched(L, n) || n == id || n == t)
    ensures n in Targets(L) ==> Touched(L, n)
  {
    var L' := L[id := L[id].(out := L[id].out[t := rel])];
    assert t in L'[id].out;
    TargetsIff(L, n);
    TargetsIff(L', n);
    forall m | m in L && n in L[m].out
      ensures m in L' && n in L'[m].out
    {
    }
    forall m | m in L' && n in L'[m].out && n != t
      ensures m in L && n in L[m].out
    {
    }
  }

  lemma LoadEdgeTypes(L: Listing, id: NodeId, t: NodeId, rel: string)
    requires id in L && t !in L[id].out
    ensures LoadedTypes(L[id := L[id].(out := L[id].out[t := rel])]) == Placed(LoadedTypes(L), {id, t})
  {
    hide Touched, Targets;
    var L' := L[id := L[id].(out := L[id].out[t := rel])];
    forall n: NodeId
      ensures n in LoadedTypes(L') <==> n in Placed(LoadedTypes(L), {id, t})
      ensures n in LoadedTypes(L') ==> LoadedTypes(L')[n] == Placed(LoadedTypes(L), {id, t})[n]
    {
      TouchedAfterEdge(L, id, t, rel, n);
    }
  }

  lemma LoadEdgeEdges(L: Listing, id: NodeId, t: NodeId, rel: string)
    requires id in L && t !in L[id].out
    ensures ListedEdges(L[id := L[id].(out := L[id].out[t := rel])]) == ListedEdges(L)[(id, t) := rel]
    ensures (id, t) !in ListedEdges(L)
  {
    var L' := L[id := L[id].(out := L[id].out[t := rel])];
    forall e: Edge
      ensures e in Listed(L') <==> e in Listed(L) || e == (id, t)
    {
      ListedIff(L, e.0, e.1);
      ListedIff(L', e.0, e.1);
    }
    ListedIff(L, id, t);
  }

  /** Replaying one edge of a listed node, with cycle detection off. */
  lemma LoadEdgeStep(L: Listing, id: NodeId, t: NodeId, rel: string, v: View, v': View, r: Outcome)
    requires id in L && t !in L[id].out && !Malformed(id)
    requires v.types == LoadedTypes(L) && v.edges == ListedEdges(L) && v.mode == Ignore
    requires AddEdgeTo(v, id, t, rel, v', r)
    ensures r == Ok <==> !Malformed(t) && !CrossTenant(id, t)
    ensures var L' := L[id := L[id].(out := L[id].out[t := rel])];
            r == Ok ==> v'.types == LoadedTypes(L') && v'.edges == ListedEdges(L')
  {
    hide Malformed, CrossTenant, LoadedTypes, ListedEdges, AddEdgeTo, Placed;
    LoadEdgeTypes(L, id, t, rel);
    LoadEdgeEdges(L, id, t, rel);
    AddEdgeEffect(v, id, t, rel, v', r);
    AddEdgeAccepts(v, id, t, rel, v', r);
  }

  lemma AddEdgeAccepts(v: View, f: NodeId, t: NodeId, rel: string, v': View, r: Outcome)
    requires AddEdgeTo(v, f, t, rel, v', r) && v.mode == Ignore && !Malformed(f) && (f, t) !in v.edges
    ensures r == Ok <==> !Malformed(t) && !CrossTenant(f, t)
  {
  }

  /** What a replay rebuilds from a saved graph is that graph. */
  lemma SavedGraphReplays(v: View)
    requires WellFormed(v)
    ensures Loadable(SnapshotOf(v).nodes)
    ensures ListedEdges(SnapshotOf(v).nodes) == v.edges
    ensures LoadedTypes(SnapshotOf(v).nodes) == v.types
  {
    hide Malformed, CrossTenant, OutOf, LoadedTypes;
    SavedListing(v);
    var L := SnapshotOf(v).nodes;
    forall n, t | n in L && t in L[n].out
      ensures !Malformed(t) && !CrossTenant(n, t)
    {
      assert (n, t) in v.edges;
    }
    forall e: Edge
      ensures e in Listed(L) <==> e in v.edges
    {
      ListedIff(L, e.0, e.1);
      assert e == (e.0, e.1);
    }
    TypesReplayIff(v);
  }

  lemma SavedListing(v: View)
    ensures var L := SnapshotOf(v).nodes;
            && L.Keys == v.types.Keys
            && (forall n :: n in L ==> L[n].typ == v.types[n])
            && (forall n, t :: n in L ==> (t in L[n].out <==> (n, t) in v.edges))
            && (forall n, t :: n in L && t in L[n].out ==> L[n].out[t] == v.edges[(n, t)])
  {
  }

  lemma TouchedIffEdge(v: View, n: NodeId)
    requires forall e :: e in v.edges ==> e.0 in v.types && e.1 in v.types
    ensures n in Targets(SnapshotOf(v).nodes) ==> n in v.types
    ensures Touched(SnapshotOf(v).nodes, n) <==> exists e :: e in v.edges && (e.0 == n || e.1 == n)
  {
    hide OutOf;
    SavedListing(v);
    var L := SnapshotOf(v).nodes;
    TargetsIff(L, n);
    if n in L && L[n].out != map[] {
      var t :| t in L[n].out;
      assert (n, t) in v.edges;
    }
    if m :| m in L && n in L[m].out {
      assert (m, n) in v.edges;
    }
    if e :| e in v.edges && (e.0 == n || e.1 == n) {
      assert e == (e.0, e.1);
      assert e.1 in L[e.0].out;
    }
  }

  /**
   * Why an untyped node must not have an edge: among graphs with all endpoints present, the replay
   * rebuilds the types exactly when no edge touches an untyped node.
   */
  lemma TypesReplayIff(v: View)
    requires forall e :: e in v.edges ==> e.0 in v.types && e.1 in v.types
    ensures LoadedTypes(SnapshotOf(v).nodes) == v.types
            <==> forall e :: e in v.edges ==> v.types[e.0] != "" && v.types[e.1] != ""
  {
    hide OutOf, Touched, Targets;
    SavedListing(v);
    var L := SnapshotOf(v).nodes;
    hide SnapshotOf;
    forall n: NodeId
      ensures n in LoadedTypes(L) <==> n in v.types
    {
      TouchedIffEdge(v, n);
    }
    if LoadedTypes(L) == v.types {
      forall e | e in v.edges
        ensures v.types[e.0] != "" && v.types[e.1] != ""
      {
        TouchedIffEdge(v, e.0);
        TouchedIffEdge(v, e.1);
        assert LoadedTypes(L)[e.0] != "" && LoadedTypes(L)[e.1] != "";
      }
    }
    if forall e :: e in v.edges ==> v.types[e.0] != "" && v.types[e.1] != "" {
      forall n | n in v.types
        ensures LoadedTypes(L)[n] == v.types[n]
      {
        TouchedIffEdge(v, n);
      }
      assert LoadedTypes(L) == v.types;
    }
  }

  lemma EmptyListing()
    ensures LoadedTypes(map[]) == map[] && ListedEdges(map[]) == map[] && Loadable(map[])
  {
  }

  lemma LoadableGrows(L: Listing, id: NodeId, data: NodeData)
    requires id !in L
    ensures Loadable(L[id := data]) <==>
            Loadable(L) && !Malformed(id) && forall t :: t in data.out ==> !Malformed(t) && !CrossTenant(id, t)
  {
    hide Malformed, CrossTenant;
    var L' := L[id := data];
    if Loadable(L') {
      forall n, t | n in L && t in L[n].out
        ensures !Malformed(t) && !CrossTenant(n, t)
      {
        assert n in L' && t in L'[n].out;
      }
      assert Loadable(L);
      assert id in L';
      forall t | t in data.out
        ensures !Malformed(t) && !CrossTenant(id, t)
      {
        assert t in L'[id].out;
      }
    }
  }

  lemma ModeKeepsWellFormed(v: View, mode: Mode)
    requires WellFormed(v)
    ensures WellFormed(v.(mode := mode))
  {
  }

  lemma ModeKeepsMirrors(nodes: Records, v: View, mode: Mode)
    requires Mirrors(nodes, v)
    ensures Mirrors(nodes, v.(mode := mode))
  {
  }
}
