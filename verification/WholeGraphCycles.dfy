/**
 * The cycle check protects each tenant's scope, not the graph as a whole: it skips other tenants'
 * nodes, although unscoped nodes may link two tenants. A run that closes such a cycle, and when none can.
 */
module WholeGraphCycles {
  import opened TenantIds
  import opened Digraph
  import opened GraphSpec

  const Y: NodeId := "y:1"
  const Z: NodeId := "z:1"

  /** A string that is the prefix of some tenant's nodes. */
  predicate IsPrefix(t: string) {
    |t| == 5 && t[4] == '@' && forall i :: 0 <= i < 4 ==> UpperHex(t[i])
  }

  /** A tenant that is entered from an unscoped node and also left to one. */
  ghost predicate TwoWay(E: Edges, t: string) {
    && t != ""
    && (exists e :: e in E && NodeIdPrefix(e.0) == "" && NodeIdPrefix(e.1) == t)
    && (exists e :: e in E && NodeIdPrefix(e.0) == t && NodeIdPrefix(e.1) == "")
  }

  ghost predicate TwoWayOnly(E: Edges, T: set<string>) {
    forall t :: TwoWay(E, t) ==> t in T
  }

  /** A graph some run of calls in "error" mode ends in. */
  ghost predicate Reachable(v: View) {
    exists views, calls :: IsRun(views, calls) && views[0] == Empty(Error) && views[|calls|] == v
  }

  lemma ReachableStart()
    ensures Reachable(Empty(Error))
  {
    assert IsRun([Empty(Error)], []);
  }

  lemma ReachableStep(v: View, op: Op, v': View)
    requires Reachable(v) && Step(v, op, v', Ok)
    ensures Reachable(v')
  {
    hide Step;
    var views, calls :| IsRun(views, calls) && views[0] == Empty(Error) && views[|calls|] == v;
    var views', calls' := views + [v'], calls + [Call(op, Ok)];
    assert IsRun(views', calls') && views'[0] == Empty(Error) && views'[|calls'|] == v';
  }

  // ----- two tenants linked both ways can close a cycle -----

  /** A target that no followed edge leaves reaches only itself, so the edge is accepted. */
  lemma LonelyTargetIsAccepted(v: View, f: NodeId, t: NodeId)
    requires f != t && v.limit > 1 && forall e :: e in Followed(v.edges.Keys, f) ==> e.0 != t
    ensures CycleVerdict(v, f, t, false)
  {
    hide Followed;
    var E := Followed(v.edges.Keys, f);
    ClosedSetHoldsReachSet(E, {t}, t);
    ReachesRefl(E, t);
    ReachSetContains(E, t, t);
    assert ReachSet(E, t) == {t};
  }

  /** Placeholder nodes `N` joined by the edges `E`. */
  function Linked(N: set<NodeId>, E: set<Edge>): View {
    View(map n | n in N :: VODE, map e | e in E :: "R", Error, DEFAULT_CYCLE_CHECK_LIMIT)
  }

  lemma PlacedNode(N: set<NodeId>, id: NodeId)
    requires id !in N && !Malformed(id)
    ensures AddNodeTo(Linked(N, {}), id, VODE) == (Linked(N + {id}, {}), Ok)
  {
    hide Malformed;
    var types := Linked(N, {}).types;
    assert types[id := ""][id := VODE] == Linked(N + {id}, {}).types;
    assert |VODE| == 8;
  }

  lemma PlaceStep(N: set<NodeId>, id: NodeId)
    requires Reachable(Linked(N, {})) && id !in N && !Malformed(id)
    ensures Reachable(Linked(N + {id}, {}))
  {
    hide Malformed, Reachable, Linked, AddNodeTo;
    PlacedNode(N, id);
    ReachableStep(Linked(N, {}), AddNode(id, VODE), Linked(N + {id}, {}));
  }

  lemma LinkStep(N: set<NodeId>, E: set<Edge>, f: NodeId, t: NodeId)
    requires Reachable(Linked(N, E)) && f in N && t in N && f != t && (f, t) !in E
    requires !CrossTenant(f, t) && !Malformed(f) && !Malformed(t)
    requires forall e :: e in E && !CrossTenant(f, e.1) ==> e.0 != t
    ensures Reachable(Linked(N, E + {(f, t)}))
  {
    hide Malformed, CrossTenant, CycleVerdict, Reachable;
    var v := Linked(N, E);
    assert v.edges.Keys == E;
    LonelyTargetIsAccepted(v, f, t);
    assert AddNodeTo(v, f, VODE) == (v, Ok) && AddNodeTo(v, t, VODE) == (v, Ok);
    assert Linked(N, E + {(f, t)}).edges == v.edges[(f, t) := "R"];
    ReachableStep(v, AddEdge(f, t, "R"), Linked(N, E + {(f, t)}));
  }

  /** One node of each of two tenants, and the two unscoped ones. */
  lemma FourNodes(s: string, t: string)
    requires IsPrefix(s) && IsPrefix(t) && s != t
    ensures var A, B := s + "a:1", t + "b:1";
            && NodeIdPrefix(A) == s && NodeIdPrefix(B) == t && NodeIdPrefix(Y) == "" && NodeIdPrefix(Z) == ""
            && !Malformed(A) && !Malformed(B) && !Malformed(Y) && !Malformed(Z)
            && A != B && A != Y && A != Z && B != Y && B != Z && Y != Z
  {
    PrefixOfPrefixed(s, "a:1");
    PrefixOfPrefixed(t, "b:1");
    assert |Y| == 3 && |Z| == 3 && Y[0] != Z[0];
  }

  function Ring(A: NodeId, B: NodeId): set<Edge> {
    {(Z, B)} + {(B, Y)} + {(Y, A)} + {(A, Z)}
  }

  lemma RingIsReachable(s: string, t: string)
    requires IsPrefix(s) && IsPrefix(t) && s != t
    ensures var A, B := s + "a:1", t + "b:1"; Reachable(Linked({A, B, Y, Z}, Ring(A, B)))
  {
    hide NodeIdPrefix, Malformed, Reachable, Linked;
    var A, B := s + "a:1", t + "b:1";
    FourNodes(s, t);
    assert Reachable(Linked({}, {})) by {
      ReachableStart();
      NothingLinked();
    }
    PlaceStep({}, A);
    PlaceStep({} + {A}, B);
    PlaceStep({} + {A} + {B}, Y);
    PlaceStep({} + {A} + {B} + {Y}, Z);
    var N := {A, B, Y, Z};
    assert {} + {A} + {B} + {Y} + {Z} == N;
    LinkStep(N, {}, Z, B);
    assert {} + {(Z, B)} == {(Z, B)};
    LinkStep(N, {(Z, B)}, B, Y);
    LinkStep(N, {(Z, B)} + {(B, Y)}, Y, A);
    LinkStep(N, {(Z, B)} + {(B, Y)} + {(Y, A)}, A, Z);
  }

  lemma NothingLinked()
    ensures Linked({}, {}) == Empty(Error)
  {
  }

  /**
   * For any two tenants a run of accepted calls in "error" mode, from the empty graph, links just those
   * two both ways and closes a cycle through them.
   */
  lemma TwoTenantsCanCloseACycle(s: string, t: string)
    requires IsPrefix(s) && IsPrefix(t) && s != t
    ensures exists v :: Reachable(v) && TwoWayOnly(v.edges.Keys, {s, t}) && Cyclic(v.edges.Keys)
  {
    hide NodeIdPrefix, Malformed, Reachable;
    var A, B := s + "a:1", t + "b:1";
    FourNodes(s, t);
    RingIsReachable(s, t);
    var v := Linked({A, B, Y, Z}, Ring(A, B));
    assert v.edges.Keys == Ring(A, B);
    assert IsCycle(Ring(A, B), [A, Z, B, Y, A]);
  }

  // ----- one tenant linked both ways cannot -----

  /** A path from a tenant's node to an unscoped one leaves the tenant on the way. */
  lemma {:induction false} PathLeaves(E: Edges, p: seq<NodeId>, i: nat, j: nat)
    requires IsPath(E, p) && i < j < |p| && NodeIdPrefix(p[i]) != "" && NodeIdPrefix(p[j]) == ""
    requires forall e :: e in E ==> !CrossTenant(e.0, e.1)
    ensures exists e :: e in E && NodeIdPrefix(e.0) == NodeIdPrefix(p[i]) && NodeIdPrefix(e.1) == ""
    decreases j - i
  {
    hide NodeIdPrefix;
    assert (p[i], p[i + 1]) in E && !CrossTenant((p[i], p[i + 1]).0, (p[i], p[i + 1]).1);
    if NodeIdPrefix(p[i + 1]) != "" {
      PathLeaves(E, p, i + 1, j);
    }
  }

  /** A path from an unscoped node to a tenant's enters the tenant on the way. */
  lemma {:induction false} PathEnters(E: Edges, p: seq<NodeId>, i: nat, j: nat)
    requires IsPath(E, p) && i < j < |p| && NodeIdPrefix(p[i]) == "" && NodeIdPrefix(p[j]) != ""
    requires forall e :: e in E ==> !CrossTenant(e.0, e.1)
    ensures exists e :: e in E && NodeIdPrefix(e.0) == "" && NodeIdPrefix(e.1) == NodeIdPrefix(p[j])
    decreases j - i
  {
    hide NodeIdPrefix;
    assert (p[j - 1], p[j]) in E && !CrossTenant((p[j - 1], p[j]).0, (p[j - 1], p[j]).1);
    if NodeIdPrefix(p[j - 1]) != "" {
      PathEnters(E, p, i, j - 1);
    }
  }

  /** Twice around: every node is both before and after every other one. */
  lemma TwiceAround(E: Edges, p: seq<NodeId>)
    requires IsCycle(E, p)
    ensures IsPath(E, p + p[1..])
  {
    var d := p + p[1..];
    forall i | 0 <= i < |d| - 1
      ensures (d[i], d[i + 1]) in E
    {
      if i < |p| - 1 {
        assert (p[i], p[i + 1]) in E;
      } else {
        assert (p[i - |p| + 1], p[i - |p| + 2]) in E;
      }
    }
  }

  /** A tenant on a cycle that also passes an unscoped node is linked both ways. */
  lemma CycleIsTwoWay(E: Edges, p: seq<NodeId>, i: nat, k: nat)
    requires IsCycle(E, p) && i < |p| && k < |p| && NodeIdPrefix(p[i]) != "" && NodeIdPrefix(p[k]) == ""
    requires forall e :: e in E ==> !CrossTenant(e.0, e.1)
    ensures TwoWay(E, NodeIdPrefix(p[i]))
  {
    hide NodeIdPrefix;
    var d := p + p[1..];
    TwiceAround(E, p);
    assert forall j :: 0 <= j < |p| ==> d[j] == p[j] && d[j + |p| - 1] == p[j];
    if i < k {
      PathLeaves(E, d, i, k);
      PathEnters(E, d, k, i + |p| - 1);
    } else {
      PathEnters(E, d, k, i);
      PathLeaves(E, d, i, k + |p| - 1);
    }
  }

  /** A path that meets no unscoped node stays in one tenant. */
  lemma {:induction false} ScopedPathStays(E: Edges, p: seq<NodeId>, i: nat)
    requires IsPath(E, p) && i < |p| && forall j :: 0 <= j < |p| ==> NodeIdPrefix(p[j]) != ""
    requires forall e :: e in E ==> !CrossTenant(e.0, e.1)
    ensures NodeIdPrefix(p[i]) == NodeIdPrefix(p[0])
  {
    hide NodeIdPrefix;
    if i > 0 {
      ScopedPathStays(E, p, i - 1);
      assert (p[i - 1], p[i]) in E && !CrossTenant((p[i - 1], p[i]).0, (p[i - 1], p[i]).1);
    }
  }

  /** With one tenant linked both ways, a cycle lies within the scope of one tenant. */
  lemma CycleStaysInScope(E: Edges, p: seq<NodeId>, T: set<string>)
    requires IsCycle(E, p) && TwoWayOnly(E, T) && |T| <= 1
    requires forall e :: e in E ==> !CrossTenant(e.0, e.1)
    ensures exists q :: Cyclic(Scope(E, q))
  {
    hide NodeIdPrefix, TwoWay;
    var meets := exists k :: 0 <= k < |p| && NodeIdPrefix(p[k]) == "";
    var q := if !meets then NodeIdPrefix(p[0]) else if T == {} then "" else Only(T);
    forall i | 0 <= i < |p|
      ensures InScope(p[i], q)
    {
      if k :| 0 <= k < |p| && NodeIdPrefix(p[k]) == "" {
        if NodeIdPrefix(p[i]) != "" {
          CycleIsTwoWay(E, p, i, k);
          assert NodeIdPrefix(p[i]) in T;
        }
      } else {
        ScopedPathStays(E, p, i);
      }
    }
    assert IsCycle(Scope(E, q), p);
  }

  ghost function Only(T: set<string>): (t: string)
    requires |T| == 1
    ensures T == {t}
  {
    var t :| t in T;
    assert |T - {t}| == 0;
    t
  }

  /** Per-tenant acyclicity is whole-graph acyclicity when at most one tenant is linked both ways. */
  lemma OneTwoWayTenantStaysAcyclic(v: View, T: set<string>)
    requires WellFormed(v) && TenantsAcyclic(v) && TwoWayOnly(v.edges.Keys, T) && |T| <= 1
    ensures !Cyclic(v.edges.Keys)
  {
    hide NodeIdPrefix, Malformed, TwoWayOnly;
    var E := v.edges.Keys;
    if p :| IsCycle(E, p) {
      CycleStaysInScope(E, p, T);
    }
  }

  /**
   * Exactly when "error" mode keeps the whole graph acyclic: whichever tenants one allows to be linked
   * with unscoped nodes both ways, every reachable graph is acyclic if and only if that is at most one.
   */
  lemma WholeGraphAcyclicIff(T: set<string>)
    requires forall t :: t in T ==> IsPrefix(t)
    ensures (forall v :: Reachable(v) && TwoWayOnly(v.edges.Keys, T) ==> !Cyclic(v.edges.Keys)) <==> |T| <= 1
  {
    hide TwoWay, IsPrefix, Cyclic, WellFormed, TenantsAcyclic;
    if |T| <= 1 {
      forall v | Reachable(v) && TwoWayOnly(v.edges.Keys, T)
        ensures !Cyclic(v.edges.Keys)
      {
        var views, calls :| IsRun(views, calls) && views[0] == Empty(Error) && views[|calls|] == v;
        EveryRunIsWellFormed(views, calls, Error);
        EveryRunKeepsTenantsAcyclic(views, calls);
        OneTwoWayTenantStaysAcyclic(v, T);
      }
    } else {
      var s :| s in T;
      assert |T - {s}| > 0;
      var t :| t in T - {s};
      TwoTenantsCanCloseACycle(s, t);
      var v :| Reachable(v) && TwoWayOnly(v.edges.Keys, {s, t}) && Cyclic(v.edges.Keys);
      assert TwoWayOnly(v.edges.Keys, T);
    }
  }
}
