/** Paths, reachability and cycles of finite directed graphs over node IDs. */
module Digraph {
  import opened TenantIds

  type Edge = (NodeId, NodeId)
  type Edges = set<Edge>

  predicate IsPath(E: Edges, p: seq<NodeId>) {
    |p| > 0 && forall i :: 0 <= i < |p| - 1 ==> (p[i], p[i + 1]) in E
  }

  predicate PathFromTo(E: Edges, p: seq<NodeId>, a: NodeId, b: NodeId) {
    IsPath(E, p) && p[0] == a && p[|p| - 1] == b
  }

  ghost predicate Reaches(E: Edges, a: NodeId, b: NodeId) {
    exists p :: PathFromTo(E, p, a, b)
  }

  /** Some path of at least one edge returns to where it started; a self-loop counts. */
  ghost predicate Cyclic(E: Edges) {
    exists p :: IsCycle(E, p)
  }

  predicate IsCycle(E: Edges, p: seq<NodeId>) {
    |p| >= 2 && IsPath(E, p) && p[0] == p[|p| - 1]
  }

  /** A path of `k` edges exists and none has fewer. */
  ghost predicate IsDistance(E: Edges, a: NodeId, b: NodeId, k: nat) {
    && (exists p :: PathFromTo(E, p, a, b) && |p| == k + 1)
    && forall p :: PathFromTo(E, p, a, b) ==> k + 1 <= |p|
  }

  ghost predicate WithinDepth(E: Edges, a: NodeId, b: NodeId, maxDepth: int) {
    exists p :: PathFromTo(E, p, a, b) && |p| - 1 <= maxDepth
  }

  ghost function ReachSet(E: Edges, a: NodeId): set<NodeId> {
    set b | b in (set e | e in E :: e.1) + {a} && Reaches(E, a, b)
  }

  lemma ReachesRefl(E: Edges, a: NodeId)
    ensures Reaches(E, a, a)
  {
    assert PathFromTo(E, [a], a, a);
  }

  lemma PathExtend(E: Edges, p: seq<NodeId>, a: NodeId, b: NodeId, c: NodeId)
    requires PathFromTo(E, p, a, b) && (b, c) in E
    ensures PathFromTo(E, p + [c], a, c)
  {
  }

  lemma ReachesStep(E: Edges, a: NodeId, b: NodeId, c: NodeId)
    requires Reaches(E, a, b) && (b, c) in E
    ensures Reaches(E, a, c)
  {
    var p :| PathFromTo(E, p, a, b);
    PathExtend(E, p, a, b, c);
  }

  lemma ReachesTrans(E: Edges, a: NodeId, b: NodeId, c: NodeId)
    requires Reaches(E, a, b) && Reaches(E, b, c)
    ensures Reaches(E, a, c)
  {
    var p :| PathFromTo(E, p, a, b);
    var q :| PathFromTo(E, q, b, c);
    var r := p + q[1..];
    forall i | 0 <= i < |r| - 1
      ensures (r[i], r[i + 1]) in E
    {
      if i < |p| - 1 {
      } else {
        assert r[i] == q[i - (|p| - 1)] && r[i + 1] == q[i - (|p| - 1) + 1];
      }
    }
    assert PathFromTo(E, r, a, c);
  }

  lemma ReachesMono(E: Edges, F: Edges, a: NodeId, b: NodeId)
    requires E <= F && Reaches(E, a, b)
    ensures Reaches(F, a, b)
  {
    var p :| PathFromTo(E, p, a, b);
    assert PathFromTo(F, p, a, b);
  }

  lemma CyclicMono(E: Edges, F: Edges)
    requires E <= F && !Cyclic(F)
    ensures !Cyclic(E)
  {
    forall p
      ensures !IsCycle(E, p)
    {
      assert IsCycle(E, p) ==> IsCycle(F, p);
    }
  }

  lemma ReachSetContains(E: Edges, a: NodeId, b: NodeId)
    requires Reaches(E, a, b)
    ensures b in ReachSet(E, a)
  {
    var p :| PathFromTo(E, p, a, b);
    if |p| > 1 {
      assert (p[|p| - 2], b) in E;
      assert b == (p[|p| - 2], b).1;
    }
  }

  lemma ReachSetStep(E: Edges, a: NodeId, b: NodeId, c: NodeId)
    requires b in ReachSet(E, a) && (b, c) in E
    ensures c in ReachSet(E, a)
  {
    ReachesStep(E, a, b, c);
    ReachSetContains(E, a, c);
  }

  /** A set that holds `a` and is closed under successors holds everything `a` reaches. */
  lemma {:induction false} ClosedSetHoldsPath(E: Edges, S: set<NodeId>, p: seq<NodeId>)
    requires IsPath(E, p) && p[0] in S
    requires forall e :: e in E && e.0 in S ==> e.1 in S
    ensures p[|p| - 1] in S
  {
    if |p| > 1 {
      assert (p[0], p[1]) in E;
      assert IsPath(E, p[1..]) by {
        forall i | 0 <= i < |p[1..]| - 1
          ensures (p[1..][i], p[1..][i + 1]) in E
        {
          assert (p[i + 1], p[i + 2]) in E;
        }
      }
      ClosedSetHoldsPath(E, S, p[1..]);
    }
  }

  lemma ClosedSetHoldsReachSet(E: Edges, S: set<NodeId>, a: NodeId)
    requires a in S
    requires forall e :: e in E && e.0 in S ==> e.1 in S
    ensures ReachSet(E, a) <= S
  {
    forall b | b in ReachSet(E, a)
      ensures b in S
    {
      var p :| PathFromTo(E, p, a, b);
      ClosedSetHoldsPath(E, S, p);
    }
  }

  /** Along a path every rank drops, so a graph whose edges all lower a rank has no cycle. */
  lemma {:induction false} RankDropsAlongPath(E: Edges, rank: map<NodeId, nat>, p: seq<NodeId>)
    requires |p| >= 2 && IsPath(E, p)
    requires forall e :: e in E ==> e.0 in rank && e.1 in rank && rank[e.1] < rank[e.0]
    ensures p[0] in rank && p[|p| - 1] in rank && rank[p[|p| - 1]] < rank[p[0]]
  {
    assert (p[|p| - 2], p[|p| - 1]) in E;
    if |p| > 2 {
      var q := p[..|p| - 1];
      forall i | 0 <= i < |q| - 1
        ensures (q[i], q[i + 1]) in E
      {
        assert (p[i], p[i + 1]) in E;
      }
      RankDropsAlongPath(E, rank, q);
    }
  }

  lemma RankedIsAcyclic(E: Edges, rank: map<NodeId, nat>)
    requires forall e :: e in E ==> e.0 in rank && e.1 in rank && rank[e.1] < rank[e.0]
    ensures !Cyclic(E)
  {
    forall p
      ensures !IsCycle(E, p)
    {
      if IsCycle(E, p) {
        RankDropsAlongPath(E, rank, p);
      }
    }
  }

  /** A path over E plus one edge either avoids the edge or splits around it. */
  lemma {:induction false} PathAroundEdge(E: Edges, f: NodeId, t: NodeId, p: seq<NodeId>)
    requires IsPath(E + {(f, t)}, p)
    ensures IsPath(E, p) || (Reaches(E, p[0], f) && Reaches(E, t, p[|p| - 1]))
  {
    if |p| > 1 {
      var q := p[..|p| - 1];
      var b, c := p[|p| - 2], p[|p| - 1];
      assert (b, c) in E + {(f, t)};
      forall i | 0 <= i < |q| - 1
        ensures (q[i], q[i + 1]) in E + {(f, t)}
      {
        assert (p[i], p[i + 1]) in E + {(f, t)};
      }
      PathAroundEdge(E, f, t, q);
      if IsPath(E, q) {
        if (b, c) in E {
          assert p == q + [c];
          PathExtend(E, q, p[0], b, c);
        } else {
          assert PathFromTo(E, q, p[0], f);
          ReachesRefl(E, t);
        }
      } else if (b, c) in E {
        ReachesStep(E, t, b, c);
      } else {
        ReachesRefl(E, t);
      }
    }
  }

  /** Adding f→t to an acyclic graph closes a cycle exactly when t already reaches f. */
  lemma EdgeClosesCycleIff(E: Edges, f: NodeId, t: NodeId)
    requires !Cyclic(E)
    ensures Cyclic(E + {(f, t)}) <==> Reaches(E, t, f)
  {
    var F := E + {(f, t)};
    if Reaches(E, t, f) {
      var p :| PathFromTo(E, p, t, f);
      PathExtend(F, p, t, f, t);
      assert IsCycle(F, p + [t]);
    }
    if Cyclic(F) {
      var p :| IsCycle(F, p);
      PathAroundEdge(E, f, t, p);
      assert !IsCycle(E, p);
      ReachesTrans(E, t, p[0], f);
    }
  }

  lemma DistanceUnique(E: Edges, a: NodeId, b: NodeId, k: nat, m: nat)
    requires IsDistance(E, a, b, k) && IsDistance(E, a, b, m)
    ensures k == m
  {
  }
}
