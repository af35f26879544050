/** What the breadth-first and depth-first searches of a FlatGraph keep true as they run. */
module GraphSearch {
  import opened TenantIds
  import opened Digraph

  /** `x` is still waiting in the queue. */
  ghost predicate InTail(queue: seq<NodeId>, head: nat, x: NodeId) {
    exists i :: head <= i < |queue| && queue[i] == x
  }

  lemma TailGrows(queue: seq<NodeId>, queue': seq<NodeId>, head: nat)
    requires queue <= queue'
    ensures forall x :: InTail(queue, head, x) ==> InTail(queue', head, x)
  {
  }

  lemma TailAdvances(queue: seq<NodeId>, head: nat)
    requires head < |queue|
    ensures forall x :: InTail(queue, head, x) ==> x == queue[head] || InTail(queue, head + 1, x)
  {
  }

  // ----- breadth-first search with depths -----

  datatype BfsEntry = BfsEntry(parent: NodeId, depth: int)

  type Visited = map<NodeId, BfsEntry>

  /** Every visited node but the source hangs off an earlier one by an edge, one level deeper. */
  ghost predicate ParentsOk(E: Edges, visited: Visited, from: NodeId) {
    && from in visited && visited[from].depth == 0
    && forall n :: n in visited && n != from ==>
          && visited[n].parent in visited
          && (visited[n].parent, n) in E
          && visited[n].depth == visited[visited[n].parent].depth + 1
          && visited[n].depth > 0
  }

  /** The queue lists the visited nodes once each, in order of depth. */
  ghost predicate QueueOk(visited: Visited, queue: seq<NodeId>) {
    && (forall i :: 0 <= i < |queue| ==> queue[i] in visited)
    && (forall n :: n in visited ==> n in queue)
    && (forall i, j :: 0 <= i < j < |queue| ==> queue[i] != queue[j])
    && (forall i, j :: 0 <= i < j < |queue| ==> visited[queue[i]].depth <= visited[queue[j]].depth)
  }

  /** A node dequeued before `h`, unless cut off by the depth bound, has all its successors visited. */
  ghost predicate Expanded(E: Edges, visited: Visited, queue: seq<NodeId>, h: nat, maxDepth: int)
    requires QueueOk(visited, queue)
  {
    forall i, m :: 0 <= i < h && i < |queue| && visited[queue[i]].depth < maxDepth && (queue[i], m) in E ==>
      m in visited && visited[m].depth <= visited[queue[i]].depth + 1
  }

  /** The search state when `queue[h]` is next: no node is more than one level deeper than it. */
  ghost predicate BfsOk(E: Edges, visited: Visited, queue: seq<NodeId>, h: nat, from: NodeId, maxDepth: int) {
    && h <= |queue|
    && ParentsOk(E, visited, from)
    && QueueOk(visited, queue)
    && Expanded(E, visited, queue, h, maxDepth)
    && (h < |queue| ==> forall i :: 0 <= i < |queue| ==> visited[queue[i]].depth <= visited[queue[h]].depth + 1)
    && (forall n :: n in visited && n != from ==> visited[n].depth <= maxDepth)
  }

  lemma BfsStart(E: Edges, from: NodeId, maxDepth: int, entry: BfsEntry)
    requires entry.depth == 0
    ensures BfsOk(E, map[from := entry], [from], 0, from, maxDepth)
  {
  }

  lemma QueueGrows(visited: Visited, queue: seq<NodeId>, m: NodeId, entry: BfsEntry)
    requires QueueOk(visited, queue) && m !in visited
    requires forall i :: 0 <= i < |queue| ==> visited[queue[i]].depth <= entry.depth
    ensures QueueOk(visited[m := entry], queue + [m])
  {
  }

  lemma ParentsGrow(E: Edges, visited: Visited, from: NodeId, n: NodeId, m: NodeId)
    requires ParentsOk(E, visited, from) && n in visited && m !in visited && (n, m) in E
    ensures ParentsOk(E, visited[m := BfsEntry(n, visited[n].depth + 1)], from)
  {
  }

  /** An unseen successor of the current node joins the end of the queue. */
  lemma BfsDiscover(E: Edges, visited: Visited, queue: seq<NodeId>, h: nat, from: NodeId, maxDepth: int, m: NodeId)
    requires BfsOk(E, visited, queue, h, from, maxDepth) && h < |queue|
    requires m !in visited && (queue[h], m) in E && visited[queue[h]].depth < maxDepth
    ensures BfsOk(E, visited[m := BfsEntry(queue[h], visited[queue[h]].depth + 1)], queue + [m], h, from, maxDepth)
  {
    hide ParentsOk;
    var entry := BfsEntry(queue[h], visited[queue[h]].depth + 1);
    QueueGrows(visited, queue, m, entry);
    ParentsGrow(E, visited, from, queue[h], m);
    var visited', queue' := visited[m := entry], queue + [m];
    forall i, k | 0 <= i < h && visited'[queue'[i]].depth < maxDepth && (queue'[i], k) in E
      ensures k in visited' && visited'[k].depth <= visited'[queue'[i]].depth + 1
    {
      assert queue'[i] == queue[i] && queue[i] != m;
      assert (queue[i], k) in E;
    }
  }

  /** The current node is done: everything it points at has been seen, or the bound cuts it off. */
  lemma BfsAdvance(E: Edges, visited: Visited, queue: seq<NodeId>, h: nat, from: NodeId, maxDepth: int)
    requires BfsOk(E, visited, queue, h, from, maxDepth) && h < |queue|
    requires visited[queue[h]].depth < maxDepth ==> forall m :: (queue[h], m) in E ==> m in visited
    ensures BfsOk(E, visited, queue, h + 1, from, maxDepth)
  {
  }

  /** Nodes above `bound` are expanded, so a path stays visited, no deeper than its own length. */
  lemma {:induction false} PathStaysVisited(E: Edges, visited: Visited, from: NodeId, p: seq<NodeId>, bound: int)
    requires IsPath(E, p) && p[0] == from && from in visited && visited[from].depth == 0
    requires forall n, m :: n in visited && visited[n].depth < bound && (n, m) in E ==>
               m in visited && visited[m].depth <= visited[n].depth + 1
    requires |p| - 1 <= bound || |p| == 1
    ensures p[|p| - 1] in visited && visited[p[|p| - 1]].depth <= |p| - 1
  {
    if |p| > 1 {
      var q := p[..|p| - 1];
      forall i | 0 <= i < |q| - 1
        ensures (q[i], q[i + 1]) in E
      {
        assert (p[i], p[i + 1]) in E;
      }
      PathStaysVisited(E, visited, from, q, bound);
      assert (p[|p| - 2], p[|p| - 1]) in E;
    }
  }

  /** Any path no longer than the depth reached so far ends in a visited node. */
  lemma BfsCovers(E: Edges, visited: Visited, queue: seq<NodeId>, h: nat, from: NodeId, maxDepth: int, p: seq<NodeId>)
    requires BfsOk(E, visited, queue, h, from, maxDepth)
    requires IsPath(E, p) && p[0] == from && |p| - 1 <= maxDepth
    requires h < |queue| ==> queue[h] in visited && |p| - 1 <= visited[queue[h]].depth
    ensures p[|p| - 1] in visited && visited[p[|p| - 1]].depth <= |p| - 1
  {
    hide QueueOk, Expanded;
    var bound := |p| - 1;
    forall n, m | n in visited && visited[n].depth < bound && (n, m) in E
      ensures m in visited && visited[m].depth <= visited[n].depth + 1
    {
      ShallowIsExpanded(E, visited, queue, h, from, maxDepth, n, m);
    }
    PathStaysVisited(E, visited, from, p, bound);
  }

  /** A node above the current level has been dequeued, so its successors are visited. */
  lemma ShallowIsExpanded(E: Edges, visited: Visited, queue: seq<NodeId>, h: nat, from: NodeId, maxDepth: int,
                          n: NodeId, m: NodeId)
    requires BfsOk(E, visited, queue, h, from, maxDepth) && n in visited && (n, m) in E && visited[n].depth < maxDepth
    requires h < |queue| ==> queue[h] in visited && visited[n].depth < visited[queue[h]].depth
    ensures m in visited && visited[m].depth <= visited[n].depth + 1
  {
    hide ParentsOk;
    var i :| 0 <= i < |queue| && queue[i] == n;
    assert i < h;
  }

  /** Parent pointers spell out a path as long as the recorded depth. */
  lemma {:induction false} ParentPath(E: Edges, visited: Visited, from: NodeId, n: NodeId) returns (p: seq<NodeId>)
    requires ParentsOk(E, visited, from) && n in visited
    ensures PathFromTo(E, p, from, n) && |p| == visited[n].depth + 1
    decreases visited[n].depth
  {
    if n == from {
      p := [from];
    } else {
      var q := ParentPath(E, visited, from, visited[n].parent);
      PathExtend(E, q, from, visited[n].parent, n);
      p := q + [n];
    }
  }

  lemma BfsHead(E: Edges, visited: Visited, queue: seq<NodeId>, h: nat, from: NodeId, maxDepth: int)
    requires BfsOk(E, visited, queue, h, from, maxDepth) && h < |queue|
    ensures queue[h] in visited && visited[queue[h]].depth >= 0
    ensures ParentsOk(E, visited, from)
  {
  }

  /** A search never leaves a node set that holds the source and every edge's target. */
  lemma BfsInside(E: Edges, S: set<NodeId>, visited: Visited, queue: seq<NodeId>, h: nat, from: NodeId, maxDepth: int)
    requires BfsOk(E, visited, queue, h, from, maxDepth)
    requires from in S && forall e :: e in E ==> e.1 in S
    ensures forall i :: 0 <= i < |queue| ==> queue[i] in S
    ensures |queue| <= |S|
  {
    forall i | 0 <= i < |queue|
      ensures queue[i] in S
    {
      assert queue[i] in visited;
    }
    DistinctFit(queue, S);
  }

  lemma {:induction false} DistinctFit(queue: seq<NodeId>, S: set<NodeId>)
    requires forall i :: 0 <= i < |queue| ==> queue[i] in S
    requires forall i, j :: 0 <= i < j < |queue| ==> queue[i] != queue[j]
    ensures |queue| <= |S|
  {
    if queue != [] {
      var last := queue[|queue| - 1];
      DistinctFit(queue[..|queue| - 1], S - {last});
    }
  }

  lemma ZeroDistance(E: Edges, n: NodeId)
    ensures PathFromTo(E, [n], n, n) && IsDistance(E, n, n, 0)
  {
  }

  /** The node being dequeued sits at its true distance. */
  lemma BfsShortest(E: Edges, visited: Visited, queue: seq<NodeId>, h: nat, from: NodeId, maxDepth: int)
    requires BfsOk(E, visited, queue, h, from, maxDepth) && h < |queue| && queue[h] != from
    ensures IsDistance(E, from, queue[h], visited[queue[h]].depth)
    ensures WithinDepth(E, from, queue[h], maxDepth)
  {
    var to, d := queue[h], visited[queue[h]].depth;
    var q := ParentPath(E, visited, from, to);
    forall p | PathFromTo(E, p, from, to)
      ensures d + 1 <= |p|
    {
      if |p| <= d {
        BfsCovers(E, visited, queue, h, from, maxDepth, p);
      }
    }
  }

  /** An unseen node first met as a successor of the current one is exactly one level further. */
  lemma BfsNextIsTo(E: Edges, visited: Visited, queue: seq<NodeId>, h: nat, from: NodeId, maxDepth: int, to: NodeId)
    requires BfsOk(E, visited, queue, h, from, maxDepth) && h < |queue| && visited[queue[h]].depth < maxDepth
    requires (queue[h], to) in E && to !in visited
    ensures IsDistance(E, from, to, visited[queue[h]].depth + 1)
    ensures WithinDepth(E, from, to, maxDepth)
  {
    var cur, d := queue[h], visited[queue[h]].depth;
    var q := ParentPath(E, visited, from, cur);
    PathExtend(E, q, from, cur, to);
    assert PathFromTo(E, q + [to], from, to) && |q + [to]| == d + 1 + 1;
    forall p | PathFromTo(E, p, from, to)
      ensures d + 2 <= |p|
    {
      if |p| <= d + 1 {
        BfsCovers(E, visited, queue, h, from, maxDepth, p);
      }
    }
  }

  /** Once the queue is exhausted, an unseen node is out of reach within the bound. */
  lemma BfsExhausted(E: Edges, visited: Visited, queue: seq<NodeId>, from: NodeId, maxDepth: int, to: NodeId)
    requires BfsOk(E, visited, queue, |queue|, from, maxDepth) && to !in queue
    ensures !WithinDepth(E, from, to, maxDepth)
  {
    forall p | PathFromTo(E, p, from, to)
      ensures |p| - 1 > maxDepth
    {
      if |p| - 1 <= maxDepth {
        BfsCovers(E, visited, queue, |queue|, from, maxDepth, p);
      }
    }
  }

  /** PathExists keeps a set and (node, depth) pairs where FindPath keeps a map and nodes. */
  ghost predicate QueueShadows(queue: seq<(NodeId, int)>, visited: set<NodeId>, order: seq<NodeId>, known: Visited) {
    && visited == known.Keys
    && |queue| == |order|
    && forall i :: 0 <= i < |queue| ==>
       queue[i].0 == order[i] && order[i] in known && queue[i].1 == known[order[i]].depth
  }

  /** Swaps ends inwards, as the source reverses its slice. */
  method Reverse(path: seq<NodeId>) returns (r: seq<NodeId>)
    ensures |r| == |path| && forall k :: 0 <= k < |path| ==> r[k] == path[|path| - 1 - k]
  {
    r := path;
    var i, j := 0, |path| - 1;
    while i < j
      invariant |r| == |path| && 0 <= i && i + j == |path| - 1
      invariant forall k :: 0 <= k < |path| && (k < i || j < k) ==> r[k] == path[|path| - 1 - k]
      invariant forall k :: i <= k <= j && k < |path| ==> r[k] == path[k]
    {
      r := r[i := r[j]][j := r[i]];
      i, j := i + 1, j - 1;
    }
  }

  lemma ReversedIsPath(E: Edges, back: seq<NodeId>, path: seq<NodeId>)
    requires |back| > 0 && forall i :: 0 <= i < |back| - 1 ==> (back[i + 1], back[i]) in E
    requires |path| == |back| && forall k :: 0 <= k < |back| ==> path[k] == back[|back| - 1 - k]
    ensures PathFromTo(E, path, back[|back| - 1], back[0])
  {
  }

  // ----- iterative three-colour depth-first search -----

  datatype Frame = Frame(node: NodeId, iter: seq<NodeId>, idx: nat)

  type Colours = map<NodeId, int>
  type Ranks = map<NodeId, nat>

  /** Unset colours read as white. */
  function Colour(colour: Colours, n: NodeId): int {
    if n in colour then colour[n] else 0
  }

  /** The edges between two nodes of S. */
  function Induced(E: Edges, S: set<NodeId>): Edges {
    set e | e in E && e.0 in S && e.1 in S
  }

  /** Black nodes are ranked by finishing order, and every edge out of one goes to a lower rank. */
  ghost predicate RanksOk(F: Edges, rank: Ranks) {
    && (forall n :: n in rank ==> rank[n] < |rank|)
    && (forall e :: e in F && e.0 in rank ==> e.1 in rank && rank[e.1] < rank[e.0])
  }

  ghost predicate OnStack(stack: seq<Frame>, n: NodeId) {
    exists i :: 0 <= i < |stack| && stack[i].node == n
  }

  /** Grey is exactly the stack and black exactly the ranked nodes. */
  ghost predicate ColoursOk(colour: Colours, stack: seq<Frame>, rank: Ranks) {
    && (forall n :: Colour(colour, n) == 1 <==> OnStack(stack, n))
    && (forall n :: Colour(colour, n) == 2 <==> n in rank)
    && (forall n :: 0 <= Colour(colour, n) <= 2)
    && (forall i, j :: 0 <= i < j < |stack| ==> stack[i].node != stack[j].node)
  }

  ghost predicate Lists(F: Edges, n: NodeId, iter: seq<NodeId>) {
    forall m :: m in iter <==> (n, m) in F
  }

  ghost predicate AllBlack(iter: seq<NodeId>, k: int, rank: Ranks) {
    forall j :: 0 <= j < k && j < |iter| ==> iter[j] in rank
  }

  /** Each frame lists its node's successors, points at the frame above it, and has only black ones behind. */
  ghost predicate StackOk(F: Edges, stack: seq<Frame>, rank: Ranks) {
    && (forall i :: 0 <= i < |stack| ==> stack[i].idx <= |stack[i].iter| && Lists(F, stack[i].node, stack[i].iter))
    && (forall i :: 0 <= i < |stack| - 1 ==> stack[i].idx > 0 && stack[i].iter[stack[i].idx - 1] == stack[i + 1].node)
    && (forall i :: 0 <= i < |stack| - 1 ==> AllBlack(stack[i].iter, stack[i].idx - 1, rank))
    && (|stack| > 0 ==> AllBlack(stack[|stack| - 1].iter, stack[|stack| - 1].idx, rank))
  }

  /** A successor of the top that is still on the stack closes a cycle. */
  lemma BackEdgeIsCycle(F: Edges, stack: seq<Frame>, rank: Ranks, m: NodeId)
    requires StackOk(F, stack, rank) && |stack| > 0
    requires (stack[|stack| - 1].node, m) in F && OnStack(stack, m)
    ensures Cyclic(F)
  {
    var k :| 0 <= k < |stack| && stack[k].node == m;
    var p := seq(|stack| - k, i requires 0 <= i < |stack| - k => stack[k + i].node) + [m];
    forall i | 0 <= i < |p| - 1
      ensures (p[i], p[i + 1]) in F
    {
      if i < |p| - 2 {
        var fr := stack[k + i];
        assert fr.iter[fr.idx - 1] == stack[k + i + 1].node;
        assert fr.iter[fr.idx - 1] in fr.iter;
      }
    }
    assert IsCycle(F, p);
  }

  lemma AllBlackIsAcyclic(F: Edges, rank: Ranks)
    requires RanksOk(F, rank) && forall e :: e in F ==> e.0 in rank
    ensures !Cyclic(F)
  {
    RankedIsAcyclic(F, rank);
  }

  lemma FinishColours(colour: Colours, stack: seq<Frame>, rank: Ranks)
    requires ColoursOk(colour, stack, rank) && |stack| > 0
    ensures var n := stack[|stack| - 1].node;
            && n !in rank && Colour(colour, n) == 1
            && ColoursOk(colour[n := 2], stack[..|stack| - 1], rank[n := |rank|])
  {
    var n := stack[|stack| - 1].node;
    var stack' := stack[..|stack| - 1];
    assert OnStack(stack, n);
    forall m
      ensures OnStack(stack', m) <==> OnStack(stack, m) && m != n
    {
      if OnStack(stack, m) && m != n {
        var i :| 0 <= i < |stack| && stack[i].node == m;
        assert stack'[i].node == m;
      }
      if OnStack(stack', m) {
        var i :| 0 <= i < |stack'| && stack'[i].node == m;
        assert stack[i].node == m != stack[|stack| - 1].node;
      }
    }
    var colour', rank' := colour[n := 2], rank[n := |rank|];
    forall m: NodeId
      ensures Colour(colour', m) == 1 <==> OnStack(stack', m)
      ensures Colour(colour', m) == 2 <==> m in rank'
      ensures 0 <= Colour(colour', m) <= 2
    {
      assert Colour(colour', m) == if m == n then 2 else Colour(colour, m);
      assert Colour(colour, m) == 2 <==> m in rank;
    }
    assert forall i, j :: 0 <= i < j < |stack'| ==> stack'[i].node != stack'[j].node;
  }

  lemma FinishRanks(F: Edges, stack: seq<Frame>, rank: Ranks)
    requires StackOk(F, stack, rank) && RanksOk(F, rank)
    requires |stack| > 0 && stack[|stack| - 1].idx == |stack[|stack| - 1].iter| && stack[|stack| - 1].node !in rank
    ensures RanksOk(F, rank[stack[|stack| - 1].node := |rank|])
  {
  }

  lemma FinishStack(F: Edges, stack: seq<Frame>, rank: Ranks, k: nat)
    requires StackOk(F, stack, rank) && |stack| > 0
    ensures StackOk(F, stack[..|stack| - 1], rank[stack[|stack| - 1].node := k])
  {
  }

  lemma PushColours(colour: Colours, stack: seq<Frame>, rank: Ranks, stack': seq<Frame>, m: NodeId)
    requires ColoursOk(colour, stack, rank) && Colour(colour, m) == 0
    requires |stack'| == |stack| + 1 && stack'[|stack|].node == m
    requires forall i :: 0 <= i < |stack| ==> stack'[i].node == stack[i].node
    ensures ColoursOk(colour[m := 1], stack', rank)
  {
    assert !OnStack(stack, m);
    var colour' := colour[m := 1];
    PushMembers(stack, stack', m);
    assert forall n :: Colour(colour', n) == if n == m then 1 else Colour(colour, n);
    hide Colour, OnStack;
    forall n
      ensures Colour(colour', n) == 1 <==> OnStack(stack', n)
      ensures Colour(colour', n) == 2 <==> n in rank
    {
      assert OnStack(stack', n) <==> OnStack(stack, n) || n == m;
      assert Colour(colour, n) == 1 <==> OnStack(stack, n);
      assert Colour(colour, n) == 2 <==> n in rank;
    }
  }

  lemma PushMembers(stack: seq<Frame>, stack': seq<Frame>, m: NodeId)
    requires !OnStack(stack, m) && |stack'| == |stack| + 1 && stack'[|stack|].node == m
    requires forall i :: 0 <= i < |stack| ==> stack'[i].node == stack[i].node
    requires forall i, j :: 0 <= i < j < |stack| ==> stack[i].node != stack[j].node
    ensures forall n :: OnStack(stack', n) <==> OnStack(stack, n) || n == m
    ensures forall i, j :: 0 <= i < j < |stack'| ==> stack'[i].node != stack'[j].node
  {
  }

  /** A white successor of the top is pushed and turns grey. */
  lemma PushWhite(F: Edges, stack: seq<Frame>, rank: Ranks, m: NodeId, iter: seq<NodeId>)
    requires StackOk(F, stack, rank)
    requires |stack| > 0 && stack[|stack| - 1].idx < |stack[|stack| - 1].iter|
    requires m == stack[|stack| - 1].iter[stack[|stack| - 1].idx]
    requires Lists(F, m, iter)
    ensures var top := stack[|stack| - 1];
            StackOk(F, stack[..|stack| - 1] + [top.(idx := top.idx + 1), Frame(m, iter, 0)], rank)
  {
  }

  /** A black successor of the top is passed over. */
  lemma SkipBlack(F: Edges, colour: Colours, stack: seq<Frame>, rank: Ranks)
    requires ColoursOk(colour, stack, rank) && StackOk(F, stack, rank)
    requires |stack| > 0 && stack[|stack| - 1].idx < |stack[|stack| - 1].iter|
    requires stack[|stack| - 1].iter[stack[|stack| - 1].idx] in rank
    ensures var top := stack[|stack| - 1];
            var stack' := stack[..|stack| - 1] + [top.(idx := top.idx + 1)];
            ColoursOk(colour, stack', rank) && StackOk(F, stack', rank)
  {
    var top := stack[|stack| - 1];
    var stack' := stack[..|stack| - 1] + [top.(idx := top.idx + 1)];
    assert forall i :: 0 <= i < |stack| ==> stack'[i].node == stack[i].node;
    assert forall i :: 0 <= i < |stack| - 1 ==> stack'[i] == stack[i];
    forall n
      ensures OnStack(stack', n) <==> OnStack(stack, n)
    {
      if OnStack(stack, n) {
        var i :| 0 <= i < |stack| && stack[i].node == n;
        assert stack'[i].node == n;
      }
    }
  }

  lemma StartStack(F: Edges, colour: Colours, rank: Ranks, start: NodeId, iter: seq<NodeId>)
    requires ColoursOk(colour, [], rank) && Colour(colour, start) == 0 && Lists(F, start, iter)
    ensures ColoursOk(colour[start := 1], [Frame(start, iter, 0)], rank)
    ensures StackOk(F, [Frame(start, iter, 0)], rank)
  {
    var stack := [Frame(start, iter, 0)];
    forall n
      ensures OnStack(stack, n) <==> n == start
    {
      assert stack[0].node == start;
    }
    assert forall n :: !OnStack([], n);
  }

  lemma StackTop(F: Edges, stack: seq<Frame>, rank: Ranks)
    requires StackOk(F, stack, rank) && |stack| > 0
    ensures stack[|stack| - 1].idx <= |stack[|stack| - 1].iter|
    ensures Lists(F, stack[|stack| - 1].node, stack[|stack| - 1].iter)
  {
  }

  lemma ListedAreInside(E: Edges, S: set<NodeId>, n: NodeId, iter: seq<NodeId>, i: nat)
    requires Lists(Induced(E, S), n, iter) && i < |iter|
    ensures (n, iter[i]) in Induced(E, S) && iter[i] in S
  {
  }

  lemma ColourMeans(colour: Colours, stack: seq<Frame>, rank: Ranks, n: NodeId)
    requires ColoursOk(colour, stack, rank)
    ensures Colour(colour, n) == 1 <==> OnStack(stack, n)
    ensures Colour(colour, n) == 2 <==> n in rank
    ensures Colour(colour, n) in {0, 1, 2}
  {
  }

  lemma NothingColoured(F: Edges)
    ensures ColoursOk(map[], [], map[]) && RanksOk(F, map[])
  {
  }
}
