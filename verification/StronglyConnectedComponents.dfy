/** Tarjan's algorithm as written in StronglyConnectedComponents.py: one recursive worker over shared
    mutable structures. The fields of `SccFinder` are the variables the nested function closes over. */
module StronglyConnectedComponents {
  import opened Reachability

  // A key of any hashable class; the algorithm only compares nodes for equality.
  type Node(==, !new)
  type Graph = map<Node, seq<Node>>

  // The list that the dictionary holds for `u` names `v`.
  ghost predicate Lists(graph: Graph, u: Node, v: Node) {
    u in graph && v in graph[u]
  }

  ghost function Edge(graph: Graph): (Node, Node) -> bool {
    (u, v) => Lists(graph, u, v)
  }

  // What the worker goes through. A node that is not a key of the dictionary has no successors.
  function Successors(graph: Graph, node: Node): (successors: seq<Node>)
    ensures forall v :: v in successors <==> Lists(graph, node, v)
  {
    if node in graph then graph[node] else []
  }

  ghost function Universe(graph: Graph): set<Node> {
    graph.Keys + set k, v | k in graph && v in graph[k] :: v
  }

  // The shared variables of one run.
  datatype Snapshot = Snapshot(
    stack: seq<Node>, index: map<Node, int>, lowLinks: map<Node, int>, counter: nat, result: seq<seq<Node>>)

  // ----- What the caller gets -----

  ghost predicate InComponent(result: seq<seq<Node>>, v: Node) {
    exists i :: 0 <= i < |result| && v in result[i]
  }

  ghost predicate NoDuplicates(s: seq<Node>) {
    forall i, j :: 0 <= i < j < |s| ==> s[i] != s[j]
  }

  ghost predicate FromSomeKey(graph: Graph, v: Node) {
    exists k :: k in graph && Reach(Edge(graph), k, v)
  }

  // The tuples are non-empty, without repetitions and pairwise disjoint.
  ghost predicate Disjoint(result: seq<seq<Node>>) {
    && (forall i :: 0 <= i < |result| ==> result[i] != [] && NoDuplicates(result[i]))
    && (forall i, j, v :: 0 <= i < |result| && 0 <= j < |result| && v in result[i] && v in result[j] ==> i == j)
  }

  // A tuple holds exactly the nodes that are mutually reachable with any one of its members.
  ghost predicate StronglyConnected(graph: Graph, result: seq<seq<Node>>) {
    forall i, u, v {:trigger u in result[i], Mutual(Edge(graph), u, v)} ::
      0 <= i < |result| && u in result[i] ==> (v in result[i] <==> Mutual(Edge(graph), u, v))
  }

  // An edge never leads to a tuple that comes later.
  ghost predicate ReverseTopological(graph: Graph, result: seq<seq<Node>>) {
    forall i, j, u, v :: 0 <= i < j < |result| && u in result[i] && v in result[j] ==> !Lists(graph, u, v)
  }

  // ----- What every step keeps; `gray` holds the nodes whose call has not returned -----

  ghost predicate Numbered(s: Snapshot) {
    && s.index.Keys == s.lowLinks.Keys
    && (forall v :: v in s.index ==> 0 <= s.index[v] < s.counter)
    && (forall v :: v in s.stack ==> v in s.index)
    && (forall i, j {:trigger s.index[s.stack[i]], s.index[s.stack[j]]} ::
          0 <= i < j < |s.stack| ==> s.index[s.stack[i]] < s.index[s.stack[j]])
  }

  ghost predicate Split(graph: Graph, stack: seq<Node>, index: map<Node, int>, result: seq<seq<Node>>) {
    && (forall v :: v in index <==> v in stack || InComponent(result, v))
    && (forall v :: v in stack ==> !InComponent(result, v))
    && (forall v :: v in index ==> v in Universe(graph) && FromSomeKey(graph, v))
  }

  ghost predicate BlackExplored(graph: Graph, index: map<Node, int>, gray: set<Node>) {
    forall v, w :: v in index && v !in gray && w in Successors(graph, v) ==> w in index
  }

  ghost predicate StackOrdered(graph: Graph, stack: seq<Node>) {
    forall i, j {:trigger Reach(Edge(graph), stack[i], stack[j])} ::
      0 <= i <= j < |stack| ==> Reach(Edge(graph), stack[i], stack[j])
  }

  ghost predicate HasGrayBelow(graph: Graph, stack: seq<Node>, index: map<Node, int>, gray: set<Node>, y: Node)
    requires y in index
  {
    exists x :: x in gray && x in stack && x in index && index[x] <= index[y] && Reach(Edge(graph), y, x)
  }

  ghost predicate BackToGray(graph: Graph, stack: seq<Node>, index: map<Node, int>, gray: set<Node>) {
    forall y {:trigger HasGrayBelow(graph, stack, index, gray, y)} :: y in stack ==>
      y in index && HasGrayBelow(graph, stack, index, gray, y)
  }

  ghost predicate Closed(graph: Graph, result: seq<seq<Node>>) {
    forall v, w :: InComponent(result, v) && w in Successors(graph, v) ==> InComponent(result, w)
  }

  ghost predicate Inv(graph: Graph, s: Snapshot, gray: set<Node>) {
    && Numbered(s)
    && Split(graph, s.stack, s.index, s.result)
    && (forall v :: v in gray ==> v in s.stack)
    && BlackExplored(graph, s.index, gray)
    && StackOrdered(graph, s.stack)
    && BackToGray(graph, s.stack, s.index, gray)
    && Closed(graph, s.result)
    && Disjoint(s.result)
    && StronglyConnected(graph, s.result)
    && ReverseTopological(graph, s.result)
  }

  // Numbers already handed out stay, the stack below stays, finished tuples stay.
  ghost predicate Grown(s0: Snapshot, s: Snapshot) {
    && s0.counter <= s.counter
    && s0.stack <= s.stack
    && s0.result <= s.result
    && (forall v :: v in s0.index ==> v in s.index && s.index[v] == s0.index[v])
    && (forall v :: v in s0.index && v in s0.lowLinks ==> v in s.lowLinks && s.lowLinks[v] == s0.lowLinks[v])
    && (forall v :: v in s.index && v !in s0.index ==> s.index[v] >= s0.counter)
  }

  // `low` is at most the number of every node of `below` that a stack node outside `below` points to; the
  // nodes in `skipped` are not considered.
  ghost predicate BoundsCrossing(graph: Graph, stack: seq<Node>, index: map<Node, int>, below: seq<Node>,
                                 skipped: set<Node>, low: int) {
    forall y, z :: y in stack && y !in below && y !in skipped && z in Successors(graph, y) && z in below ==>
      z in index && low <= index[z]
  }

  ghost predicate ReachesNumber(graph: Graph, stack: seq<Node>, index: map<Node, int>, node: Node, low: int) {
    exists y :: y in stack && y in index && index[y] == low && Reach(Edge(graph), node, y)
  }

  // What a returned call for `node` guarantees, relative to the snapshot before it.
  ghost predicate Returned(graph: Graph, s0: Snapshot, s: Snapshot, node: Node)
    requires Numbered(s)
  {
    && Grown(s0, s)
    && node in s.index
    && s.lowLinks[node] <= s.index[node]
    && BoundsCrossing(graph, s.stack, s.index, s0.stack, {}, s.lowLinks[node])
    && (if node in s.stack
        then s.lowLinks[node] < s.index[node] && ReachesNumber(graph, s.stack, s.index, node, s.lowLinks[node])
        else s.stack == s0.stack && s.lowLinks[node] == s.index[node])
  }

  // The state at the head of the successor loop of `node`, after `k` successors.
  ghost predicate Exploring(graph: Graph, s0: Snapshot, s: Snapshot, node: Node, k: nat)
    requires Numbered(s)
  {
    && Grown(s0, s)
    && node !in s0.index && node in s.index
    && |s0.stack| < |s.stack| && s.stack[|s0.stack|] == node
    && s.lowLinks[node] <= s.index[node]
    && ReachesNumber(graph, s.stack, s.index, node, s.lowLinks[node])
    && BoundsCrossing(graph, s.stack, s.index, s0.stack, {node}, s.lowLinks[node])
    && k <= |Successors(graph, node)|
    && (forall i :: 0 <= i < k ==> Successors(graph, node)[i] in s.index)
    && (forall i :: 0 <= i < k && Successors(graph, node)[i] in s0.stack ==>
          s.lowLinks[node] <= s.index[Successors(graph, node)[i]])
  }

  // ----- The steps -----

  function Push(s: Snapshot, node: Node): Snapshot {
    Snapshot(s.stack + [node], s.index[node := s.counter], s.lowLinks[node := s.counter], s.counter + 1, s.result)
  }

  lemma PushIsNumbered(s0: Snapshot, node: Node)
    requires Numbered(s0) && node !in s0.index
    ensures Numbered(Push(s0, node))
  {
    var s := Push(s0, node);
    assert forall v :: v in s.stack <==> v in s0.stack || v == node;
    forall i, j | 0 <= i < j < |s.stack|
      ensures s.index[s.stack[i]] < s.index[s.stack[j]]
    {
      assert s0.stack[i] in s0.index;
      if j < |s0.stack| {
        assert s0.index[s0.stack[i]] < s0.index[s0.stack[j]];
      }
    }
  }

  lemma PushNumbers(graph: Graph, s0: Snapshot, node: Node)
    requires Numbered(s0) && Split(graph, s0.stack, s0.index, s0.result)
    requires node !in s0.index && node in Universe(graph) && FromSomeKey(graph, node)
    ensures var s := Push(s0, node);
            Numbered(s) && Split(graph, s.stack, s.index, s.result) && Grown(s0, s)
  {
    var s := Push(s0, node);
    PushIsNumbered(s0, node);
    assert forall v :: v in s.stack <==> v in s0.stack || v == node;
  }

  lemma PushReaches(graph: Graph, s0: Snapshot, gray: set<Node>, node: Node)
    requires Numbered(s0) && StackOrdered(graph, s0.stack) && BackToGray(graph, s0.stack, s0.index, gray) && node !in s0.index
    requires Numbered(Push(s0, node))
    requires forall x :: x in gray ==> Reach(Edge(graph), x, node)
    ensures var s := Push(s0, node);
            StackOrdered(graph, s.stack) && BackToGray(graph, s.stack, s.index, gray + {node})
  {
    var s := Push(s0, node);
    var e := Edge(graph);
    ReachSelf(e, node);
    forall y | y in s0.stack
      ensures Reach(e, y, node) && HasGrayBelow(graph, s.stack, s.index, gray + {node}, y)
    {
      assert HasGrayBelow(graph, s0.stack, s0.index, gray, y);
      var x :| x in gray && x in s0.stack && s0.index[x] <= s0.index[y] && Reach(e, y, x);
      ReachTransitive(e, y, x, node);
      assert x in gray + {node} && x in s.stack && s.index[x] <= s.index[y];
    }
    assert node in s.stack && HasGrayBelow(graph, s.stack, s.index, gray + {node}, node);
    forall i, j | 0 <= i <= j < |s.stack|
      ensures Reach(e, s.stack[i], s.stack[j])
    {
      if j < |s0.stack| {
        assert s.stack[i] == s0.stack[i] && s.stack[j] == s0.stack[j];
      } else if i < j {
        assert s.stack[i] == s0.stack[i];
      }
    }
  }

  lemma PushStarts(graph: Graph, s0: Snapshot, gray: set<Node>, node: Node)
    requires Inv(graph, s0, gray)
    requires node !in s0.index && node in Universe(graph) && FromSomeKey(graph, node)
    requires forall x :: x in gray ==> Reach(Edge(graph), x, node)
    ensures Inv(graph, Push(s0, node), gray + {node})
    ensures Exploring(graph, s0, Push(s0, node), node, 0)
  {
    var s := Push(s0, node);
    PushNumbers(graph, s0, node);
    PushReaches(graph, s0, gray, node);
    ReachSelf(Edge(graph), node);
    assert BlackExplored(graph, s.index, gray + {node});
    assert s.stack[|s0.stack|] == node;
    assert ReachesNumber(graph, s.stack, s.index, node, s.lowLinks[node]);
    assert BoundsCrossing(graph, s.stack, s.index, s0.stack, {node}, s.lowLinks[node]);
    assert Inv(graph, s, gray + {node});
  }

  // Lowering one link: the statement `lowLinks[node] = min(lowLinks[node], low)`.
  function Lower(s: Snapshot, node: Node, low: int): Snapshot
    requires node in s.lowLinks
  {
    s.(lowLinks := s.lowLinks[node := if low < s.lowLinks[node] then low else s.lowLinks[node]])
  }

  lemma LowerKeepsInv(graph: Graph, s: Snapshot, gray: set<Node>, node: Node, low: int)
    requires Inv(graph, s, gray) && node in s.index
    ensures Inv(graph, Lower(s, node, low), gray)
  {
    assert Lower(s, node, low).lowLinks.Keys == s.lowLinks.Keys;
  }

  lemma GrownTransitive(s0: Snapshot, s1: Snapshot, s2: Snapshot)
    requires Numbered(s0) && Numbered(s1) && Grown(s0, s1) && Grown(s1, s2)
    ensures Grown(s0, s2)
  {
  }

  lemma LowerGrown(s0: Snapshot, s: Snapshot, node: Node, low: int)
    requires Grown(s0, s) && node !in s0.index && node in s.lowLinks
    ensures Grown(s0, Lower(s, node, low)) && Lower(s, node, low).lowLinks.Keys == s.lowLinks.Keys
  {
  }

  lemma LowerBound(graph: Graph, stack: seq<Node>, index: map<Node, int>, below: seq<Node>, skipped: set<Node>,
                   low: int, lower: int)
    requires BoundsCrossing(graph, stack, index, below, skipped, low) && lower <= low
    ensures BoundsCrossing(graph, stack, index, below, skipped, lower)
  {
  }

  // The successor was visited before: on the stack it lowers the link, popped it changes nothing.
  lemma SeenOnStack(graph: Graph, s0: Snapshot, s: Snapshot, node: Node, k: nat, w: Node)
    requires Numbered(s) && Exploring(graph, s0, s, node, k)
    requires k < |Successors(graph, node)| && w == Successors(graph, node)[k] && w in s.stack
    ensures var t := Lower(s, node, s.index[w]); Numbered(t) && Exploring(graph, s0, t, node, k + 1)
  {
    var t := Lower(s, node, s.index[w]);
    ReachEdge(Edge(graph), node, w);
    LowerGrown(s0, s, node, s.index[w]);
    assert ReachesNumber(graph, t.stack, t.index, node, s.index[w]);
    LowerBound(graph, s.stack, s.index, s0.stack, {node}, s.lowLinks[node], t.lowLinks[node]);
  }

  lemma SeenPopped(graph: Graph, s0: Snapshot, s: Snapshot, node: Node, k: nat, w: Node)
    requires Numbered(s) && Exploring(graph, s0, s, node, k)
    requires k < |Successors(graph, node)| && w == Successors(graph, node)[k] && w in s.index && w !in s.stack
    ensures Exploring(graph, s0, s, node, k + 1)
  {
  }

  lemma CallAllowed(graph: Graph, s: Snapshot, gray: set<Node>, node: Node, w: Node)
    requires Inv(graph, s, gray + {node}) && w in Successors(graph, node)
    requires forall x :: x in gray ==> Reach(Edge(graph), x, node)
    ensures w in Universe(graph) && FromSomeKey(graph, w)
    ensures forall x :: x in gray + {node} ==> Reach(Edge(graph), x, w)
  {
    var e := Edge(graph);
    assert node in s.stack && node in s.index;
    ReachEdge(e, node, w);
    var k :| k in graph && Reach(e, k, node);
    ReachTransitive(e, k, node, w);
    forall x | x in gray
      ensures Reach(e, x, w)
    {
      ReachTransitive(e, x, node, w);
    }
  }

  lemma ReturnedReaches(graph: Graph, s1: Snapshot, s2: Snapshot, node: Node, w: Node)
    requires Numbered(s1) && Numbered(s2) && node in s1.index && w !in s1.index
    requires Returned(graph, s1, s2, w) && w in Successors(graph, node)
    requires s1.lowLinks[node] <= s1.index[node] && ReachesNumber(graph, s1.stack, s1.index, node, s1.lowLinks[node])
    ensures ReachesNumber(graph, s2.stack, s2.index, node, Lower(s2, node, s2.lowLinks[w]).lowLinks[node])
  {
    var e := Edge(graph);
    if s2.lowLinks[w] < s1.lowLinks[node] {
      assert w in s2.stack;
      var y :| y in s2.stack && y in s2.index && s2.index[y] == s2.lowLinks[w] && Reach(e, w, y);
      ReachEdge(e, node, w);
      ReachTransitive(e, node, w, y);
    } else {
      var y :| y in s1.stack && y in s1.index && s1.index[y] == s1.lowLinks[node] && Reach(e, node, y);
      assert y in s2.stack && s2.index[y] == s1.lowLinks[node];
    }
  }

  lemma ReturnedCrossing(graph: Graph, s0: Snapshot, s1: Snapshot, s2: Snapshot, node: Node, lowW: int)
    requires Numbered(s1) && Numbered(s2) && Grown(s1, s2) && node in s1.index && s0.stack <= s1.stack
    requires BoundsCrossing(graph, s1.stack, s1.index, s0.stack, {node}, s1.lowLinks[node])
    requires BoundsCrossing(graph, s2.stack, s2.index, s1.stack, {}, lowW)
    ensures BoundsCrossing(graph, s2.stack, s2.index, s0.stack, {node}, Lower(s2, node, lowW).lowLinks[node])
  {
  }

  lemma ReturnedSuccessors(graph: Graph, s0: Snapshot, s1: Snapshot, s2: Snapshot, node: Node, k: nat, w: Node)
    requires Numbered(s1) && Numbered(s2) && Exploring(graph, s0, s1, node, k) && Returned(graph, s1, s2, w)
    requires k < |Successors(graph, node)| && w == Successors(graph, node)[k] && w !in s1.index
    ensures forall i :: 0 <= i <= k ==> Successors(graph, node)[i] in s2.index
    ensures s2.lowLinks[node] == s1.lowLinks[node] <= s2.index[node]
    ensures forall i :: 0 <= i <= k && Successors(graph, node)[i] in s0.stack ==>
              s2.lowLinks[node] <= s2.index[Successors(graph, node)[i]]
  {
    assert s0.stack <= s1.stack;
    forall i | 0 <= i <= k
      ensures Successors(graph, node)[i] in s2.index
      ensures Successors(graph, node)[i] in s0.stack ==> s2.lowLinks[node] <= s2.index[Successors(graph, node)[i]]
    {
      if i < k {
        assert Successors(graph, node)[i] in s1.index;
      } else {
        assert w in s0.stack ==> w in s1.stack;
      }
    }
  }

  // The successor was new: its call returned, and its low link is taken over.
  lemma NewSuccessor(graph: Graph, s0: Snapshot, s1: Snapshot, s2: Snapshot, node: Node, k: nat, w: Node)
    requires Numbered(s0) && Numbered(s1) && Exploring(graph, s0, s1, node, k)
    requires k < |Successors(graph, node)| && w == Successors(graph, node)[k] && w !in s1.index
    requires Numbered(s2) && Returned(graph, s1, s2, w)
    ensures var t := Lower(s2, node, s2.lowLinks[w]); Numbered(t) && Exploring(graph, s0, t, node, k + 1)
  {
    var t := Lower(s2, node, s2.lowLinks[w]);
    ReturnedSuccessors(graph, s0, s1, s2, node, k, w);
    GrownTransitive(s0, s1, s2);
    LowerGrown(s0, s2, node, s2.lowLinks[w]);
    assert ReachesNumber(graph, t.stack, t.index, node, t.lowLinks[node]) by {
      ReturnedReaches(graph, s1, s2, node, w);
    }
    assert BoundsCrossing(graph, t.stack, t.index, s0.stack, {node}, t.lowLinks[node]) by {
      ReturnedCrossing(graph, s0, s1, s2, node, s2.lowLinks[w]);
    }
  }

  lemma AfterSeenOnStack(graph: Graph, s0: Snapshot, s: Snapshot, t: Snapshot, gray: set<Node>, node: Node,
                         k: nat, w: Node)
    requires Inv(graph, s, gray + {node}) && Exploring(graph, s0, s, node, k)
    requires k < |Successors(graph, node)| && w == Successors(graph, node)[k] && w in s.stack
    requires t == Lower(s, node, s.index[w])
    ensures Inv(graph, t, gray + {node}) && Exploring(graph, s0, t, node, k + 1)
  {
    LowerKeepsInv(graph, s, gray + {node}, node, s.index[w]);
    SeenOnStack(graph, s0, s, node, k, w);
  }

  lemma AfterNewSuccessor(graph: Graph, s0: Snapshot, s1: Snapshot, s2: Snapshot, t: Snapshot, gray: set<Node>,
                          node: Node, k: nat, w: Node)
    requires Numbered(s0) && Numbered(s1) && Exploring(graph, s0, s1, node, k)
    requires k < |Successors(graph, node)| && w == Successors(graph, node)[k] && w !in s1.index
    requires Inv(graph, s2, gray + {node}) && Returned(graph, s1, s2, w)
    requires t == Lower(s2, node, s2.lowLinks[w])
    ensures Inv(graph, t, gray + {node}) && Exploring(graph, s0, t, node, k + 1)
  {
    NewSuccessor(graph, s0, s1, s2, node, k, w);
    LowerKeepsInv(graph, s2, gray + {node}, node, s2.lowLinks[w]);
  }

  // ----- The end of a call: all successors explored -----

  ghost predicate Explored(graph: Graph, s0: Snapshot, s: Snapshot, gray: set<Node>, node: Node) {
    && Inv(graph, s0, gray)
    && Inv(graph, s, gray + {node})
    && Exploring(graph, s0, s, node, |Successors(graph, node)|)
  }

  lemma NodeIsBlack(graph: Graph, s0: Snapshot, s: Snapshot, gray: set<Node>, node: Node)
    requires Explored(graph, s0, s, gray, node)
    ensures BlackExplored(graph, s.index, gray)
  {
    forall w | w in Successors(graph, node)
      ensures w in s.index
    {
      var i :| 0 <= i < |Successors(graph, node)| && Successors(graph, node)[i] == w;
    }
  }

  lemma PositionAbove(s0: Snapshot, s: Snapshot, v: Node) returns (i: nat)
    requires s0.stack <= s.stack && v in s.stack && v !in s0.stack
    ensures |s0.stack| <= i < |s.stack| && s.stack[i] == v
  {
    var above := s.stack[|s0.stack|..];
    assert s.stack == s0.stack + above && v in above;
    var j :| 0 <= j < |above| && above[j] == v;
    i := |s0.stack| + j;
  }

  lemma NumbersBelow(s0: Snapshot, s: Snapshot, node: Node, v: Node)
    requires Numbered(s) && s0.stack <= s.stack && |s0.stack| < |s.stack| && s.stack[|s0.stack|] == node
    requires v in s.stack
    ensures v in s.index && node in s.index && (v in s0.stack <==> s.index[v] < s.index[node])
  {
    assert node in s.stack;
    if v in s0.stack {
      var j :| 0 <= j < |s0.stack| && s0.stack[j] == v;
      assert s.index[s.stack[j]] < s.index[s.stack[|s0.stack|]];
    } else {
      var i := PositionAbove(s0, s, v);
      assert i > |s0.stack| ==> s.index[s.stack[|s0.stack|]] < s.index[s.stack[i]];
    }
  }

  // A node below `node` on the stack leads back to a call that is still open besides the one for `node`.
  lemma LowerGray(graph: Graph, s0: Snapshot, s: Snapshot, gray: set<Node>, node: Node, y: Node) returns (x: Node)
    requires Explored(graph, s0, s, gray, node) && y in s0.stack
    ensures y in s.index && x in gray && x in s0.stack && x in s.index && s.index[x] <= s.index[y]
    ensures Reach(Edge(graph), y, x)
  {
    assert y in s.stack && HasGrayBelow(graph, s.stack, s.index, gray + {node}, y);
    x :| x in gray + {node} && x in s.stack && s.index[x] <= s.index[y] && Reach(Edge(graph), y, x);
    NumbersBelow(s0, s, node, y);
    NumbersBelow(s0, s, node, x);
  }

  lemma NodeCrossing(graph: Graph, s0: Snapshot, s: Snapshot, node: Node)
    requires Numbered(s) && Exploring(graph, s0, s, node, |Successors(graph, node)|)
    ensures BoundsCrossing(graph, s.stack, s.index, s0.stack, {}, s.lowLinks[node])
  {
    forall z | z in Successors(graph, node) && z in s0.stack
      ensures z in s.index && s.lowLinks[node] <= s.index[z]
    {
      var i :| 0 <= i < |Successors(graph, node)| && Successors(graph, node)[i] == z;
    }
  }

  // A low link below its own number leads `node` back to an open call below it.
  lemma LowLinkGray(graph: Graph, s0: Snapshot, s: Snapshot, gray: set<Node>, node: Node) returns (x: Node)
    requires Explored(graph, s0, s, gray, node) && s.lowLinks[node] != s.index[node]
    ensures x in gray && x in s.stack && x in s.index && s.index[x] <= s.index[node] && Reach(Edge(graph), node, x)
  {
    var z :| z in s.stack && z in s.index && s.index[z] == s.lowLinks[node] && Reach(Edge(graph), node, z);
    NumbersBelow(s0, s, node, z);
    x := LowerGray(graph, s0, s, gray, node, z);
    ReachTransitive(Edge(graph), node, z, x);
  }

  lemma StaysBackToGray(graph: Graph, s0: Snapshot, s: Snapshot, gray: set<Node>, node: Node, y: Node)
    requires Explored(graph, s0, s, gray, node) && s.lowLinks[node] != s.index[node] && y in s.stack
    ensures y in s.index && HasGrayBelow(graph, s.stack, s.index, gray, y)
  {
    assert HasGrayBelow(graph, s.stack, s.index, gray + {node}, y);
    var x :| x in gray + {node} && x in s.stack && x in s.index && s.index[x] <= s.index[y] && Reach(Edge(graph), y, x);
    if x !in gray {
      var g := LowLinkGray(graph, s0, s, gray, node);
      ReachTransitive(Edge(graph), y, node, g);
    }
  }

  // The call for `node` returns without popping: its low link names a stack node below it.
  lemma StaysOnStack(graph: Graph, s0: Snapshot, s: Snapshot, gray: set<Node>, node: Node)
    requires Explored(graph, s0, s, gray, node) && s.lowLinks[node] != s.index[node]
    ensures Inv(graph, s, gray) && Returned(graph, s0, s, node)
  {
    NodeIsBlack(graph, s0, s, gray, node);
    forall y | y in s.stack
      ensures HasGrayBelow(graph, s.stack, s.index, gray, y)
    {
      StaysBackToGray(graph, s0, s, gray, node, y);
    }
    NodeCrossing(graph, s0, s, node);
    assert node in s.stack;
  }

  // What the pop loop collects: the stack from the top down to `node`.
  ghost predicate PoppedDownTo(s0: Snapshot, s: Snapshot, component: seq<Node>) {
    && |s0.stack| <= |s.stack|
    && |component| == |s.stack| - |s0.stack|
    && forall i :: 0 <= i < |component| ==> component[i] == s.stack[|s.stack| - 1 - i]
  }

  function Finish(s0: Snapshot, s: Snapshot, component: seq<Node>): Snapshot {
    s.(stack := s0.stack, result := s.result + [component])
  }

  lemma ComponentMembers(s0: Snapshot, s: Snapshot, node: Node, component: seq<Node>)
    requires Numbered(s) && s0.stack <= s.stack && |s0.stack| < |s.stack| && s.stack[|s0.stack|] == node
    requires PoppedDownTo(s0, s, component)
    ensures forall v :: v in component <==> v in s.stack && v !in s0.stack
    ensures node in component && NoDuplicates(component)
  {
    var n := |s.stack|;
    forall i | 0 <= i < |component|
      ensures component[i] in s.stack && component[i] !in s0.stack
    {
      var v := s.stack[n - 1 - i];
      NumbersBelow(s0, s, node, v);
      assert n - 1 - i > |s0.stack| ==> s.index[s.stack[|s0.stack|]] < s.index[s.stack[n - 1 - i]];
    }
    forall v | v in s.stack && v !in s0.stack
      ensures v in component
    {
      var i := PositionAbove(s0, s, v);
      assert component[n - 1 - i] == v;
    }
    assert component[|component| - 1] == node;
    forall i, j | 0 <= i < j < |component|
      ensures component[i] != component[j]
    {
      assert s.index[s.stack[n - 1 - j]] < s.index[s.stack[n - 1 - i]];
    }
  }

  // When the link of `node` is its own number, no edge leaves the popped nodes except into finished tuples.
  lemma ComponentClosed(graph: Graph, s0: Snapshot, s: Snapshot, gray: set<Node>, node: Node, v: Node, w: Node)
    requires Explored(graph, s0, s, gray, node) && s.lowLinks[node] == s.index[node]
    requires v in s.stack && v !in s0.stack && w in Successors(graph, v)
    ensures (w in s.stack && w !in s0.stack) || InComponent(s.result, w)
  {
    NodeIsBlack(graph, s0, s, gray, node);
    NodeCrossing(graph, s0, s, node);
    assert v in s.index && v !in gray;
    assert w in s.index;
    if w in s0.stack {
      NumbersBelow(s0, s, node, w);
      assert false;
    }
  }

  lemma InsideComponent(graph: Graph, s0: Snapshot, s: Snapshot, gray: set<Node>, node: Node, u: Node, v: Node)
    requires Explored(graph, s0, s, gray, node) && s.lowLinks[node] == s.index[node]
    requires u in s.stack && u !in s0.stack && Reach(Edge(graph), u, v)
    ensures (v in s.stack && v !in s0.stack) || InComponent(s.result, v)
  {
    var inside := (x: Node) => (x in s.stack && x !in s0.stack) || InComponent(s.result, x);
    forall x, y | inside(x) && Edge(graph)(x, y)
      ensures inside(y)
    {
      if x in s.stack && x !in s0.stack {
        ComponentClosed(graph, s0, s, gray, node, x, y);
      }
    }
    ReachStaysInside(Edge(graph), inside, u, v);
  }

  lemma FinishedStaysFinished(graph: Graph, result: seq<seq<Node>>, u: Node, v: Node)
    requires Closed(graph, result) && InComponent(result, u) && Reach(Edge(graph), u, v)
    ensures InComponent(result, v)
  {
    ReachStaysInside(Edge(graph), (x: Node) => InComponent(result, x), u, v);
  }

  lemma NodeAndMember(graph: Graph, s0: Snapshot, s: Snapshot, gray: set<Node>, node: Node, v: Node)
    requires Explored(graph, s0, s, gray, node) && s.lowLinks[node] == s.index[node]
    requires v in s.stack && v !in s0.stack
    ensures Mutual(Edge(graph), node, v)
  {
    var i := PositionAbove(s0, s, v);
    assert Reach(Edge(graph), s.stack[|s0.stack|], s.stack[i]);
    MemberReachesNode(graph, s0, s, gray, node, v);
  }

  lemma MemberReachesNode(graph: Graph, s0: Snapshot, s: Snapshot, gray: set<Node>, node: Node, v: Node)
    requires Explored(graph, s0, s, gray, node) && s.lowLinks[node] == s.index[node]
    requires v in s.stack && v !in s0.stack
    ensures Reach(Edge(graph), v, node)
  {
    assert HasGrayBelow(graph, s.stack, s.index, gray + {node}, v);
    var x :| x in gray + {node} && x in s.stack && x in s.index && s.index[x] <= s.index[v] && Reach(Edge(graph), v, x);
    InsideComponent(graph, s0, s, gray, node, v, x);
    OpenCallInside(graph, s0, s, gray, node, x);
  }

  lemma OpenCallInside(graph: Graph, s0: Snapshot, s: Snapshot, gray: set<Node>, node: Node, x: Node)
    requires Explored(graph, s0, s, gray, node) && x in gray + {node} && x in s.stack
    requires (x in s.stack && x !in s0.stack) || InComponent(s.result, x)
    ensures x == node
  {
    assert x in gray ==> x in s0.stack;
  }

  lemma ComponentIsStronglyConnected(graph: Graph, s0: Snapshot, s: Snapshot, gray: set<Node>, node: Node,
                                     u: Node, v: Node)
    requires Explored(graph, s0, s, gray, node) && s.lowLinks[node] == s.index[node]
    requires u in s.stack && u !in s0.stack
    ensures (v in s.stack && v !in s0.stack) <==> Mutual(Edge(graph), u, v)
  {
    var e := Edge(graph);
    NodeAndMember(graph, s0, s, gray, node, u);
    if v in s.stack && v !in s0.stack {
      NodeAndMember(graph, s0, s, gray, node, v);
      ReachTransitive(e, u, node, v);
      ReachTransitive(e, v, node, u);
    }
    if Mutual(e, u, v) {
      InsideComponent(graph, s0, s, gray, node, u, v);
      if InComponent(s.result, v) {
        FinishedStaysFinished(graph, s.result, v, u);
      }
    }
  }

  lemma InLonger(result: seq<seq<Node>>, component: seq<Node>, v: Node)
    ensures InComponent(result + [component], v) <==> InComponent(result, v) || v in component
  {
    var longer := result + [component];
    if v in component {
      assert v in longer[|result|];
    }
    if InComponent(result, v) {
      var i :| 0 <= i < |result| && v in result[i];
      assert v in longer[i];
    }
  }

  lemma FinishDisjoint(s: Snapshot, node: Node, component: seq<Node>)
    requires Disjoint(s.result) && forall v :: v in component ==> !InComponent(s.result, v)
    requires node in component && NoDuplicates(component)
    ensures Disjoint(s.result + [component])
  {
    var r := s.result + [component];
    forall i, v | 0 <= i < |s.result| && v in r[i]
      ensures v !in component
    {
      assert v in s.result[i] && InComponent(s.result, v);
    }
  }

  lemma FinishStronglyConnected(graph: Graph, s0: Snapshot, s: Snapshot, gray: set<Node>, node: Node,
                                component: seq<Node>)
    requires Explored(graph, s0, s, gray, node) && s.lowLinks[node] == s.index[node]
    requires forall v :: v in component <==> v in s.stack && v !in s0.stack
    ensures StronglyConnected(graph, s.result + [component])
  {
    var r := s.result + [component];
    forall i, u, v | 0 <= i < |r| && u in r[i]
      ensures v in r[i] <==> Mutual(Edge(graph), u, v)
    {
      if i == |s.result| {
        ComponentIsStronglyConnected(graph, s0, s, gray, node, u, v);
      } else {
        assert u in s.result[i];
      }
    }
  }

  lemma FinishTopological(graph: Graph, result: seq<seq<Node>>, component: seq<Node>)
    requires ReverseTopological(graph, result) && Closed(graph, result)
    requires forall v :: v in component ==> !InComponent(result, v)
    ensures ReverseTopological(graph, result + [component])
  {
    var r := result + [component];
    forall i, j, u, v | 0 <= i < j < |r| && u in r[i] && v in r[j]
      ensures !Lists(graph, u, v)
    {
      assert v in Successors(graph, u) <==> Lists(graph, u, v);
      assert u in result[i] && InComponent(result, u);
      if j < |result| {
        assert v in result[j];
      }
    }
  }

  lemma FinishClosed(graph: Graph, s0: Snapshot, s: Snapshot, gray: set<Node>, node: Node, component: seq<Node>)
    requires Explored(graph, s0, s, gray, node) && s.lowLinks[node] == s.index[node]
    requires forall v :: v in component <==> v in s.stack && v !in s0.stack
    ensures Closed(graph, s.result + [component])
  {
    forall v, w | InComponent(s.result + [component], v) && w in Successors(graph, v)
      ensures InComponent(s.result + [component], w)
    {
      InLonger(s.result, component, v);
      InLonger(s.result, component, w);
      if v in component {
        ComponentClosed(graph, s0, s, gray, node, v, w);
      }
    }
  }

  lemma FinishTuples(graph: Graph, s0: Snapshot, s: Snapshot, gray: set<Node>, node: Node, component: seq<Node>)
    requires Explored(graph, s0, s, gray, node) && s.lowLinks[node] == s.index[node]
    requires PoppedDownTo(s0, s, component)
    ensures var r := s.result + [component];
            Disjoint(r) && StronglyConnected(graph, r) && ReverseTopological(graph, r) && Closed(graph, r)
  {
    ComponentMembers(s0, s, node, component);
    FinishDisjoint(s, node, component);
    FinishStronglyConnected(graph, s0, s, gray, node, component);
    FinishTopological(graph, s.result, component);
    FinishClosed(graph, s0, s, gray, node, component);
  }

  // Popping keeps the numbering of what stays, and moves the popped nodes into a tuple.
  lemma FinishSplits(graph: Graph, s0: Snapshot, s: Snapshot, gray: set<Node>, node: Node, component: seq<Node>)
    requires Explored(graph, s0, s, gray, node) && PoppedDownTo(s0, s, component)
    ensures var t := Finish(s0, s, component); Numbered(t) && Split(graph, t.stack, t.index, t.result)
  {
    var t := Finish(s0, s, component);
    ComponentMembers(s0, s, node, component);
    assert s0.stack <= s.stack;
    forall v
      ensures InComponent(t.result, v) <==> InComponent(s.result, v) || v in component
    {
      InLonger(s.result, component, v);
    }
    PrefixNumbered(s, t);
  }

  lemma PrefixNumbered(s: Snapshot, t: Snapshot)
    requires Numbered(s) && t.stack <= s.stack
    requires t.index == s.index && t.lowLinks == s.lowLinks && t.counter == s.counter
    ensures Numbered(t)
  {
    assert forall i :: 0 <= i < |t.stack| ==> t.stack[i] == s.stack[i];
  }

  lemma FinishStack(graph: Graph, s0: Snapshot, s: Snapshot, gray: set<Node>, node: Node, component: seq<Node>)
    requires Explored(graph, s0, s, gray, node) && PoppedDownTo(s0, s, component)
    ensures var t := Finish(s0, s, component);
            && Numbered(t) && Split(graph, t.stack, t.index, t.result)
            && StackOrdered(graph, t.stack) && BackToGray(graph, t.stack, t.index, gray)
  {
    var t := Finish(s0, s, component);
    FinishSplits(graph, s0, s, gray, node, component);
    assert s0.stack <= s.stack;
    forall y | y in t.stack
      ensures HasGrayBelow(graph, t.stack, t.index, gray, y)
    {
      var x := LowerGray(graph, s0, s, gray, node, y);
    }
    PrefixOrdered(graph, t.stack, s.stack);
  }

  lemma PrefixOrdered(graph: Graph, part: seq<Node>, stack: seq<Node>)
    requires StackOrdered(graph, stack) && part <= stack
    ensures StackOrdered(graph, part)
  {
    forall i, j | 0 <= i <= j < |part|
      ensures Reach(Edge(graph), part[i], part[j])
    {
      assert Reach(Edge(graph), stack[i], stack[j]);
    }
  }

  // The call for a root `node` returns after popping its component.
  lemma PopsComponent(graph: Graph, s0: Snapshot, s: Snapshot, gray: set<Node>, node: Node, component: seq<Node>)
    requires Explored(graph, s0, s, gray, node) && s.lowLinks[node] == s.index[node]
    requires PoppedDownTo(s0, s, component)
    ensures Inv(graph, Finish(s0, s, component), gray)
    ensures Returned(graph, s0, Finish(s0, s, component), node)
  {
    var t := Finish(s0, s, component);
    FinishTuples(graph, s0, s, gray, node, component);
    FinishStack(graph, s0, s, gray, node, component);
    assert BlackExplored(graph, t.index, gray) by {
      NodeIsBlack(graph, s0, s, gray, node);
    }
    ComponentMembers(s0, s, node, component);
    assert Grown(s0, t) by {}
  }

  // ----- The program -----

  class SccFinder {
    const graph: Graph
    var indexCounter: nat
    var stack: seq<Node>
    var lowLinks: map<Node, int>
    var index: map<Node, int>
    var result: seq<seq<Node>>

    constructor (graph: Graph)
      ensures this.graph == graph && Now() == Snapshot([], map[], map[], 0, [])
    {
      this.graph := graph;
      indexCounter, stack, lowLinks, index, result := 0, [], map[], map[], [];
    }

    ghost function Now(): Snapshot
      reads this
    {
      Snapshot(stack, index, lowLinks, indexCounter, result)
    }

    // The loop that pops one component; inlined in the source.
    method PopDownTo(node: Node, ghost s0: Snapshot) returns (connectedComponent: seq<Node>)
      requires s0.stack <= stack && |s0.stack| < |stack| && stack[|s0.stack|] == node
      requires NoDuplicates(stack)
      modifies `stack
      ensures stack == s0.stack && PoppedDownTo(s0, old(Now()), connectedComponent)
    {
      ghost var before := stack;
      connectedComponent := [];
      while true
        invariant |s0.stack| < |stack| <= |before| && stack == before[..|stack|]
        invariant |connectedComponent| == |before| - |stack|
        invariant forall i :: 0 <= i < |connectedComponent| ==> connectedComponent[i] == before[|before| - 1 - i]
        decreases |stack|
      {
        var successor := stack[|stack| - 1];
        stack := stack[..|stack| - 1];
        connectedComponent := connectedComponent + [successor];
        if successor == node {
          break;
        }
      }
    }

    // The body of the loop over the successors of `node`; inlined in the source.
    method VisitSuccessor(node: Node, k: nat, successor: Node, ghost s0: Snapshot, ghost gray: set<Node>)
      requires Numbered(s0) && Inv(graph, Now(), gray + {node}) && Exploring(graph, s0, Now(), node, k)
      requires forall x :: x in gray ==> Reach(Edge(graph), x, node)
      requires k < |Successors(graph, node)| && successor == Successors(graph, node)[k]
      modifies this
      ensures Inv(graph, Now(), gray + {node}) && Exploring(graph, s0, Now(), node, k + 1)
      ensures old(index.Keys) <= index.Keys
      decreases Universe(graph) - index.Keys, 2
    {
      ghost var s1 := Now();
      if successor !in lowLinks {
        VisitNew(node, k, successor, s0, gray);
      } else if successor in stack {
        lowLinks := lowLinks[node := if index[successor] < lowLinks[node] then index[successor] else lowLinks[node]];
        AfterSeenOnStack(graph, s0, s1, Now(), gray, node, k, successor);
      } else {
        SeenPopped(graph, s0, Now(), node, k, successor);
      }
    }

    // The smaller of the two low links; inlined in the source.
    method TakeOverLink(node: Node, successor: Node)
      requires node in lowLinks && successor in lowLinks
      modifies `lowLinks
      ensures Now() == Lower(old(Now()), node, old(lowLinks[successor]))
    {
      lowLinks := lowLinks[node := if lowLinks[successor] < lowLinks[node] then lowLinks[successor] else lowLinks[node]];
    }

    method VisitNew(node: Node, k: nat, successor: Node, ghost s0: Snapshot, ghost gray: set<Node>)
      requires Numbered(s0) && Inv(graph, Now(), gray + {node}) && Exploring(graph, s0, Now(), node, k)
      requires forall x :: x in gray ==> Reach(Edge(graph), x, node)
      requires k < |Successors(graph, node)| && successor == Successors(graph, node)[k] && successor !in lowLinks
      modifies this
      ensures Inv(graph, Now(), gray + {node}) && Exploring(graph, s0, Now(), node, k + 1)
      ensures old(index.Keys) <= index.Keys
      decreases Universe(graph) - index.Keys, 1
    {
      ghost var s1 := Now();
      CallAllowed(graph, s1, gray, node, successor);
      StrongConnect(successor, gray + {node});
      ghost var s2 := Now();
      TakeOverLink(node, successor);
      AfterNewSuccessor(graph, s0, s1, s2, Now(), gray, node, k, successor);
    }

    // The start of a call; inlined in the source.
    method Enter(node: Node)
      modifies `index, `lowLinks, `indexCounter, `stack
      ensures Now() == Push(old(Now()), node)
    {
      index := index[node := indexCounter];
      lowLinks := lowLinks[node := indexCounter];
      indexCounter := indexCounter + 1;
      stack := stack + [node];
    }

    // The end of a call; inlined in the source.
    method Leave(node: Node, ghost s0: Snapshot, ghost gray: set<Node>)
      requires Explored(graph, s0, Now(), gray, node)
      modifies `stack, `result
      ensures Inv(graph, Now(), gray) && Returned(graph, s0, Now(), node)
    {
      ghost var s := Now();
      if lowLinks[node] == index[node] {
        StackHasNoDuplicates(s);
        var connectedComponent := PopDownTo(node, s0);
        result := result + [connectedComponent];
        PopsComponent(graph, s0, s, gray, node, connectedComponent);
      } else {
        StaysOnStack(graph, s0, s, gray, node);
      }
    }

    method StrongConnect(node: Node, ghost gray: set<Node>)
      requires Inv(graph, Now(), gray)
      requires node !in index && node in Universe(graph) && FromSomeKey(graph, node)
      requires forall x :: x in gray ==> Reach(Edge(graph), x, node)
      modifies this
      ensures Inv(graph, Now(), gray) && Returned(graph, old(Now()), Now(), node)
      decreases Universe(graph) - index.Keys, 0
    {
      ghost var s0 := Now();
      Enter(node);
      PushStarts(graph, s0, gray, node);
      var successors := Successors(graph, node);
      for k := 0 to |successors|
        invariant Inv(graph, Now(), gray + {node})
        invariant Exploring(graph, s0, Now(), node, k)
        invariant old(index.Keys) < index.Keys
      {
        VisitSuccessor(node, k, successors[k], s0, gray);
      }
      Leave(node, s0, gray);
    }
  }

  lemma StackHasNoDuplicates(s: Snapshot)
    requires Numbered(s)
    ensures NoDuplicates(s.stack)
  {
    forall i, j | 0 <= i < j < |s.stack|
      ensures s.stack[i] != s.stack[j]
    {
      assert s.index[s.stack[i]] < s.index[s.stack[j]];
    }
  }

  method Compute(graph: Graph) returns (result: seq<seq<Node>>)
    ensures Disjoint(result)
    ensures forall v :: InComponent(result, v) <==> FromSomeKey(graph, v)
    ensures StronglyConnected(graph, result)
    ensures ReverseTopological(graph, result)
  {
    var finder := new SccFinder(graph);
    var nodes := graph.Keys;
    while nodes != {}
      invariant Inv(graph, finder.Now(), {}) && finder.graph == graph
      invariant nodes <= graph.Keys && forall k :: k in graph && k !in nodes ==> k in finder.index
    {
      var node :| node in nodes;
      nodes := nodes - {node};
      if node !in finder.lowLinks {
        ReachSelf(Edge(graph), node);
        finder.StrongConnect(node, {});
      }
    }
    result := finder.result;
    AllFinished(graph, finder.Now());
  }

  // With no open call the stack is empty, and everything reachable from the keys has been visited.
  lemma AllFinished(graph: Graph, s: Snapshot)
    requires Inv(graph, s, {}) && forall k :: k in graph ==> k in s.index
    ensures forall v :: InComponent(s.result, v) <==> FromSomeKey(graph, v)
  {
    forall v
      ensures v !in s.stack
    {
      assert v in s.stack ==> HasGrayBelow(graph, s.stack, s.index, {}, v);
    }
    forall v | FromSomeKey(graph, v)
      ensures InComponent(s.result, v)
    {
      var k :| k in graph && Reach(Edge(graph), k, v);
      FinishedStaysFinished(graph, s.result, k, v);
    }
  }
}
