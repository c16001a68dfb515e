/**
 The order in which the executor runs a graph: breadth first from the first trigger node,
 over arbitrary edges - cycles, self-loops, parallel edges and edges to missing ids included.
 */
module GraphOrder {
  import opened Wrappers
  import opened WorkflowGraph

  /** The id the search starts from; empty when there is no trigger node. */
  function Start(nodes: seq<Node>): string {
    if nodes == [] then ""
    else if nodes[0].nodeType.Trigger? then nodes[0].id
    else Start(nodes[1..])
  }

  /** The nodes among a list of ids. */
  function Known(byId: map<string, Node>, ids: seq<string>): seq<Node> {
    if ids == [] then []
    else Known(byId, ids[..|ids| - 1]) + if ids[|ids| - 1] in byId then [byId[ids[|ids| - 1]]] else []
  }

  function IsKnown(byId: map<string, Node>): string -> bool {
    (id: string) => id in byId
  }

  function NodeOf(byId: map<string, Node>, none: Node): string -> Node {
    (id: string) => if id in byId then byId[id] else none
  }

  /** One node for each known id, in the order of the ids; `none` stands for nothing. */
  lemma {:induction false} KnownFollowsTheIds(byId: map<string, Node>, ids: seq<string>, none: Node)
    ensures Chosen(ids, IsKnown(byId), NodeOf(byId, none), Known(byId, ids))
  {
    if ids == [] {
      ChosenNone(IsKnown(byId), NodeOf(byId, none));
    } else {
      var n := |ids| - 1;
      KnownFollowsTheIds(byId, ids[..n], none);
      ChosenStep(ids, IsKnown(byId), NodeOf(byId, none), Known(byId, ids[..n]),
                 if ids[n] in byId then [byId[ids[n]]] else []);
    }
  }

  predicate IsFirstTrigger(nodes: seq<Node>, i: int) {
    0 <= i < |nodes| && nodes[i].nodeType.Trigger? && forall j :: 0 <= j < i ==> !nodes[j].nodeType.Trigger?
  }

  /** The search starts from the first trigger node. */
  lemma {:induction false} StartIsFirstTrigger(nodes: seq<Node>, i: nat)
    requires IsFirstTrigger(nodes, i)
    ensures Start(nodes) == nodes[i].id
  {
    if i > 0 {
      StartIsFirstTrigger(nodes[1..], i - 1);
    }
  }

  /**
   The search with its bookkeeping: visited ids in order and their depths, queued ids and the
   depths at which they were queued. Only `ids` (as a set) and `queue` exist in the program.
   */
  datatype Search = Search(ids: seq<string>, depth: map<string, nat>, queue: seq<string>, queued: seq<nat>)

  /** `x` is a target of some visited id. */
  predicate Offered(edges: seq<Edge>, ids: seq<string>, x: string) {
    exists p :: p in ids && HasEdge(edges, p, x)
  }

  /** The id at position `i` is a target of an id before it. */
  predicate Entered(edges: seq<Edge>, ids: seq<string>, i: nat)
    requires i < |ids|
  {
    Offered(edges, ids[..i], ids[i])
  }

  /** Visited ids are distinct, shallow ones first. */
  predicate VisitedInv(s: Search) {
    && (forall x :: x in s.ids ==> x in s.depth)
    && (forall x :: x in s.depth ==> x in s.ids)
    && (forall i, j :: 0 <= i < j < |s.ids| ==> s.ids[i] != s.ids[j] && s.depth[s.ids[i]] <= s.depth[s.ids[j]])
  }

  /** The queue spans at most two depths, none of them above a visited one. */
  predicate QueueInv(s: Search) {
    && |s.queued| == |s.queue|
    && (forall j, k :: 0 <= j < k < |s.queue| ==> s.queued[j] <= s.queued[k] <= s.queued[j] + 1)
    && (forall k, x :: 0 <= k < |s.queue| && x in s.depth ==> s.depth[x] <= s.queued[k])
  }

  /** Every depth is the length of some walk from the start. */
  ghost predicate WalkInv(edges: seq<Edge>, start: string, s: Search) {
    && (forall x :: x in s.depth ==> ReachIn(edges, start, x, s.depth[x]))
    && (forall k :: 0 <= k < |s.queue| && k < |s.queued| ==> ReachIn(edges, start, s.queue[k], s.queued[k]))
  }

  /** Every id but the start was visited, or queued, as a target of an id visited before it. */
  predicate ParentInv(edges: seq<Edge>, start: string, s: Search) {
    && (s.ids == [] ==> s.queue == [start])
    && (s.ids != [] ==> s.ids[0] == start)
    && (forall i: nat :: 0 < i < |s.ids| ==> Entered(edges, s.ids, i))
    && (s.ids != [] ==> forall k :: 0 <= k < |s.queue| ==> Offered(edges, s.ids, s.queue[k]))
  }

  predicate Queued(s: Search, y: string, d: nat) {
    exists k :: 0 <= k < |s.queue| && k < |s.queued| && s.queue[k] == y && s.queued[k] <= d
  }

  /** `y` is visited or queued, no deeper than `d`. */
  predicate Found(s: Search, y: string, d: nat) {
    (y in s.depth && s.depth[y] <= d) || Queued(s, y, d)
  }

  ghost predicate FrontierInv(edges: seq<Edge>, start: string, s: Search) {
    && Found(s, start, 0)
    && forall x, y :: x in s.depth && HasEdge(edges, x, y) ==> Found(s, y, s.depth[x] + 1)
  }

  ghost predicate Inv(edges: seq<Edge>, start: string, s: Search) {
    && VisitedInv(s) && QueueInv(s) && WalkInv(edges, start, s)
    && ParentInv(edges, start, s) && FrontierInv(edges, start, s)
  }

  // ---- the two kinds of step -------------------------------------------------------------------

  /** Taking an already visited id off the queue. */
  function Skip(s: Search): Search
    requires s.queue != [] && s.queued != []
  {
    s.(queue := s.queue[1..], queued := s.queued[1..])
  }

  /** Visiting the first id of the queue. */
  function Visit(edges: seq<Edge>, s: Search): Search
    requires s.queue != [] && s.queued != []
  {
    var id, d, next := s.queue[0], s.queued[0], Outgoing(edges, s.queue[0]);
    Search(s.ids + [id], s.depth[id := d], s.queue[1..] + next, s.queued[1..] + seq(|next|, _ => d + 1))
  }

  lemma SkipKeepsQueue(s: Search)
    requires QueueInv(s) && s.queue != []
    ensures QueueInv(Skip(s))
  {
    var s' := Skip(s);
    assert forall k :: 0 <= k < |s'.queue| ==> s'.queued[k] == s.queued[k + 1];
  }

  lemma SkipKeepsWalks(edges: seq<Edge>, start: string, s: Search)
    requires WalkInv(edges, start, s) && QueueInv(s) && s.queue != []
    ensures WalkInv(edges, start, Skip(s))
  {
  }

  lemma SkipKeepsParents(edges: seq<Edge>, start: string, s: Search)
    requires ParentInv(edges, start, s) && QueueInv(s) && s.queue != [] && s.ids != []
    ensures ParentInv(edges, start, Skip(s))
  {
  }

  lemma SkipKeepsInv(edges: seq<Edge>, start: string, s: Search)
    requires Inv(edges, start, s) && s.queue != [] && s.queue[0] in s.ids
    ensures Inv(edges, start, Skip(s))
  {
    SkipKeepsQueue(s);
    SkipKeepsWalks(edges, start, s);
    SkipKeepsParents(edges, start, s);
    SkipKeepsFound(s, start, 0);
    forall x, y | x in s.depth && HasEdge(edges, x, y) ensures Found(Skip(s), y, s.depth[x] + 1) {
      SkipKeepsFound(s, y, s.depth[x] + 1);
    }
  }

  lemma SkipKeepsFound(s: Search, y: string, d: nat)
    requires s.queue != [] && |s.queued| == |s.queue| && Found(s, y, d)
    requires s.queue[0] in s.depth && s.depth[s.queue[0]] <= s.queued[0]
    ensures Found(Skip(s), y, d)
  {
    if !(y in s.depth && s.depth[y] <= d) {
      var k :| 0 <= k < |s.queue| && s.queue[k] == y && s.queued[k] <= d;
      assert k > 0 && Skip(s).queue[k - 1] == y && Skip(s).queued[k - 1] <= d;
    }
  }

  lemma VisitKeepsVisited(edges: seq<Edge>, s: Search)
    requires VisitedInv(s) && QueueInv(s) && s.queue != [] && s.queue[0] !in s.ids
    ensures VisitedInv(Visit(edges, s))
  {
  }

  /** What lies behind the visited id in the queue afterwards. */
  lemma QueueAfterVisit(edges: seq<Edge>, s: Search, k: nat)
    requires s.queue != [] && |s.queued| == |s.queue| && k < |Visit(edges, s).queue|
    ensures var s' := Visit(edges, s);
      && |s'.queued| == |s'.queue|
      && if k + 1 < |s.queue| then s'.queue[k] == s.queue[k + 1] && s'.queued[k] == s.queued[k + 1]
         else s'.queue[k] in Outgoing(edges, s.queue[0]) && s'.queued[k] == s.queued[0] + 1
  {
  }

  lemma VisitKeepsQueue(edges: seq<Edge>, s: Search)
    requires VisitedInv(s) && QueueInv(s) && s.queue != []
    ensures QueueInv(Visit(edges, s))
  {
    var s', d := Visit(edges, s), s.queued[0];
    forall k: nat | k < |s'.queue|
      ensures d <= s'.queued[k] <= d + 1 && forall j :: k < j < |s'.queue| ==> s'.queued[k] <= s'.queued[j]
    {
      QueueAfterVisit(edges, s, k);
      forall j | k < j < |s'.queue| ensures s'.queued[k] <= s'.queued[j] {
        QueueAfterVisit(edges, s, j);
      }
    }
  }

  lemma VisitKeepsWalks(edges: seq<Edge>, start: string, s: Search)
    requires WalkInv(edges, start, s) && QueueInv(s) && s.queue != []
    ensures WalkInv(edges, start, Visit(edges, s))
  {
    var s', id, d := Visit(edges, s), s.queue[0], s.queued[0];
    OutgoingAreEdges(edges, id);
    forall k: nat | k < |s'.queue| ensures ReachIn(edges, start, s'.queue[k], s'.queued[k]) {
      QueueAfterVisit(edges, s, k);
      if k + 1 >= |s.queue| {
        assert ReachIn(edges, start, id, d) && HasEdge(edges, id, s'.queue[k]);
      }
    }
  }

  lemma VisitKeepsParents(edges: seq<Edge>, start: string, s: Search)
    requires ParentInv(edges, start, s) && QueueInv(s) && s.queue != []
    ensures ParentInv(edges, start, Visit(edges, s))
  {
    var s', id := Visit(edges, s), s.queue[0];
    OutgoingAreEdges(edges, id);
    forall i: nat | 0 < i < |s'.ids| ensures Entered(edges, s'.ids, i) {
      assert s'.ids[..i] == s.ids[..i];
      if i < |s.ids| {
        assert Entered(edges, s.ids, i);
      }
    }
    forall k | 0 <= k < |s'.queue| ensures Offered(edges, s'.ids, s'.queue[k]) {
      QueueAfterVisit(edges, s, k);
      if k + 1 < |s.queue| {
        var p :| p in s.ids && HasEdge(edges, p, s.queue[k + 1]);
        assert p in s'.ids;
      } else {
        assert id in s'.ids;
      }
    }
  }

  lemma VisitKeepsFound(edges: seq<Edge>, s: Search, y: string, d: nat)
    requires s.queue != [] && |s.queued| == |s.queue| && s.queue[0] !in s.depth && Found(s, y, d)
    ensures Found(Visit(edges, s), y, d)
  {
    var s' := Visit(edges, s);
    if !(y in s.depth && s.depth[y] <= d) {
      var k :| 0 <= k < |s.queue| && s.queue[k] == y && s.queued[k] <= d;
      if k > 0 {
        assert s'.queue[k - 1] == y && s'.queued[k - 1] <= d;
      }
    }
  }

  lemma VisitKeepsFrontier(edges: seq<Edge>, start: string, s: Search)
    requires VisitedInv(s) && QueueInv(s) && FrontierInv(edges, start, s) && s.queue != [] && s.queue[0] !in s.ids
    ensures FrontierInv(edges, start, Visit(edges, s))
  {
    var s', id, d := Visit(edges, s), s.queue[0], s.queued[0];
    VisitKeepsFound(edges, s, start, 0);
    OutgoingAreEdges(edges, id);
    forall x, y | x in s'.depth && HasEdge(edges, x, y) ensures Found(s', y, s'.depth[x] + 1) {
      if x == id {
        var k :| 0 <= k < |Outgoing(edges, id)| && Outgoing(edges, id)[k] == y;
        var at := |s.queue| - 1 + k;
        assert s'.queue[at] == y && s'.queued[at] == d + 1;
      } else {
        VisitKeepsFound(edges, s, y, s.depth[x] + 1);
      }
    }
  }

  lemma VisitKeepsInv(edges: seq<Edge>, start: string, s: Search)
    requires Inv(edges, start, s) && s.queue != [] && s.queue[0] !in s.ids
    ensures Inv(edges, start, Visit(edges, s))
  {
    VisitKeepsVisited(edges, s);
    VisitKeepsQueue(edges, s);
    VisitKeepsWalks(edges, start, s);
    VisitKeepsParents(edges, start, s);
    VisitKeepsFrontier(edges, start, s);
  }

  // ---- the search ------------------------------------------------------------------------------

  /** One turn of the loop. */
  function Turn(edges: seq<Edge>, s: Search): Search {
    if s.queue == [] || s.queued == [] then s
    else if s.queue[0] in s.depth then Skip(s)
    else Visit(edges, s)
  }

  /** `s` is the state after `n` turns. */
  ghost predicate After(edges: seq<Edge>, start: string, n: nat, s: Search)
    decreases n
  {
    if n == 0 then s == Search([], map[], [start], [0])
    else exists before :: After(edges, start, n - 1, before) && s == Turn(edges, before)
  }

  /** `s` is a state of the search from `start`. */
  ghost predicate Searching(edges: seq<Edge>, start: string, s: Search) {
    exists n: nat :: After(edges, start, n, s)
  }

  lemma TurnKeepsInv(edges: seq<Edge>, start: string, s: Search, next: Search)
    requires Inv(edges, start, s) && next == Turn(edges, s)
    ensures Inv(edges, start, next)
  {
    if s.queue != [] && s.queue[0] in s.depth {
      SkipKeepsInv(edges, start, s);
    } else if s.queue != [] {
      VisitKeepsInv(edges, start, s);
    }
  }

  lemma InitialInv(edges: seq<Edge>, start: string, s: Search)
    requires s == Search([], map[], [start], [0])
    ensures Inv(edges, start, s)
  {
    assert s.queue[0] == start;
  }

  lemma {:induction false} TurnsKeepInv(edges: seq<Edge>, start: string, n: nat, s: Search)
    requires After(edges, start, n, s)
    ensures Inv(edges, start, s)
    decreases n
  {
    if n == 0 {
      InitialInv(edges, start, s);
    } else {
      var before :| After(edges, start, n - 1, before) && s == Turn(edges, before);
      TurnsKeepInv(edges, start, n - 1, before);
      TurnKeepsInv(edges, start, before, s);
    }
  }

  lemma SearchingKeepsInv(edges: seq<Edge>, start: string, s: Search)
    requires Searching(edges, start, s)
    ensures Inv(edges, start, s)
  {
    var n: nat :| After(edges, start, n, s);
    TurnsKeepInv(edges, start, n, s);
  }

  lemma FirstTurn(edges: seq<Edge>, start: string) returns (s: Search)
    ensures Searching(edges, start, s) && s == Search([], map[], [start], [0])
  {
    s := Search([], map[], [start], [0]);
    assert After(edges, start, 0, s);
  }

  /** What one turn does to the parts of the state that the program has. */
  lemma NextTurn(edges: seq<Edge>, start: string, s: Search) returns (next: Search)
    requires Searching(edges, start, s) && s.queue != [] && |s.queued| == |s.queue|
    ensures Searching(edges, start, next) && |next.queued| == |next.queue|
    ensures var id := s.queue[0];
      if id in s.depth.Keys then next.ids == s.ids && next.depth.Keys == s.depth.Keys && next.queue == s.queue[1..]
      else && next.ids == s.ids + [id] && next.depth.Keys == s.depth.Keys + {id}
           && next.queue == s.queue[1..] + Outgoing(edges, id)
  {
    var n: nat :| After(edges, start, n, s);
    next := Turn(edges, s);
    assert After(edges, start, n + 1, next);
  }

  /** While a search runs, whatever a walk shorter than the first queued depth leads to is visited. */
  lemma {:induction false} ShortWalksAreVisited(edges: seq<Edge>, start: string, s: Search, x: string, n: nat)
    requires QueueInv(s) && FrontierInv(edges, start, s) && ReachIn(edges, start, x, n)
    requires s.queue == [] || n < s.queued[0]
    ensures x in s.depth && s.depth[x] <= n
    decreases n
  {
    if n == 0 {
      assert Found(s, start, 0);
    } else {
      var mid :| ReachIn(edges, start, mid, n - 1) && HasEdge(edges, mid, x);
      ShortWalksAreVisited(edges, start, s, mid, n - 1);
      assert Found(s, x, s.depth[mid] + 1);
    }
    if !(x in s.depth && s.depth[x] <= n) {
      assert Queued(s, x, n);
      FirstIsLeast(s, x, n);
    }
  }

  lemma FirstIsLeast(s: Search, x: string, d: nat)
    requires QueueInv(s) && Queued(s, x, d)
    ensures s.queue != [] && s.queued[0] <= d
  {
  }

  /** The finished search from `start`: an order of ids with their depths. */
  ghost predicate IsSearch(edges: seq<Edge>, start: string, ids: seq<string>, depth: map<string, nat>) {
    && ids != [] && ids[0] == start && start in depth && depth[start] == 0
    && (forall i :: 0 <= i < |ids| ==> ids[i] in depth)
    && (forall x :: x in depth ==> x in ids)
    && (forall i, j :: 0 <= i < j < |ids| ==> ids[i] != ids[j] && depth[ids[i]] <= depth[ids[j]])
    && (forall i: nat :: 0 < i < |ids| ==> Entered(edges, ids, i))
    && (forall x, y :: x in depth && HasEdge(edges, x, y) ==> y in depth && depth[y] <= depth[x] + 1)
    && (forall x :: x in depth ==> ReachIn(edges, start, x, depth[x]))
  }

  /** What orderedNodes returns for a graph: the known nodes of the search, siblings in edge order. */
  ghost predicate IsOrder(g: Graph, ordered: seq<Node>) {
    if Start(g.nodes) == "" then ordered == []
    else exists s :: Finished(g.edges, Start(g.nodes), s) && ordered == Known(ById(g.nodes), s.ids)
  }

  ghost predicate Finished(edges: seq<Edge>, start: string, s: Search) {
    Searching(edges, start, s) && s.queue == []
  }

  function Targets(edges: seq<Edge>): set<string> {
    set e | e in edges :: e.target
  }

  method FindStart(nodes: seq<Node>) returns (start: string)
    ensures start == Start(nodes)
    ensures forall i :: IsFirstTrigger(nodes, i) ==> start == nodes[i].id
    ensures (forall i :: 0 <= i < |nodes| ==> !nodes[i].nodeType.Trigger?) ==> start == ""
  {
    start := "";
    for i := 0 to |nodes|
      invariant start == "" && Start(nodes) == Start(nodes[i..])
      invariant forall j :: 0 <= j < i ==> !nodes[j].nodeType.Trigger?
    {
      assert nodes[i..][1..] == nodes[i + 1..];
      if nodes[i].nodeType.Trigger? {
        return nodes[i].id;
      }
    }
  }

  method OrderedNodes(g: Graph) returns (ordered: seq<Node>)
    ensures IsOrder(g, ordered)
  {
    var byId := IndexNodes(g.nodes);
    var outgoing := GroupEdges(g.edges, true);
    var start := FindStart(g.nodes);
    if start == "" {
      return [];
    }

    ordered := [];
    var visited: set<string> := {};
    var queue := [start];
    ghost var everything := {start} + Targets(g.edges);
    ghost var s := FirstTurn(g.edges, start);
    while |queue| > 0
      invariant Searching(g.edges, start, s)
      invariant queue == s.queue && |s.queued| == |s.queue| && visited == s.depth.Keys
      invariant ordered == Known(byId, s.ids)
      invariant visited <= everything && forall x :: x in queue ==> x in everything
      decreases everything - visited, |queue|
    {
      var id := queue[0];
      queue := queue[1..];
      ghost var ids := s.ids;
      s := NextTurn(g.edges, start, s);
      if id in visited {
        continue;
      }
      visited := visited + {id};
      KnownOfSnoc(byId, ids, id);
      if id in byId {
        ordered := ordered + [byId[id]];
      }
      assert Groups(outgoing, g.edges, true, id);
      queue := queue + if id in outgoing then outgoing[id] else [];
      OutgoingAreTargets(g.edges, id);
    }
    assert Finished(g.edges, start, s);
  }

  /** A search with nothing left to visit is finished. */
  lemma FinishedSearch(edges: seq<Edge>, start: string, s: Search)
    requires Finished(edges, start, s)
    ensures IsSearch(edges, start, s.ids, s.depth)
  {
    SearchingKeepsInv(edges, start, s);
    assert Found(s, start, 0);
    forall x, y | x in s.depth && HasEdge(edges, x, y) ensures y in s.depth && s.depth[y] <= s.depth[x] + 1 {
      assert Found(s, y, s.depth[x] + 1);
    }
  }

  /** The search behind an order. */
  lemma SearchOf(g: Graph, ordered: seq<Node>) returns (ids: seq<string>, depth: map<string, nat>)
    requires IsOrder(g, ordered) && Start(g.nodes) != ""
    ensures IsSearch(g.edges, Start(g.nodes), ids, depth) && ordered == Known(ById(g.nodes), ids)
  {
    var s :| Finished(g.edges, Start(g.nodes), s) && ordered == Known(ById(g.nodes), s.ids);
    FinishedSearch(g.edges, Start(g.nodes), s);
    ids, depth := s.ids, s.depth;
  }

  lemma KnownOfSnoc(byId: map<string, Node>, ids: seq<string>, id: string)
    ensures Known(byId, ids + [id]) == if id in byId then Known(byId, ids) + [byId[id]] else Known(byId, ids)
  {
    assert (ids + [id])[..|ids|] == ids;
  }

  lemma OutgoingAreTargets(edges: seq<Edge>, id: string)
    ensures forall x :: x in Outgoing(edges, id) ==> x in Targets(edges)
  {
    OutgoingAreEdges(edges, id);
    forall x | x in Outgoing(edges, id) ensures x in Targets(edges) {
      assert Edge(id, x) in edges;
    }
  }

  // ---- one order per graph ------------------------------------------------------------------

  lemma {:induction false} FinishedStays(edges: seq<Edge>, start: string, n: nat, s: Search, m: nat, later: Search)
    requires After(edges, start, n, s) && s.queue == [] && n <= m && After(edges, start, m, later)
    ensures later == s
    decreases m
  {
    if n == m {
      AfterIsDetermined(edges, start, n, s, later);
    } else {
      var before :| After(edges, start, m - 1, before) && later == Turn(edges, before);
      FinishedStays(edges, start, n, s, m - 1, before);
    }
  }

  lemma {:induction false} AfterIsDetermined(edges: seq<Edge>, start: string, n: nat, s: Search, t: Search)
    requires After(edges, start, n, s) && After(edges, start, n, t)
    ensures s == t
    decreases n
  {
    if n > 0 {
      var s' :| After(edges, start, n - 1, s') && s == Turn(edges, s');
      var t' :| After(edges, start, n - 1, t') && t == Turn(edges, t');
      AfterIsDetermined(edges, start, n - 1, s', t');
    }
  }

  /** The order is a function of the graph. */
  lemma OrderIsDetermined(g: Graph, one: seq<Node>, two: seq<Node>)
    requires IsOrder(g, one) && IsOrder(g, two)
    ensures one == two
  {
    var start := Start(g.nodes);
    if start != "" {
      var s :| Finished(g.edges, start, s) && one == Known(ById(g.nodes), s.ids);
      var t :| Finished(g.edges, start, t) && two == Known(ById(g.nodes), t.ids);
      var n: nat :| After(g.edges, start, n, s);
      var m: nat :| After(g.edges, start, m, t);
      if n <= m {
        FinishedStays(g.edges, start, n, s, m, t);
      } else {
        FinishedStays(g.edges, start, m, t, n, s);
      }
    }
  }

  /** Every search comes to its end. */
  lemma {:induction false} SearchEnds(edges: seq<Edge>, start: string, s: Search) returns (end: Search)
    requires Searching(edges, start, s) && |s.queued| == |s.queue|
    requires s.depth.Keys <= {start} + Targets(edges) && forall x :: x in s.queue ==> x in {start} + Targets(edges)
    ensures Finished(edges, start, end)
    decreases {start} + Targets(edges) - s.depth.Keys, |s.queue|
  {
    if s.queue == [] {
      end := s;
    } else {
      var next := NextTurn(edges, start, s);
      OutgoingAreTargets(edges, s.queue[0]);
      end := SearchEnds(edges, start, next);
    }
  }

  lemma SomeOrder(g: Graph) returns (ordered: seq<Node>)
    ensures IsOrder(g, ordered)
  {
    if Start(g.nodes) == "" {
      ordered := [];
    } else {
      var s := FirstTurn(g.edges, Start(g.nodes));
      var end := SearchEnds(g.edges, Start(g.nodes), s);
      ordered := Known(ById(g.nodes), end.ids);
    }
  }

  // ---- main results ------------------------------------------------------------------------

  /** A finished search has found every id a walk leads to, no deeper than the walk is long. */
  lemma {:induction false} WalksAreFound(edges: seq<Edge>, start: string, ids: seq<string>, depth: map<string, nat>,
                                         x: string, n: nat)
    requires IsSearch(edges, start, ids, depth) && ReachIn(edges, start, x, n)
    ensures x in depth && depth[x] <= n
    decreases n
  {
    if n > 0 {
      var mid :| ReachIn(edges, start, mid, n - 1) && HasEdge(edges, mid, x);
      WalksAreFound(edges, start, ids, depth, mid, n - 1);
    }
  }

  /** `at` lists, in order, the positions of the known ids; `known` are their nodes. */
  predicate ArePositions(byId: map<string, Node>, ids: seq<string>, at: seq<nat>, known: seq<Node>) {
    && |at| == |known|
    && (forall j, k :: 0 <= j < k < |at| ==> at[j] < at[k])
    && (forall k :: 0 <= k < |at| ==> at[k] < |ids| && ids[at[k]] in byId && known[k] == byId[ids[at[k]]])
    && (forall i :: 0 <= i < |ids| && ids[i] in byId ==> i in at)
  }

  lemma OneMorePosition(byId: map<string, Node>, ids: seq<string>, at: seq<nat>, known: seq<Node>, id: string)
    requires ArePositions(byId, ids, at, known)
    ensures id in byId ==> ArePositions(byId, ids + [id], at + [|ids|], known + [byId[id]])
    ensures id !in byId ==> ArePositions(byId, ids + [id], at, known)
  {
  }

  /** The known ids, in order, by their positions. */
  lemma {:induction false} KnownPositions(byId: map<string, Node>, ids: seq<string>) returns (at: seq<nat>)
    ensures ArePositions(byId, ids, at, Known(byId, ids))
  {
    if ids == [] {
      at := [];
    } else {
      var n := |ids| - 1;
      at := KnownPositions(byId, ids[..n]);
      OneMorePosition(byId, ids[..n], at, Known(byId, ids[..n]), ids[n]);
      assert ids == ids[..n] + [ids[n]];
      if ids[n] in byId {
        at := at + [n];
      }
    }
  }

  predicate Contains(nodes: seq<Node>, id: string) {
    exists k :: 0 <= k < |nodes| && nodes[k].id == id
  }

  lemma SearchIsReachability(edges: seq<Edge>, start: string, ids: seq<string>, depth: map<string, nat>, x: string)
    requires IsSearch(edges, start, ids, depth)
    ensures x in ids <==> Reachable(edges, start, x)
  {
    if Reachable(edges, start, x) {
      var n: nat :| ReachIn(edges, start, x, n);
      WalksAreFound(edges, start, ids, depth, x, n);
    }
    if x in ids {
      assert ReachIn(edges, start, x, depth[x]);
    }
  }

  lemma KnownHolds(byId: map<string, Node>, ids: seq<string>)
    requires forall id :: id in byId ==> byId[id].id == id
    requires forall i, j :: 0 <= i < j < |ids| ==> ids[i] != ids[j]
    ensures forall id :: Contains(Known(byId, ids), id) <==> id in ids && id in byId
    ensures forall j, k :: 0 <= j < k < |Known(byId, ids)| ==> Known(byId, ids)[j].id != Known(byId, ids)[k].id
    ensures forall n :: n in Known(byId, ids) ==> n.id in byId && n == byId[n.id]
  {
    var at := KnownPositions(byId, ids);
    forall id | id in ids && id in byId ensures Contains(Known(byId, ids), id) {
      var i :| 0 <= i < |ids| && ids[i] == id;
      var k :| 0 <= k < |at| && at[k] == i;
      assert Known(byId, ids)[k].id == id;
    }
  }

  /**
   For every graph with a trigger whose id is not empty: the order holds exactly the known
   nodes that can be reached from the first trigger, each once.
   */
  lemma OrderIsExactlyTheReachableNodes(g: Graph, ordered: seq<Node>)
    requires IsOrder(g, ordered) && Start(g.nodes) != ""
    ensures forall id :: Contains(ordered, id) <==> id in ById(g.nodes) && Reachable(g.edges, Start(g.nodes), id)
    ensures forall j, k :: 0 <= j < k < |ordered| ==> ordered[j].id != ordered[k].id
    ensures forall n :: n in ordered ==> n.id in ById(g.nodes) && n == ById(g.nodes)[n.id]
  {
    var start, byId := Start(g.nodes), ById(g.nodes);
    var ids, depth := SearchOf(g, ordered);
    KnownHolds(byId, ids);
    forall id ensures id in ids <==> Reachable(g.edges, start, id) {
      SearchIsReachability(g.edges, start, ids, depth, id);
    }
  }

  /** `d` is the length of a shortest walk. */
  ghost predicate IsDistance(edges: seq<Edge>, from: string, to: string, d: nat) {
    ReachIn(edges, from, to, d) && forall n: nat :: ReachIn(edges, from, to, n) ==> d <= n
  }

  lemma DepthIsDistance(edges: seq<Edge>, start: string, ids: seq<string>, depth: map<string, nat>, x: string)
    requires IsSearch(edges, start, ids, depth) && x in depth
    ensures IsDistance(edges, start, x, depth[x])
  {
    forall n: nat | ReachIn(edges, start, x, n) ensures depth[x] <= n {
      WalksAreFound(edges, start, ids, depth, x, n);
    }
  }

  /** Nodes come in order of their distance from the trigger. */
  lemma OrderHasDistances(g: Graph, ordered: seq<Node>) returns (dist: seq<nat>)
    requires IsOrder(g, ordered) && Start(g.nodes) != ""
    ensures |dist| == |ordered|
    ensures forall j :: 0 <= j < |dist| ==> IsDistance(g.edges, Start(g.nodes), ordered[j].id, dist[j])
    ensures forall j, k :: 0 <= j < k < |dist| ==> dist[j] <= dist[k]
  {
    var start, byId := Start(g.nodes), ById(g.nodes);
    var ids, depth := SearchOf(g, ordered);
    var at := KnownPositions(byId, ids);
    dist := DepthsAt(ids, depth, at);
    forall j | 0 <= j < |dist| ensures IsDistance(g.edges, start, ordered[j].id, dist[j]) {
      DepthIsDistance(g.edges, start, ids, depth, ids[at[j]]);
    }
    DepthsInOrder(ids, depth, at, dist);
  }

  ghost function DepthsAt(ids: seq<string>, depth: map<string, nat>, at: seq<nat>): (dist: seq<nat>)
    requires forall i :: 0 <= i < |ids| ==> ids[i] in depth
    requires forall j :: 0 <= j < |at| ==> at[j] < |ids|
    ensures |dist| == |at| && forall j :: 0 <= j < |at| ==> dist[j] == depth[ids[at[j]]]
  {
    seq(|at|, (j: nat) requires j < |at| => depth[ids[at[j]]])
  }

  lemma DepthsInOrder(ids: seq<string>, depth: map<string, nat>, at: seq<nat>, dist: seq<nat>)
    requires forall i :: 0 <= i < |ids| ==> ids[i] in depth
    requires forall i, j :: 0 <= i < j < |ids| ==> depth[ids[i]] <= depth[ids[j]]
    requires forall j :: 0 <= j < |at| ==> at[j] < |ids|
    requires forall j, k :: 0 <= j < k < |at| ==> at[j] < at[k]
    requires |dist| == |at| && forall j :: 0 <= j < |at| ==> dist[j] == depth[ids[at[j]]]
    ensures forall j, k :: 0 <= j < k < |dist| ==> dist[j] <= dist[k]
  {
    forall j, k | 0 <= j < k < |dist| ensures dist[j] <= dist[k] {
      assert at[j] < at[k];
    }
  }

  /** Whatever leads to a later node, no longer walk is needed for an earlier one. */
  lemma OrderIsByDistance(g: Graph, ordered: seq<Node>, j: nat, k: nat, n: nat)
    requires IsOrder(g, ordered) && Start(g.nodes) != "" && j <= k < |ordered|
    requires ReachIn(g.edges, Start(g.nodes), ordered[k].id, n)
    ensures exists m: nat :: m <= n && ReachIn(g.edges, Start(g.nodes), ordered[j].id, m)
  {
    var dist := OrderHasDistances(g, ordered);
    assert dist[j] <= dist[k] <= n;
  }

  predicate ComesBefore(nodes: seq<Node>, x: string, y: string) {
    forall j, k :: 0 <= j < |nodes| && 0 <= k < |nodes| && nodes[j].id == x && nodes[k].id == y ==> j < k
  }

  /** Being free of cycles is not enough: with t-a-b-c and t-c, every order runs c before b, although b leads to c. */
  lemma AcyclicIsNotEnough(t: Node, a: Node, b: Node, c: Node) returns (g: Graph)
    requires t.id == "t" && a.id == "a" && b.id == "b" && c.id == "c" && t.nodeType.Trigger?
    ensures g.nodes == [t, a, b, c] && HasEdge(g.edges, "b", "c")
    ensures forall ordered: seq<Node> ::
      IsOrder(g, ordered) ==> Contains(ordered, "b") && ComesBefore(ordered, "c", "b")
  {
    g := Graph([t, a, b, c], [Edge("t", "a"), Edge("a", "b"), Edge("b", "c"), Edge("t", "c")]);
    assert ReachIn(g.edges, "t", "t", 0) && HasEdge(g.edges, "t", "a") && HasEdge(g.edges, "t", "c");
    assert ReachIn(g.edges, "t", "c", 1) && ReachIn(g.edges, "t", "a", 1) && HasEdge(g.edges, "a", "b");
    assert ReachIn(g.edges, "t", "b", 2);
    forall ordered: seq<Node> | IsOrder(g, ordered) ensures Contains(ordered, "b") && ComesBefore(ordered, "c", "b") {
      OrderIsExactlyTheReachableNodes(g, ordered);
      assert b in g.nodes;
      forall j, k | 0 <= j < |ordered| && 0 <= k < |ordered| && ordered[j].id == "c" && ordered[k].id == "b"
        ensures j < k
      {
        if k <= j {
          OrderIsByDistance(g, ordered, k, j, 1);
          var m: nat :| m <= 1 && ReachIn(g.edges, "t", "b", m);
          NoShortWalk(g.edges, m);
        }
      }
    }
  }

  lemma NoShortWalk(edges: seq<Edge>, m: nat)
    requires m <= 1 && edges == [Edge("t", "a"), Edge("a", "b"), Edge("b", "c"), Edge("t", "c")]
    ensures !ReachIn(edges, "t", "b", m)
  {
    assert forall mid :: ReachIn(edges, "t", mid, 0) ==> mid == "t";
    assert "t"[0] != "b"[0] && "t"[0] != "a"[0];
  }
}
