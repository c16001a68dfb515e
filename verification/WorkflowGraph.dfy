/** The node and edge graph of a workflow, shared by the editor and the executor. */
module WorkflowGraph {
  import opened Wrappers
  import opened EventMatching

  datatype ActionType = Tag | Comment | Move | Copy | Rename | Notify | UnknownAction(name: string)

  datatype NodeType = Trigger | Llm | ExtractText | Action | UnknownType(name: string)

  /** Only the keys a node of its type looks at matter; the others are left empty. */
  datatype NodeData = NodeData(
    triggerType: Option<TriggerType>,
    prompt: string,
    outputVariable: string,
    actionType: ActionType,
    params: map<string, string>)

  datatype Node = Node(id: string, nodeType: NodeType, data: NodeData)

  datatype Edge = Edge(source: string, target: string)

  datatype Graph = Graph(nodes: seq<Node>, edges: seq<Edge>)

  predicate HasEdge(edges: seq<Edge>, source: string, target: string) {
    Edge(source, target) in edges
  }

  /** A walk of exactly `n` edges; it may pass through ids that no node bears. */
  ghost predicate ReachIn(edges: seq<Edge>, from: string, to: string, n: nat)
    decreases n
  {
    if n == 0 then from == to
    else exists mid :: ReachIn(edges, from, mid, n - 1) && HasEdge(edges, mid, to)
  }

  ghost predicate Reachable(edges: seq<Edge>, from: string, to: string) {
    exists n: nat :: ReachIn(edges, from, to, n)
  }

  lemma {:induction false} ReachBySomeEdge(edges: seq<Edge>, from: string, mid: string, to: string, n: nat)
    requires HasEdge(edges, from, mid) && ReachIn(edges, mid, to, n)
    ensures ReachIn(edges, from, to, n + 1)
    decreases n
  {
    if n == 0 {
      assert ReachIn(edges, from, from, 0);
    } else {
      var last :| ReachIn(edges, mid, last, n - 1) && HasEdge(edges, last, to);
      ReachBySomeEdge(edges, from, mid, last, n - 1);
    }
  }

  /** Building a map by assignment: of several nodes with one id, the last one counts. */
  function ById(nodes: seq<Node>): (m: map<string, Node>)
    ensures forall id :: id in m ==> m[id].id == id && m[id] in nodes
    ensures forall n :: n in nodes ==> n.id in m
  {
    if nodes == [] then map[]
    else ById(nodes[..|nodes| - 1])[nodes[|nodes| - 1].id := nodes[|nodes| - 1]]
  }

  /** Of several nodes with one id the last one counts. */
  lemma {:induction false} LastNodeCounts(nodes: seq<Node>, i: nat)
    requires i < |nodes| && forall j :: i < j < |nodes| ==> nodes[j].id != nodes[i].id
    ensures nodes[i].id in ById(nodes) && ById(nodes)[nodes[i].id] == nodes[i]
  {
    if i < |nodes| - 1 {
      LastNodeCounts(nodes[..|nodes| - 1], i);
    }
  }

  predicate UniqueIds(nodes: seq<Node>) {
    forall j, k :: 0 <= j < k < |nodes| ==> nodes[j].id != nodes[k].id
  }

  lemma UniqueIdsById(nodes: seq<Node>, n: Node)
    requires UniqueIds(nodes) && n in nodes
    ensures ById(nodes)[n.id] == n
  {
    var m := ById(nodes)[n.id];
    var j :| 0 <= j < |nodes| && nodes[j] == n;
    var k :| 0 <= k < |nodes| && nodes[k] == m;
    assert j == k;
  }

  /** The targets of the edges leaving `id`, in edge order; and the sources of those entering it. */
  function Outgoing(edges: seq<Edge>, id: string): seq<string> {
    if edges == [] then []
    else
      var e := edges[|edges| - 1];
      Outgoing(edges[..|edges| - 1], id) + if e.source == id then [e.target] else []
  }

  function Incoming(edges: seq<Edge>, id: string): seq<string> {
    if edges == [] then []
    else
      var e := edges[|edges| - 1];
      Incoming(edges[..|edges| - 1], id) + if e.target == id then [e.source] else []
  }

  lemma {:induction false} OutgoingAreEdges(edges: seq<Edge>, id: string)
    ensures forall t :: t in Outgoing(edges, id) <==> HasEdge(edges, id, t)
  {
    if edges != [] {
      OutgoingAreEdges(edges[..|edges| - 1], id);
      assert edges == edges[..|edges| - 1] + [edges[|edges| - 1]];
    }
  }

  lemma {:induction false} IncomingAreEdges(edges: seq<Edge>, id: string)
    ensures forall s :: s in Incoming(edges, id) <==> HasEdge(edges, s, id)
  {
    if edges != [] {
      IncomingAreEdges(edges[..|edges| - 1], id);
      assert edges == edges[..|edges| - 1] + [edges[|edges| - 1]];
    }
  }

  function From(id: string): Edge -> bool {
    (e: Edge) => e.source == id
  }

  function Into(id: string): Edge -> bool {
    (e: Edge) => e.target == id
  }

  function TargetOf(): Edge -> string {
    (e: Edge) => e.target
  }

  function SourceOf(): Edge -> string {
    (e: Edge) => e.source
  }

  /** Both lists have one element for each edge and keep edge order. */
  lemma {:induction false} ListsFollowTheEdges(edges: seq<Edge>, id: string)
    ensures Chosen(edges, From(id), TargetOf(), Outgoing(edges, id))
    ensures Chosen(edges, Into(id), SourceOf(), Incoming(edges, id))
  {
    if edges == [] {
      ChosenNone(From(id), TargetOf());
      ChosenNone(Into(id), SourceOf());
    } else {
      var most, e := edges[..|edges| - 1], edges[|edges| - 1];
      ListsFollowTheEdges(most, id);
      ChosenStep(edges, From(id), TargetOf(), Outgoing(most, id), if e.source == id then [e.target] else []);
      ChosenStep(edges, Into(id), SourceOf(), Incoming(most, id), if e.target == id then [e.source] else []);
    }
  }

  predicate Groups(lists: map<string, seq<string>>, edges: seq<Edge>, forward: bool, id: string) {
    (if id in lists then lists[id] else []) == if forward then Outgoing(edges, id) else Incoming(edges, id)
  }

  lemma OneMoreEdge(edges: seq<Edge>, e: Edge, id: string)
    ensures Outgoing(edges + [e], id)
      == if e.source == id then Outgoing(edges, id) + [e.target] else Outgoing(edges, id)
    ensures Incoming(edges + [e], id)
      == if e.target == id then Incoming(edges, id) + [e.source] else Incoming(edges, id)
  {
    assert (edges + [e])[..|edges|] == edges;
  }

  /** Adjacency lists as both searches build them, one append per edge. */
  method GroupEdges(edges: seq<Edge>, forward: bool) returns (lists: map<string, seq<string>>)
    ensures forall id :: Groups(lists, edges, forward, id)
  {
    lists := map[];
    for i := 0 to |edges|
      invariant forall id :: Groups(lists, edges[..i], forward, id)
    {
      var e, before := edges[i], lists;
      var key := if forward then e.source else e.target;
      lists := lists[key := (if key in lists then lists[key] else []) + [if forward then e.target else e.source]];
      ghost var seen := edges[..i + 1];
      assert seen == edges[..i] + [e];
      forall id ensures Groups(lists, seen, forward, id) {
        assert Groups(before, edges[..i], forward, id);
        OneMoreEdge(edges[..i], e, id);
      }
    }
    assert edges[..|edges|] == edges;
  }

  method IndexNodes(nodes: seq<Node>) returns (byId: map<string, Node>)
    ensures byId == ById(nodes)
  {
    byId := map[];
    for i := 0 to |nodes|
      invariant byId == ById(nodes[..i])
    {
      assert nodes[..i + 1][..i] == nodes[..i];
      byId := byId[nodes[i].id := nodes[i]];
    }
    assert nodes[..|nodes|] == nodes;
  }
}
