/**
 The editor's backward search from a node to the trigger it descends from, proved to agree
 with the executor's forward search.
 */
module FlowValidation {
  import opened Wrappers
  import opened EventMatching
  import opened WorkflowGraph
  import opened GraphOrder

  predicate IsFileDependentActionType(actionType: ActionType) {
    actionType in {Tag, Comment, Move, Copy, Rename}
  }

  // ---- backwards is forwards over the reversed edges -------------------------------------------

  function Reversed(edges: seq<Edge>): (r: seq<Edge>) {
    if edges == [] then []
    else Reversed(edges[..|edges| - 1]) + [Edge(edges[|edges| - 1].target, edges[|edges| - 1].source)]
  }

  lemma {:induction false} ReversedEdges(edges: seq<Edge>, a: string, b: string)
    ensures HasEdge(Reversed(edges), a, b) <==> HasEdge(edges, b, a)
  {
    if edges != [] {
      ReversedEdges(edges[..|edges| - 1], a, b);
      assert edges == edges[..|edges| - 1] + [edges[|edges| - 1]];
    }
  }

  lemma {:induction false} IncomingIsOutgoingReversed(edges: seq<Edge>, id: string)
    ensures Incoming(edges, id) == Outgoing(Reversed(edges), id)
  {
    if edges != [] {
      var most, e := edges[..|edges| - 1], edges[|edges| - 1];
      IncomingIsOutgoingReversed(most, id);
      OneMoreEdge(Reversed(most), Edge(e.target, e.source), id);
    }
  }

  lemma {:induction false} ReversedWalk(edges: seq<Edge>, from: string, to: string, n: nat)
    requires ReachIn(Reversed(edges), from, to, n)
    ensures ReachIn(edges, to, from, n)
    decreases n
  {
    if n > 0 {
      var mid :| ReachIn(Reversed(edges), from, mid, n - 1) && HasEdge(Reversed(edges), mid, to);
      ReversedWalk(edges, from, mid, n - 1);
      ReversedEdges(edges, mid, to);
      ReachBySomeEdge(edges, to, mid, from, n - 1);
    }
  }

  lemma {:induction false} WalkReversed(edges: seq<Edge>, from: string, to: string, n: nat)
    requires ReachIn(edges, to, from, n)
    ensures ReachIn(Reversed(edges), from, to, n)
    decreases n
  {
    if n > 0 {
      var mid :| ReachIn(edges, to, mid, n - 1) && HasEdge(edges, mid, from);
      WalkReversed(edges, mid, to, n - 1);
      ReversedEdges(edges, from, mid);
      ReachBySomeEdge(Reversed(edges), from, mid, to, n - 1);
    }
  }

  // ---- the search ------------------------------------------------------------------------------

  predicate KnownTrigger(g: Graph, id: string) {
    id in ById(g.nodes) && ById(g.nodes)[id].nodeType.Trigger?
  }

  ghost predicate NoTriggerUpstream(g: Graph, nodeId: string) {
    forall t :: KnownTrigger(g, t) ==> !Reachable(g.edges, t, nodeId)
  }

  /** `t` is a trigger from which the node can be reached, and no trigger reaches it in fewer steps. */
  ghost predicate NearestTrigger(g: Graph, nodeId: string, t: string, n: nat) {
    && KnownTrigger(g, t) && ReachIn(g.edges, t, nodeId, n)
    && forall other, m: nat :: KnownTrigger(g, other) && ReachIn(g.edges, other, nodeId, m) ==> n <= m
  }

  /** What the backward search may answer; `None` stands for undefined. */
  ghost predicate IsUpstreamType(g: Graph, nodeId: string, answer: Option<TriggerType>) {
    || (exists t, n: nat :: NearestTrigger(g, nodeId, t, n) && answer == ById(g.nodes)[t].data.triggerType)
    || (NoTriggerUpstream(g, nodeId) && answer == None)
  }

  lemma SearchMeetsNearest(g: Graph, nodeId: string, s: Search)
    requires Searching(Reversed(g.edges), nodeId, s) && s.queue != []
    requires KnownTrigger(g, s.queue[0]) && forall x :: x in s.depth.Keys ==> !KnownTrigger(g, x)
    ensures exists n: nat :: NearestTrigger(g, nodeId, s.queue[0], n)
  {
    SearchingKeepsInv(Reversed(g.edges), nodeId, s);
    var rev, t, n := Reversed(g.edges), s.queue[0], s.queued[0];
    ReversedWalk(g.edges, nodeId, t, n);
    forall other, m: nat | KnownTrigger(g, other) && ReachIn(g.edges, other, nodeId, m) ensures n <= m {
      if m < n {
        WalkReversed(g.edges, nodeId, other, m);
        ShortWalksAreVisited(rev, nodeId, s, other, m);
      }
    }
    assert NearestTrigger(g, nodeId, t, n);
  }

  lemma SearchMeetsNone(g: Graph, nodeId: string, s: Search)
    requires Searching(Reversed(g.edges), nodeId, s) && s.queue == []
    requires forall x :: x in s.depth.Keys ==> !KnownTrigger(g, x)
    ensures NoTriggerUpstream(g, nodeId)
  {
    SearchingKeepsInv(Reversed(g.edges), nodeId, s);
    forall t | KnownTrigger(g, t) ensures !Reachable(g.edges, t, nodeId) {
      if Reachable(g.edges, t, nodeId) {
        var n: nat :| ReachIn(g.edges, t, nodeId, n);
        WalkReversed(g.edges, nodeId, t, n);
        ShortWalksAreVisited(Reversed(g.edges), nodeId, s, t, n);
      }
    }
  }

  method UpstreamTriggerType(nodeId: string, g: Graph) returns (answer: Option<TriggerType>)
    ensures IsUpstreamType(g, nodeId, answer)
  {
    var byId := IndexNodes(g.nodes);
    var incoming := GroupEdges(g.edges, false);

    var visited: set<string> := {};
    var queue := [nodeId];
    ghost var rev := Reversed(g.edges);
    ghost var everything := {nodeId} + Targets(rev);
    ghost var s := FirstTurn(rev, nodeId);
    while |queue| > 0
      invariant Searching(rev, nodeId, s)
      invariant queue == s.queue && |s.queued| == |s.queue| && visited == s.depth.Keys
      invariant forall x :: x in visited ==> !KnownTrigger(g, x)
      invariant visited <= everything && forall x :: x in queue ==> x in everything
      decreases everything - visited, |queue|
    {
      var id := queue[0];
      ghost var before := s;
      queue := queue[1..];
      s := NextTurn(rev, nodeId, s);
      if id in visited {
        continue;
      }
      if id in byId && byId[id].nodeType.Trigger? {
        SearchMeetsNearest(g, nodeId, before);
        return byId[id].data.triggerType;
      }
      visited := visited + {id};
      assert Groups(incoming, g.edges, false, id);
      IncomingIsOutgoingReversed(g.edges, id);
      queue := queue + if id in incoming then incoming[id] else [];
      OutgoingAreTargets(rev, id);
    }
    SearchMeetsNone(g, nodeId, s);
    return None;
  }

  method HasUpstreamFileSource(nodeId: string, g: Graph) returns (reliable: bool)
    ensures exists answer ::
      IsUpstreamType(g, nodeId, answer) && (reliable <==> answer == None || answer == Some(Event))
  {
    var triggerType := UpstreamTriggerType(nodeId, g);
    return triggerType == None || triggerType == Some(Event);
  }

  method CanUpstreamProvideFile(nodeId: string, g: Graph) returns (possible: bool)
    ensures exists answer :: IsUpstreamType(g, nodeId, answer) && (possible <==> answer != Some(Schedule))
  {
    var triggerType := UpstreamTriggerType(nodeId, g);
    return triggerType != Some(Schedule);
  }

  // ---- main results ----------------------------------------------------------------------------

  /** Node ids are unique and `t` is the only trigger; it has a type. */
  predicate OneTrigger(g: Graph, t: Node) {
    && UniqueIds(g.nodes) && t in g.nodes && t.nodeType.Trigger? && t.data.triggerType.Some?
    && forall n :: n in g.nodes && n.nodeType.Trigger? ==> n == t
  }

  lemma {:induction false} OneTriggerStarts(nodes: seq<Node>, t: Node)
    requires t in nodes && t.nodeType.Trigger?
    requires forall n :: n in nodes && n.nodeType.Trigger? ==> n == t
    ensures Start(nodes) == t.id
  {
    if !nodes[0].nodeType.Trigger? {
      OneTriggerStarts(nodes[1..], t);
    }
  }

  /** The backward answer is the trigger's type exactly for the nodes reachable from the trigger. */
  lemma AnswerIsReachability(g: Graph, t: Node, id: string, answer: Option<TriggerType>)
    requires OneTrigger(g, t) && IsUpstreamType(g, id, answer)
    ensures answer == t.data.triggerType <==> Reachable(g.edges, t.id, id)
    ensures answer != t.data.triggerType ==> answer == None
  {
    UniqueIdsById(g.nodes, t);
    if NoTriggerUpstream(g, id) {
      assert KnownTrigger(g, t.id);
    }
  }

  /**
   Editor and executor agree on which known nodes descend from the trigger - unless the
   trigger's id is empty, which the executor takes for "no trigger" and the editor does not.
   */
  lemma SearchesAgree(g: Graph, t: Node, id: string, answer: Option<TriggerType>, ordered: seq<Node>)
    requires OneTrigger(g, t) && IsUpstreamType(g, id, answer) && IsOrder(g, ordered)
    requires t.id != "" && id in ById(g.nodes)
    ensures answer == t.data.triggerType <==> Contains(ordered, id)
  {
    AnswerIsReachability(g, t, id, answer);
    OneTriggerStarts(g.nodes, t);
    OrderIsExactlyTheReachableNodes(g, ordered);
  }

  ghost predicate AgreeAt(g: Graph, t: Node, id: string) {
    forall answer, ordered: seq<Node> :: IsUpstreamType(g, id, answer) && IsOrder(g, ordered) ==>
      (answer == t.data.triggerType <==> Contains(ordered, id))
  }

  lemma AgreementExactlyWhen(g: Graph, t: Node)
    requires OneTrigger(g, t)
    ensures (forall n :: n in g.nodes ==> AgreeAt(g, t, n.id)) <==> t.id != ""
  {
    if t.id != "" {
      forall n | n in g.nodes ensures AgreeAt(g, t, n.id) {
        forall answer, ordered: seq<Node> | IsUpstreamType(g, n.id, answer) && IsOrder(g, ordered)
          ensures answer == t.data.triggerType <==> Contains(ordered, n.id)
        {
          SearchesAgree(g, t, n.id, answer, ordered);
        }
      }
    } else {
      OneTriggerStarts(g.nodes, t);
      TriggerIsUpstreamOfItself(g, t);
      assert IsOrder(g, []) && !Contains([], t.id);
      assert !AgreeAt(g, t, t.id);
    }
  }

  lemma TriggerIsUpstreamOfItself(g: Graph, t: Node)
    requires OneTrigger(g, t)
    ensures IsUpstreamType(g, t.id, t.data.triggerType)
  {
    UniqueIdsById(g.nodes, t);
    assert KnownTrigger(g, t.id) && ReachIn(g.edges, t.id, t.id, 0);
    assert NearestTrigger(g, t.id, t.id, 0);
  }
}
