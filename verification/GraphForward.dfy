/**
 Exactly when nodes run in the order they were chained: when every edge leads strictly farther
 from the trigger. Otherwise some listing of the same edges makes an edge run backward.
 */
module GraphForward {
  import opened Wrappers
  import opened WorkflowGraph
  import opened GraphOrder

  /** Whatever leads to `y`, a shorter walk leads to `x`. */
  ghost predicate LeadsFarther(edges: seq<Edge>, start: string, x: string, y: string) {
    forall n: nat :: ReachIn(edges, start, y, n) ==> exists m: nat :: m < n && ReachIn(edges, start, x, m)
  }

  /** A node runs after every node that an edge leads to it from strictly nearer the trigger. */
  lemma FartherRunsLater(g: Graph, ordered: seq<Node>, j: nat, k: nat)
    requires IsOrder(g, ordered) && Start(g.nodes) != "" && j < |ordered| && k < |ordered|
    requires LeadsFarther(g.edges, Start(g.nodes), ordered[j].id, ordered[k].id)
    ensures j < k
  {
    var dist := OrderHasDistances(g, ordered);
    var m: nat :| m < dist[k] && ReachIn(g.edges, Start(g.nodes), ordered[j].id, m);
    assert dist[j] <= m < dist[k];
  }

  /** Every reachable id is entered from at most one source, the start from none. */
  ghost predicate Chained(edges: seq<Edge>, start: string) {
    && (forall e :: e in edges ==> e.target != start)
    && (forall e, f :: e in edges && f in edges && e.target == f.target && Reachable(edges, start, e.target)
          ==> e.source == f.source)
  }

  lemma ChainedLeadsFarther(edges: seq<Edge>, start: string, x: string, y: string)
    requires Chained(edges, start) && HasEdge(edges, x, y)
    ensures LeadsFarther(edges, start, x, y)
  {
    forall n: nat | ReachIn(edges, start, y, n) ensures exists m: nat :: m < n && ReachIn(edges, start, x, m) {
      assert Edge(x, y) in edges && Reachable(edges, start, y);
      if n > 0 {
        var mid :| ReachIn(edges, start, mid, n - 1) && HasEdge(edges, mid, y);
        assert Edge(mid, y) in edges;
      }
    }
  }

  /** In chained graphs every edge runs forward: a node never executes before the node it was chained to. */
  lemma ChainedEdgesRunForward(g: Graph, ordered: seq<Node>, j: nat, k: nat)
    requires IsOrder(g, ordered) && Start(g.nodes) != "" && Chained(g.edges, Start(g.nodes))
    requires j < |ordered| && k < |ordered| && HasEdge(g.edges, ordered[j].id, ordered[k].id)
    ensures j < k
  {
    ChainedLeadsFarther(g.edges, Start(g.nodes), ordered[j].id, ordered[k].id);
    FartherRunsLater(g, ordered, j, k);
  }

  // ---- shortest paths ------------------------------------------------------------------------------

  predicate IsPath(edges: seq<Edge>, path: seq<string>) {
    path != [] && forall i :: 0 <= i < |path| - 1 ==> HasEdge(edges, path[i], path[i + 1])
  }

  ghost predicate IsShortest(edges: seq<Edge>, start: string, path: seq<string>) {
    && IsPath(edges, path) && path[0] == start
    && forall i: nat :: i < |path| ==> IsDistance(edges, start, path[i], i)
  }

  lemma {:induction false} WalkAsPath(edges: seq<Edge>, from: string, to: string, n: nat) returns (path: seq<string>)
    requires ReachIn(edges, from, to, n)
    ensures |path| == n + 1 && path[0] == from && path[n] == to && IsPath(edges, path)
    decreases n
  {
    if n == 0 {
      path := [from];
    } else {
      var mid :| ReachIn(edges, from, mid, n - 1) && HasEdge(edges, mid, to);
      path := WalkAsPath(edges, from, mid, n - 1);
      path := path + [to];
    }
  }

  lemma {:induction false} WalkGoesOn(edges: seq<Edge>, from: string, path: seq<string>, i: nat, m: nat, j: nat)
    requires IsPath(edges, path) && i <= j < |path| && ReachIn(edges, from, path[i], m)
    ensures ReachIn(edges, from, path[j], m + j - i)
    decreases j
  {
    if i < j {
      WalkGoesOn(edges, from, path, i, m, j - 1);
      assert HasEdge(edges, path[j - 1], path[j - 1 + 1]);
    }
  }

  lemma ShortestPath(edges: seq<Edge>, start: string, to: string, d: nat) returns (path: seq<string>)
    requires IsDistance(edges, start, to, d)
    ensures IsShortest(edges, start, path) && |path| == d + 1 && path[d] == to
  {
    path := WalkAsPath(edges, start, to, d);
    assert ReachIn(edges, start, path[0], 0);
    forall i: nat | i < |path| ensures IsDistance(edges, start, path[i], i) {
      WalkGoesOn(edges, start, path, 0, 0, i);
      forall m: nat | ReachIn(edges, start, path[i], m) ensures i <= m {
        WalkGoesOn(edges, start, path, i, m, d);
      }
    }
  }

  lemma ShortestIsDistinct(edges: seq<Edge>, start: string, path: seq<string>)
    requires IsShortest(edges, start, path)
    ensures forall i, j :: 0 <= i < j < |path| ==> path[i] != path[j]
  {
    forall i: nat, j: nat | i < j < |path| ensures path[i] != path[j] {
      assert IsDistance(edges, start, path[i], i) && IsDistance(edges, start, path[j], j);
    }
  }

  // ---- the same edges in another order -----------------------------------------------------------------

  function Without(edges: seq<Edge>, e: Edge): seq<Edge>
    requires e in edges
  {
    if edges[0] == e then edges[1..] else [edges[0]] + Without(edges[1..], e)
  }

  /** One of the edges moved to the front. */
  function Fronted(edges: seq<Edge>, e: Edge): seq<Edge>
    requires e in edges
  {
    [e] + Without(edges, e)
  }

  lemma {:induction false} OutgoingConcat(xs: seq<Edge>, ys: seq<Edge>, id: string)
    ensures Outgoing(xs + ys, id) == Outgoing(xs, id) + Outgoing(ys, id)
  {
    if ys == [] {
      assert xs + ys == xs;
    } else {
      var n := |ys| - 1;
      OutgoingConcat(xs, ys[..n], id);
      assert xs + ys == (xs + ys[..n]) + [ys[n]] && ys == ys[..n] + [ys[n]];
      OneMoreEdge(xs + ys[..n], ys[n], id);
      OneMoreEdge(ys[..n], ys[n], id);
    }
  }

  lemma OutgoingOne(e: Edge, id: string)
    ensures Outgoing([e], id) == if e.source == id then [e.target] else []
  {
    assert [e] == [] + [e];
    OneMoreEdge([], e, id);
  }

  lemma {:induction false} WithoutKeepsEdges(edges: seq<Edge>, e: Edge)
    requires e in edges
    ensures multiset(edges) == multiset([e]) + multiset(Without(edges, e))
  {
    var first, rest := edges[0], edges[1..];
    assert edges == [first] + rest;
    if first != e {
      WithoutKeepsEdges(rest, e);
    }
  }

  lemma {:induction false} WithoutKeepsOthers(edges: seq<Edge>, e: Edge, id: string)
    requires e in edges && id != e.source
    ensures Outgoing(Without(edges, e), id) == Outgoing(edges, id)
  {
    var first, rest := edges[0], edges[1..];
    OutgoingConcat([first], rest, id);
    assert edges == [first] + rest;
    if first == e {
      OutgoingOne(first, id);
    } else {
      WithoutKeepsOthers(rest, e, id);
      OutgoingConcat([first], Without(rest, e), id);
    }
  }

  lemma FrontedKeeps(edges: seq<Edge>, e: Edge, id: string)
    requires e in edges
    ensures multiset(Fronted(edges, e)) == multiset(edges)
    ensures id != e.source ==> Outgoing(Fronted(edges, e), id) == Outgoing(edges, id)
    ensures Outgoing(Fronted(edges, e), e.source) != [] && Outgoing(Fronted(edges, e), e.source)[0] == e.target
  {
    WithoutKeepsEdges(edges, e);
    if id != e.source {
      WithoutKeepsOthers(edges, e, id);
    }
    OutgoingConcat([e], Without(edges, e), id);
    OutgoingConcat([e], Without(edges, e), e.source);
    OutgoingOne(e, id);
    OutgoingOne(e, e.source);
  }

  lemma SameMembers(xs: seq<Edge>, ys: seq<Edge>)
    requires multiset(xs) == multiset(ys)
    ensures forall e :: e in xs <==> e in ys
  {
    assert forall e :: e in xs <==> e in multiset(xs);
    assert forall e :: e in ys <==> e in multiset(ys);
  }

  /** At each id of the path, the path's own edge comes first. */
  ghost predicate PathFirst(edges: seq<Edge>, path: seq<string>, n: nat) {
    forall i: nat :: i < n && i + 1 < |path| ==> FirstTarget(edges, path[i], path[i + 1])
  }

  predicate FirstTarget(edges: seq<Edge>, x: string, y: string) {
    Outgoing(edges, x) != [] && Outgoing(edges, x)[0] == y
  }

  /** Moving the path's n-th edge to the front puts it first at its id and disturbs no other id. */
  lemma OneMoreFirst(edges: seq<Edge>, path: seq<string>, n: nat)
    requires n + 1 < |path| && Edge(path[n], path[n + 1]) in edges && PathFirst(edges, path, n)
    requires forall i, j :: 0 <= i < j < |path| ==> path[i] != path[j]
    ensures PathFirst(Fronted(edges, Edge(path[n], path[n + 1])), path, n + 1)
  {
    var e := Edge(path[n], path[n + 1]);
    var listed := Fronted(edges, e);
    forall i: nat | i < n + 1 && i + 1 < |path| ensures FirstTarget(listed, path[i], path[i + 1]) {
      FrontedKeeps(edges, e, path[i]);
      if i < n {
        assert FirstTarget(edges, path[i], path[i + 1]);
      }
    }
  }

  lemma {:induction false} PathCanComeFirst(edges: seq<Edge>, path: seq<string>, n: nat) returns (listed: seq<Edge>)
    requires IsPath(edges, path) && n < |path|
    requires forall i, j :: 0 <= i < j < |path| ==> path[i] != path[j]
    ensures multiset(listed) == multiset(edges) && PathFirst(listed, path, n)
  {
    if n == 0 {
      listed := edges;
    } else {
      var before := PathCanComeFirst(edges, path, n - 1);
      SameMembers(edges, before);
      PathEdge(edges, path, n - 1);
      OneMoreFirst(before, path, n - 1);
      FrontedKeeps(before, Edge(path[n - 1], path[n]), "");
      listed := Fronted(before, Edge(path[n - 1], path[n]));
    }
  }

  lemma PathEdge(edges: seq<Edge>, path: seq<string>, n: nat)
    requires IsPath(edges, path) && n + 1 < |path|
    ensures Edge(path[n], path[n + 1]) in edges
  {
    assert HasEdge(edges, path[n], path[n + 1]);
  }

  lemma {:induction false} SameWalks(xs: seq<Edge>, ys: seq<Edge>, from: string, to: string, n: nat)
    requires (forall e :: e in xs <==> e in ys) && ReachIn(xs, from, to, n)
    ensures ReachIn(ys, from, to, n)
    decreases n
  {
    if n > 0 {
      var mid :| ReachIn(xs, from, mid, n - 1) && HasEdge(xs, mid, to);
      SameWalks(xs, ys, from, mid, n - 1);
      assert Edge(mid, to) in xs && HasEdge(ys, mid, to);
    }
  }

  lemma SameDistances(xs: seq<Edge>, ys: seq<Edge>, from: string, to: string, d: nat)
    requires multiset(xs) == multiset(ys) && IsDistance(xs, from, to, d)
    ensures IsDistance(ys, from, to, d)
  {
    SameMembers(xs, ys);
    SameWalks(xs, ys, from, to, d);
    forall n: nat | ReachIn(ys, from, to, n) ensures d <= n {
      SameWalks(ys, xs, from, to, n);
    }
  }

  lemma SameShortest(xs: seq<Edge>, ys: seq<Edge>, start: string, path: seq<string>)
    requires multiset(xs) == multiset(ys) && IsShortest(xs, start, path)
    ensures IsShortest(ys, start, path)
  {
    SameMembers(xs, ys);
    forall i | 0 <= i < |path| - 1 ensures HasEdge(ys, path[i], path[i + 1]) {
      assert HasEdge(xs, path[i], path[i + 1]);
    }
    forall i: nat | i < |path| ensures IsDistance(ys, start, path[i], i) {
      SameDistances(xs, ys, start, path[i], i);
    }
  }

  // ---- the path leads -----------------------------------------------------------------------------------

  /** `x` stands before `y`, or is `y`. */
  predicate NotAfter(ids: seq<string>, x: string, y: string) {
    exists a, b :: 0 <= a <= b < |ids| && ids[a] == x && ids[b] == y
  }

  predicate LeadsVisited(s: Search, path: seq<string>) {
    forall y :: y in s.depth && s.depth[y] < |path| ==> NotAfter(s.ids, path[s.depth[y]], y)
  }

  predicate QueuedBy(s: Search, y: string, d: nat, upTo: int) {
    exists k :: 0 <= k <= upTo && k < |s.queue| && k < |s.queued| && s.queue[k] == y && s.queued[k] == d
  }

  /** Ahead of every queued id, the path's id of that depth is queued - or it is visited already. */
  predicate LedAt(s: Search, path: seq<string>, k: nat)
    requires k < |s.queued|
  {
    s.queued[k] < |path| ==> path[s.queued[k]] in s.depth || QueuedBy(s, path[s.queued[k]], s.queued[k], k)
  }

  predicate LeadsQueued(s: Search, path: seq<string>) {
    forall k: nat :: k < |s.queued| ==> LedAt(s, path, k)
  }

  /** The path is being followed: behind a visited id, its next one is queued or visited. */
  predicate FollowedAt(s: Search, path: seq<string>, i: nat)
    requires i + 1 < |path|
  {
    path[i] in s.depth ==> path[i + 1] in s.depth || QueuedBy(s, path[i + 1], i + 1, |s.queue|)
  }

  predicate Follows(s: Search, path: seq<string>) {
    forall i: nat :: i + 1 < |path| ==> FollowedAt(s, path, i)
  }

  /** Dropping the first of the queue keeps what is queued behind it. */
  lemma StillQueued(s: Search, t: Search, y: string, d: nat, upTo: int)
    requires QueuedBy(s, y, d, upTo) && s.queue != [] && |s.queued| == |s.queue| && y != s.queue[0]
    requires |s.queue| - 1 <= |t.queue| == |t.queued|
    requires forall k :: 0 <= k < |s.queue| - 1 ==> t.queue[k] == s.queue[k + 1] && t.queued[k] == s.queued[k + 1]
    ensures QueuedBy(t, y, d, upTo - 1)
  {
    var k :| 0 <= k <= upTo && k < |s.queue| && s.queue[k] == y && s.queued[k] == d;
    assert t.queue[k - 1] == y && t.queued[k - 1] == d;
  }

  lemma QueuedEarlier(s: Search, y: string, d: nat, upTo: int, further: int)
    requires QueuedBy(s, y, d, upTo) && upTo <= further
    ensures QueuedBy(s, y, d, further)
  {
  }

  lemma SkipKeepsLead(s: Search, path: seq<string>)
    requires QueueInv(s) && s.queue != [] && s.queue[0] in s.depth
    requires LeadsQueued(s, path) && Follows(s, path)
    ensures LeadsQueued(Skip(s), path) && Follows(Skip(s), path)
  {
    var t := Skip(s);
    forall k: nat | k < |t.queued| ensures LedAt(t, path, k) {
      assert LedAt(s, path, k + 1);
      var d := s.queued[k + 1];
      if d < |path| && path[d] !in s.depth {
        StillQueued(s, t, path[d], d, k + 1);
      }
    }
    forall i: nat | i + 1 < |path| ensures FollowedAt(t, path, i) {
      assert FollowedAt(s, path, i);
      if path[i] in s.depth && path[i + 1] !in s.depth {
        StillQueued(s, t, path[i + 1], i + 1, |s.queue|);
      }
    }
  }

  /** An id of the path is visited at the depth of its place. */
  lemma PathDepth(edges: seq<Edge>, start: string, s: Search, path: seq<string>, i: nat)
    requires Inv(edges, start, s) && IsShortest(edges, start, path) && i < |path|
    requires s.queue != [] && s.queue[0] == path[i] && path[i] !in s.depth
    ensures s.queued[0] == i
  {
    assert IsDistance(edges, start, path[i], i);
    if i < s.queued[0] {
      ShortWalksAreVisited(edges, start, s, path[i], i);
    }
  }

  lemma NotAfterGrows(ids: seq<string>, id: string, x: string, y: string)
    requires NotAfter(ids, x, y)
    ensures NotAfter(ids + [id], x, y)
  {
    var a, b :| 0 <= a <= b < |ids| && ids[a] == x && ids[b] == y;
    assert (ids + [id])[a] == x && (ids + [id])[b] == y;
  }

  lemma VisitIsLed(s: Search, path: seq<string>)
    requires VisitedInv(s) && QueueInv(s) && s.queue != [] && s.queued[0] < |path| && LedAt(s, path, 0)
    ensures NotAfter(s.ids + [s.queue[0]], path[s.queued[0]], s.queue[0])
  {
    var ids, d := s.ids + [s.queue[0]], s.queued[0];
    assert ids[|s.ids|] == s.queue[0];
    if path[d] in s.depth {
      var a :| 0 <= a < |s.ids| && s.ids[a] == path[d];
      assert ids[a] == path[d];
    }
  }

  lemma VisitKeepsVisitedLead(edges: seq<Edge>, s: Search, path: seq<string>)
    requires VisitedInv(s) && QueueInv(s) && s.queue != [] && s.queue[0] !in s.depth
    requires LeadsVisited(s, path) && LeadsQueued(s, path)
    ensures LeadsVisited(Visit(edges, s), path)
  {
    var t, id := Visit(edges, s), s.queue[0];
    forall y | y in t.depth && t.depth[y] < |path| ensures NotAfter(t.ids, path[t.depth[y]], y) {
      if y == id {
        assert LedAt(s, path, 0);
        VisitIsLed(s, path);
      } else {
        NotAfterGrows(s.ids, id, path[s.depth[y]], y);
      }
    }
  }

  /** The path's next id is queued as soon as its predecessor is visited, ahead of all else of that depth. */
  lemma VisitQueuesNext(edges: seq<Edge>, s: Search, path: seq<string>, i: nat)
    requires s.queue != [] && |s.queued| == |s.queue| && PathFirst(edges, path, |path|)
    requires i + 1 < |path| && s.queue[0] == path[i] && s.queued[0] == i
    ensures QueuedBy(Visit(edges, s), path[i + 1], i + 1, |s.queue| - 1)
  {
    var t := Visit(edges, s);
    assert FirstTarget(edges, path[i], path[i + 1]);
    assert t.queue[|s.queue| - 1] == path[i + 1] && t.queued[|s.queue| - 1] == i + 1;
  }

  lemma VisitShifts(edges: seq<Edge>, s: Search)
    requires s.queue != [] && |s.queued| == |s.queue|
    ensures var t := Visit(edges, s);
      && |s.queue| - 1 <= |t.queue| == |t.queued|
      && (forall k :: 0 <= k < |s.queue| - 1 ==> t.queue[k] == s.queue[k + 1] && t.queued[k] == s.queued[k + 1])
      && (forall k :: |s.queue| - 1 <= k < |t.queue| ==> t.queued[k] == s.queued[0] + 1)
  {
  }

  lemma VisitKeepsFollowing(edges: seq<Edge>, start: string, s: Search, path: seq<string>)
    requires Inv(edges, start, s) && IsShortest(edges, start, path) && PathFirst(edges, path, |path|)
    requires s.queue != [] && s.queue[0] !in s.depth && Follows(s, path)
    ensures Follows(Visit(edges, s), path)
  {
    var t, id := Visit(edges, s), s.queue[0];
    VisitShifts(edges, s);
    forall i: nat | i + 1 < |path| ensures FollowedAt(t, path, i) {
      assert FollowedAt(s, path, i);
      if path[i] == id {
        PathDepth(edges, start, s, path, i);
        VisitQueuesNext(edges, s, path, i);
        QueuedEarlier(t, path[i + 1], i + 1, |s.queue| - 1, |t.queue|);
      } else if path[i] in s.depth && path[i + 1] !in t.depth {
        StillQueued(s, t, path[i + 1], i + 1, |s.queue|);
        QueuedEarlier(t, path[i + 1], i + 1, |s.queue| - 1, |t.queue|);
      }
    }
  }

  lemma OldEntryIsLed(edges: seq<Edge>, s: Search, path: seq<string>, k: nat)
    requires QueueInv(s) && s.queue != [] && LeadsQueued(s, path) && k + 1 < |s.queue|
    requires |Visit(edges, s).queued| == |Visit(edges, s).queue| > k
    ensures LedAt(Visit(edges, s), path, k)
  {
    var t, e := Visit(edges, s), s.queued[k + 1];
    VisitShifts(edges, s);
    assert LedAt(s, path, k + 1);
    if e < |path| && path[e] !in t.depth {
      StillQueued(s, t, path[e], e, k + 1);
    }
  }

  lemma VisitKeepsQueuedLead(edges: seq<Edge>, start: string, s: Search, path: seq<string>)
    requires Inv(edges, start, s) && IsShortest(edges, start, path) && PathFirst(edges, path, |path|)
    requires s.queue != [] && s.queue[0] !in s.depth && LeadsQueued(s, path) && Follows(s, path)
    ensures LeadsQueued(Visit(edges, s), path)
  {
    var t, d := Visit(edges, s), s.queued[0];
    VisitShifts(edges, s);
    forall k: nat | k < |t.queued| ensures LedAt(t, path, k) {
      if k + 1 < |s.queue| {
        OldEntryIsLed(edges, s, path, k);
      } else if d + 1 < |path| && path[d + 1] !in t.depth {
        NextIsQueued(edges, s, path);
        QueuedEarlier(t, path[d + 1], d + 1, |s.queue| - 1, k);
      }
    }
  }

  /** When an id of depth d is visited, the path's id of depth d + 1 is queued ahead of its targets. */
  lemma NextIsQueued(edges: seq<Edge>, s: Search, path: seq<string>)
    requires QueueInv(s) && PathFirst(edges, path, |path|)
    requires s.queue != [] && s.queue[0] !in s.depth && LeadsQueued(s, path) && Follows(s, path)
    requires s.queued[0] + 1 < |path| && path[s.queued[0] + 1] !in Visit(edges, s).depth
    ensures QueuedBy(Visit(edges, s), path[s.queued[0] + 1], s.queued[0] + 1, |s.queue| - 1)
  {
    var t, d := Visit(edges, s), s.queued[0];
    VisitShifts(edges, s);
    assert LedAt(s, path, 0);
    if path[d] in s.depth {
      assert FollowedAt(s, path, d);
      StillQueued(s, t, path[d + 1], d + 1, |s.queue|);
    } else {
      VisitQueuesNext(edges, s, path, d);
    }
  }

  ghost predicate Led(s: Search, path: seq<string>) {
    LeadsVisited(s, path) && LeadsQueued(s, path) && Follows(s, path)
  }

  lemma StartIsLed(s: Search, path: seq<string>, start: string)
    requires s == Search([], map[], [start], [0]) && path != [] && path[0] == start
    ensures Led(s, path)
  {
    forall k: nat | k < |s.queued| ensures LedAt(s, path, k) {
      assert s.queue[0] == path[0] && s.queued[0] == 0;
    }
  }

  lemma TurnKeepsLed(edges: seq<Edge>, start: string, path: seq<string>, s: Search)
    requires Inv(edges, start, s) && IsShortest(edges, start, path) && PathFirst(edges, path, |path|)
    requires s.queue != [] && Led(s, path)
    ensures Led(Turn(edges, s), path)
  {
    if s.queue[0] in s.depth {
      SkipKeepsLead(s, path);
    } else {
      VisitKeepsVisitedLead(edges, s, path);
      VisitKeepsQueuedLead(edges, start, s, path);
      VisitKeepsFollowing(edges, start, s, path);
    }
  }

  lemma {:induction false} PathLeads(edges: seq<Edge>, start: string, path: seq<string>, n: nat, s: Search)
    requires After(edges, start, n, s) && IsShortest(edges, start, path) && PathFirst(edges, path, |path|)
    ensures Led(s, path)
    decreases n
  {
    if n == 0 {
      StartIsLed(s, path, start);
    } else {
      var before :| After(edges, start, n - 1, before) && s == Turn(edges, before);
      PathLeads(edges, start, path, n - 1, before);
      TurnsKeepInv(edges, start, n - 1, before);
      if before.queue != [] {
        TurnKeepsLed(edges, start, path, before);
      }
    }
  }

  // ---- main results ---------------------------------------------------------------------------------------

  ghost predicate RunsBackward(ordered: seq<Node>, x: string, y: string) {
    exists j, k :: 0 <= k <= j < |ordered| && ordered[j].id == x && ordered[k].id == y
  }

  /** Positions among the ids carry over to the known nodes. */
  lemma KnownNotAfter(byId: map<string, Node>, ids: seq<string>, x: string, y: string)
    requires NotAfter(ids, y, x) && x in byId && y in byId && forall id :: id in byId ==> byId[id].id == id
    ensures RunsBackward(Known(byId, ids), x, y)
  {
    var a, b :| 0 <= a <= b < |ids| && ids[a] == y && ids[b] == x;
    var at := KnownPositions(byId, ids);
    assert a in at && b in at;
    var k :| 0 <= k < |at| && at[k] == a;
    var j :| 0 <= j < |at| && at[j] == b;
    assert k <= j;
  }

  lemma NearerIsEarlier(s: Search, x: string, y: string)
    requires VisitedInv(s) && x in s.depth && y in s.depth && s.depth[y] < s.depth[x]
    ensures NotAfter(s.ids, y, x)
  {
    var a :| 0 <= a < |s.ids| && s.ids[a] == y;
    var b :| 0 <= b < |s.ids| && s.ids[b] == x;
    assert a <= b;
  }

  lemma FinishedIsSorted(edges: seq<Edge>, start: string, s: Search)
    requires Finished(edges, start, s)
    ensures VisitedInv(s)
  {
    SearchingKeepsInv(edges, start, s);
  }

  lemma PathEndIsFound(edges: seq<Edge>, start: string, path: seq<string>, s: Search, d: nat, y: string)
    requires Finished(edges, start, s) && IsShortest(edges, start, path) && d + 1 == |path| && y == path[d]
    ensures y in s.depth && s.depth[y] <= d
  {
    FinishedSearch(edges, start, s);
    assert IsDistance(edges, start, path[d], d);
    WalksAreFound(edges, start, s.ids, s.depth, y, d);
  }

  lemma FinishedIsLed(edges: seq<Edge>, start: string, path: seq<string>, s: Search)
    requires Finished(edges, start, s) && IsShortest(edges, start, path) && PathFirst(edges, path, |path|)
    ensures LeadsVisited(s, path)
  {
    var n: nat :| After(edges, start, n, s);
    PathLeads(edges, start, path, n, s);
  }

  /** The search along a path that comes first meets the path's end before anything as far away. */
  lemma PathEndIsFirst(edges: seq<Edge>, start: string, path: seq<string>, s: Search, x: string)
    requires Finished(edges, start, s) && IsShortest(edges, start, path) && PathFirst(edges, path, |path|)
    requires x in s.depth && |path| - 1 <= s.depth[x]
    ensures NotAfter(s.ids, path[|path| - 1], x)
  {
    var d, y := |path| - 1, path[|path| - 1];
    FinishedIsSorted(edges, start, s);
    FinishedIsLed(edges, start, path, s);
    if s.depth[x] > d {
      PathEndIsFound(edges, start, path, s, d, y);
      NearerIsEarlier(s, x, y);
    }
  }

  /** An edge that does not lead strictly farther runs backward for some listing of the same edges. */
  lemma SomeListingRunsItBackward(g: Graph, x: string, y: string) returns (listed: seq<Edge>, ordered: seq<Node>)
    requires Start(g.nodes) != "" && HasEdge(g.edges, x, y) && x in ById(g.nodes) && y in ById(g.nodes)
    requires Reachable(g.edges, Start(g.nodes), x) && !LeadsFarther(g.edges, Start(g.nodes), x, y)
    ensures multiset(listed) == multiset(g.edges) && IsOrder(Graph(g.nodes, listed), ordered)
    ensures RunsBackward(ordered, x, y)
  {
    var start := Start(g.nodes);
    var n: nat :| ReachIn(g.edges, start, y, n) && forall m: nat :: m < n ==> !ReachIn(g.edges, start, x, m);
    var d := LeastWalk(g.edges, start, y, n);
    var path := ShortestPath(g.edges, start, y, d);
    ShortestIsDistinct(g.edges, start, path);
    listed := PathCanComeFirst(g.edges, path, d);
    SameShortest(g.edges, listed, start, path);
    var first := FirstTurn(listed, start);
    var s := SearchEnds(listed, start, first);
    ordered := Known(ById(g.nodes), s.ids);
    FinishedSearch(listed, start, s);
    SameMembers(g.edges, listed);
    var m: nat :| ReachIn(g.edges, start, x, m);
    SameWalks(g.edges, listed, start, x, m);
    WalksAreFound(listed, start, s.ids, s.depth, x, m);
    SameWalks(listed, g.edges, start, x, s.depth[x]);
    PathEndIsFirst(listed, start, path, s, x);
    KnownNotAfter(ById(g.nodes), s.ids, x, y);
  }

  lemma {:induction false} LeastWalk(edges: seq<Edge>, from: string, to: string, n: nat) returns (d: nat)
    requires ReachIn(edges, from, to, n)
    ensures d <= n && IsDistance(edges, from, to, d)
  {
    if m: nat :| m < n && ReachIn(edges, from, to, m) {
      d := LeastWalk(edges, from, to, m);
    } else {
      d := n;
    }
  }

  /** However the edges are listed, every edge between nodes that run has its source run first. */
  ghost predicate AlwaysForward(g: Graph) {
    forall listed: seq<Edge>, ordered: seq<Node> ::
      multiset(listed) == multiset(g.edges) && IsOrder(Graph(g.nodes, listed), ordered)
      ==> forall e :: e in g.edges ==> !RunsBackward(ordered, e.source, e.target)
  }

  /** Every edge between known ids, out of a reachable one, leads strictly farther from the trigger. */
  ghost predicate AllFarther(g: Graph) {
    forall e :: e in g.edges ==> FartherIfRun(g, e)
  }

  ghost predicate FartherIfRun(g: Graph, e: Edge) {
    (e.source in ById(g.nodes) && e.target in ById(g.nodes) && Reachable(g.edges, Start(g.nodes), e.source))
    ==> LeadsFarther(g.edges, Start(g.nodes), e.source, e.target)
  }

  /**
   Nodes run in the order they were chained if and only if every edge out of a reachable node leads strictly
   farther.
   */
  lemma ForwardExactlyWhen(g: Graph)
    requires Start(g.nodes) != ""
    ensures AlwaysForward(g) <==> AllFarther(g)
  {
    if AllFarther(g) {
      forall listed: seq<Edge>, ordered: seq<Node>, e |
        multiset(listed) == multiset(g.edges) && IsOrder(Graph(g.nodes, listed), ordered) && e in g.edges
        ensures !RunsBackward(ordered, e.source, e.target)
      {
        assert FartherIfRun(g, e);
        ForwardWhenFarther(g, listed, ordered, e);
      }
    } else {
      var e :| e in g.edges && !FartherIfRun(g, e);
      assert HasEdge(g.edges, e.source, e.target);
      var listed, ordered := SomeListingRunsItBackward(g, e.source, e.target);
    }
  }

  lemma ForwardWhenFarther(g: Graph, listed: seq<Edge>, ordered: seq<Node>, e: Edge)
    requires Start(g.nodes) != "" && multiset(listed) == multiset(g.edges) && IsOrder(Graph(g.nodes, listed), ordered)
    requires FartherIfRun(g, e)
    ensures !RunsBackward(ordered, e.source, e.target)
  {
    var start, relisted := Start(g.nodes), Graph(g.nodes, listed);
    SameMembers(g.edges, listed);
    OrderIsExactlyTheReachableNodes(relisted, ordered);
    forall j: nat, k: nat | k <= j < |ordered| ensures !(ordered[j].id == e.source && ordered[k].id == e.target) {
      if ordered[j].id == e.source && ordered[k].id == e.target {
        assert Contains(ordered, e.source) && Contains(ordered, e.target);
        SameReach(listed, g.edges, start, e.source);
        SameFarther(g.edges, listed, start, e.source, e.target);
        FartherRunsLater(relisted, ordered, j, k);
      }
    }
  }

  lemma SameReach(xs: seq<Edge>, ys: seq<Edge>, from: string, to: string)
    requires (forall e :: e in xs <==> e in ys) && Reachable(xs, from, to)
    ensures Reachable(ys, from, to)
  {
    var n: nat :| ReachIn(xs, from, to, n);
    SameWalks(xs, ys, from, to, n);
  }

  lemma SameFarther(xs: seq<Edge>, ys: seq<Edge>, start: string, x: string, y: string)
    requires (forall e :: e in xs <==> e in ys) && LeadsFarther(xs, start, x, y)
    ensures LeadsFarther(ys, start, x, y)
  {
    forall n: nat | ReachIn(ys, start, y, n) ensures exists m: nat :: m < n && ReachIn(ys, start, x, m) {
      SameWalks(ys, xs, start, y, n);
      var m: nat :| m < n && ReachIn(xs, start, x, m);
      SameWalks(xs, ys, start, x, m);
    }
  }
}
