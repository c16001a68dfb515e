/** What holds of every run of every graph, whatever the servers answer. */
module ExecutorRuns {
  import opened Wrappers
  import opened Text
  import opened EventMatching
  import opened WorkflowGraph
  import opened GraphOrder
  import opened FileSpace
  import opened Executor
  import opened FlowValidation
  import T = Template

  // ---- records -------------------------------------------------------------------------------------

  /**
   Records are honest prefixes: results belong to the first nodes of the order that are no
   triggers, only the last can be a failure, and the run counts as succeeded if and only if
   every such node has a result and none failed.
   */
  lemma HonestRecord(ordered: seq<Node>, weather: nat -> Weather, states: seq<State>, record: Record)
    requires IsRun(ordered, weather, states, record)
    ensures var results, tasks := record.results, Tasks(ordered);
      && |results| <= |tasks| && |states| == |results| + 1
      && (forall k :: 0 <= k < |results| ==> results[k].nodeID == tasks[k].id)
      && (forall k :: 0 <= k < |results| && !results[k].succeeded ==> k == |results| - 1)
      && (record.succeeded <==> |results| == |tasks| && forall k :: 0 <= k < |results| ==> results[k].succeeded)
  {
    var results, tasks := record.results, Tasks(ordered);
    forall k: nat | k < |results| ensures results[k].nodeID == tasks[k].id {
      assert DidAt(tasks, weather, states, results, k);
    }
  }

  function IsTask(): Node -> bool {
    (n: Node) => !n.nodeType.Trigger?
  }

  function Itself(): Node -> Node {
    (n: Node) => n
  }

  /** The nodes to run are those that are no triggers, in their order. */
  lemma {:induction false} TasksInOrder(ordered: seq<Node>)
    ensures Chosen(ordered, IsTask(), Itself(), Tasks(ordered))
  {
    if ordered == [] {
      ChosenNone(IsTask(), Itself());
    } else {
      var n := |ordered| - 1;
      TasksInOrder(ordered[..n]);
      ChosenStep(ordered, IsTask(), Itself(), Tasks(ordered[..n]),
                 if IsTask()(ordered[n]) then [ordered[n]] else []);
    }
  }

  lemma TasksAreTheOthers(ordered: seq<Node>)
    ensures forall n :: n in Tasks(ordered) <==> n in ordered && !n.nodeType.Trigger?
  {
    TasksInOrder(ordered);
    ChosenMembers(ordered, IsTask(), Itself(), Tasks(ordered));
    assert forall n: Node :: IsTask()(n) ==> Itself()(n) == n;
  }

  predicate HasResult(record: Record, id: string) {
    exists k :: 0 <= k < |record.results| && record.results[k].nodeID == id
  }

  /** A succeeded run has a result for exactly the known nodes reachable from the trigger, other triggers aside. */
  lemma SucceededRunsCoverTheGraph(g: Graph, ordered: seq<Node>, weather: nat -> Weather, states: seq<State>,
                                   record: Record, id: string)
    requires IsOrder(g, ordered) && Start(g.nodes) != "" && IsRun(ordered, weather, states, record) && record.succeeded
    ensures HasResult(record, id) <==>
      id in ById(g.nodes) && !ById(g.nodes)[id].nodeType.Trigger? && Reachable(g.edges, Start(g.nodes), id)
  {
    HonestRecord(ordered, weather, states, record);
    TasksAreTheOthers(ordered);
    OrderIsExactlyTheReachableNodes(g, ordered);
    var tasks := Tasks(ordered);
    if HasResult(record, id) {
      var k: nat :| k < |record.results| && record.results[k].nodeID == id;
      assert tasks[k] in tasks;
      assert Contains(ordered, id);
    }
    if Contains(ordered, id) && !ById(g.nodes)[id].nodeType.Trigger? {
      var j :| 0 <= j < |ordered| && ordered[j].id == id;
      assert ordered[j] in ordered && ordered[j] in tasks;
      var k :| 0 <= k < |tasks| && tasks[k] == ordered[j];
      assert record.results[k].nodeID == id;
    }
  }

  // ---- the file a run is about ---------------------------------------------------------------------

  /** `currentPath` names, up to slashes at its ends, the file with this id, and its content is this one. */
  predicate Names(s: State, id: nat, content: string) {
    var path := TrimSlashes(s.currentPath);
    path in s.space.files && s.space.files[path].id == id && s.space.files[path].content == content
  }

  predicate Holds(space: Space, id: nat, content: string) {
    exists p :: p in space.files && space.files[p].id == id && space.files[p].content == content
  }

  // ---- what one node can do to the space ---------------------------------------------------------------

  datatype Change =
    | Nothing
    | MoveTo(dst: string)
    | CopyTo(dst: string)
    | TagWith(tag: string)
    | CommentWith(text: string)

  function Changed(space: Space, path: string, c: Change): Option<Space> {
    match c
    case Nothing => Some(space)
    case MoveTo(dst) => Moved(space, path, dst)
    case CopyTo(dst) => Copied(space, path, dst)
    case TagWith(tag) => Tagged(space, path, tag)
    case CommentWith(text) => Written(space, SidecarPath(path), text)
  }

  /** What a lost answer looks like from the outside. */
  predicate AnswerLost(node: Node, w: Weather, succeeded: bool) {
    && !succeeded && w.outcome.Lost?
    && node.nodeType.Action? && (node.data.actionType.Move? || node.data.actionType.Rename?)
  }

  /** The step changed the space by `c`, and the path follows a move that it knows of. */
  predicate Explains(c: Change, node: Node, w: Weather, s: State, after: State, succeeded: bool) {
    && Changed(s.space, s.currentPath, c) == Some(after.space)
    && after.currentPath == (if c.MoveTo? && succeeded then c.dst else s.currentPath)
    && (c.MoveTo? && !succeeded ==> AnswerLost(node, w, succeeded))
  }

  lemma CallChange(s: State, call: Call, c: Change, w: Weather, key: string, value: string) returns (done: Change)
    ensures var e := CallEffect(s, call, Changed(s.space, s.currentPath, c), w, key, value);
      && Changed(s.space, s.currentPath, done) == Some(e.after.space) && (done == c || done == Nothing)
      && e.after.currentPath == s.currentPath && (done != Nothing && !e.ok ==> w.outcome.Lost?)
      && (e.ok ==> done == c)
  {
    done := if Changed(s.space, s.currentPath, c).None? || w.outcome.Refused? then Nothing else c;
  }

  lemma ActionChange(node: Node, first: string, second: string, w: Weather, s: State) returns (c: Change)
    requires node.nodeType.Action?
    ensures var e := ActionEffect(node.data.actionType, first, second, w, s); Explains(c, node, w, s, e.after, e.ok)
  {
    c := Nothing;
    var t, path := node.data.actionType, s.currentPath;
    if first != "" && path != "" {
      match t {
        case Tag => c := CallChange(s, AssignTag(path, first), TagWith(first), w, "tag.output", first);
        case Comment => c := CallChange(s, PutComment(path, first), CommentWith(w.text), w, "comment.output", first);
        case Move =>
          var dst := DestinationIn(first, path);
          c := CallChange(s, MoveFile(path, dst), MoveTo(dst), w, "move.output", dst);
        case Copy =>
          var dst := DestinationIn(first, path);
          c := CallChange(s, CopyFile(path, dst), CopyTo(dst), w, "copy.output", dst);
        case Rename =>
          var dst := RenamedPath(path, first);
          c := CallChange(s, MoveFile(path, dst), MoveTo(dst), w, "rename.output", dst);
        case _ =>
      }
    }
  }

  lemma EffectChange(node: Node, first: string, second: string, w: Weather, s: State) returns (c: Change)
    ensures var e := NodeEffect(node, first, second, w, s); Explains(c, node, w, s, e.after, e.ok)
  {
    if node.nodeType.Action? {
      c := ActionChange(node, first, second, w, s);
    } else {
      c := Nothing;
    }
  }

  lemma StepChange(node: Node, w: Weather, s: State, after: State, result: NodeResult) returns (c: Change)
    requires Did(node, w, s, after, result)
    ensures Explains(c, node, w, s, after, result.succeeded)
  {
    var first, second :|
      && T.IsRendering(Templates(node).0, s.vars, first) && T.IsRendering(Templates(node).1, s.vars, second)
      && NodeEffect(node, first, second, w, s) == Effect(after, result.succeeded, result.output);
    c := EffectChange(node, first, second, w, s);
  }

  /** The k-th step of a run and the change it made. */
  lemma RunStep(ordered: seq<Node>, weather: nat -> Weather, states: seq<State>, record: Record, k: nat)
    returns (c: Change, node: Node, s: State, after: State, ok: bool)
    requires IsRun(ordered, weather, states, record) && k < |record.results|
    ensures node == Tasks(ordered)[k] && s == states[k] && after == states[k + 1] && ok == record.results[k].succeeded
    ensures Explains(c, node, weather(k), s, after, ok)
  {
    node, s, after, ok := Tasks(ordered)[k], states[k], states[k + 1], record.results[k].succeeded;
    assert DidAt(Tasks(ordered), weather, states, record.results, k);
    c := StepChange(node, weather(k), s, after, record.results[k]);
  }

  // ---- the file itself -----------------------------------------------------------------------------------

  lemma ChangeKeepsFile(space: Space, path: string, c: Change, after: Space)
    requires ValidSpace(space) && TrimSlashes(path) in space.files && Changed(space, path, c) == Some(after)
    ensures ValidSpace(after)
    ensures var src := TrimSlashes(path);
      var dst := if c.MoveTo? then TrimSlashes(c.dst) else src;
      && dst in after.files && after.files[dst].id == space.files[src].id
      && after.files[dst].content == space.files[src].content
      && (c.MoveTo? ==> src !in after.files)
  {
    SidecarIsElsewhere(path);
  }

  /**
   One node: the path goes on naming the file if and only if no move was carried out behind the
   executor's back; the file is in the space either way.
   */
  lemma StepFollows(node: Node, w: Weather, s: State, after: State, succeeded: bool, c: Change, id: nat,
                    content: string)
    requires Explains(c, node, w, s, after, succeeded) && ValidSpace(s.space) && Names(s, id, content)
    ensures ValidSpace(after.space) && Holds(after.space, id, content)
    ensures Names(after, id, content) <==> !(AnswerLost(node, w, succeeded) && c.MoveTo?)
  {
    ChangeKeepsFile(s.space, s.currentPath, c, after.space);
  }

  /**
   The run follows its file: begun on an existing file, `currentPath` names that very file, its
   content unchanged, before every node and at the end - but for a last node whose MOVE was
   carried out and reported as failed; even then the file is still in the space.
   */
  lemma {:induction false} RunFollowsItsFile(ordered: seq<Node>, weather: nat -> Weather, states: seq<State>,
                                             record: Record,
                                             id: nat, content: string, k: nat)
    requires IsRun(ordered, weather, states, record) && k <= |record.results|
    requires ValidSpace(states[0].space) && Names(states[0], id, content)
    ensures ValidSpace(states[k].space) && Holds(states[k].space, id, content)
    ensures k < |record.results| ==> Names(states[k], id, content)
    ensures Names(states[k], id, content)
      || (k > 0 && AnswerLost(Tasks(ordered)[k - 1], weather(k - 1), record.results[k - 1].succeeded))
  {
    if k > 0 {
      RunFollowsItsFile(ordered, weather, states, record, id, content, k - 1);
      var c, node, s, after, ok := RunStep(ordered, weather, states, record, k - 1);
      StepFollows(node, weather(k - 1), s, after, ok, c, id, content);
    }
  }

  /** A move or copy leads into the given folder ... */
  lemma DestinationsAreInFolder(path: string, folder: string)
    requires TrimSlashes(path) != ""
    ensures DirName(DestinationIn(folder, path)) == TrimSlashes(folder)
  {
    BaseIsName(path);
    FolderOfPlaced(folder, BaseName(path));
  }

  /** ... and keeps the file's name. */
  lemma DestinationsKeepTheName(path: string, folder: string)
    requires TrimSlashes(path) != ""
    ensures BaseName(DestinationIn(folder, path)) == BaseName(path)
  {
    BaseIsName(path);
    BaseOfJoin(TrimRightSlashes(folder), BaseName(path));
  }

  /** A rename to a plain name keeps the folder ... */
  lemma RenamesKeepTheFolder(path: string, newName: string)
    requires TrimSlashes(path) != "" && IsName(newName)
    ensures DirName(RenamedPath(path, newName)) == DirName(path)
  {
    FolderOfJoin(path, newName);
  }

  /** ... and gives the file that name. */
  lemma RenamesGiveTheName(path: string, newName: string)
    requires TrimSlashes(path) != "" && IsName(newName)
    ensures BaseName(RenamedPath(path, newName)) == newName
  {
    BaseOfJoin(DirName(path), newName);
  }

  // ---- all the other files ---------------------------------------------------------------------------

  /** `p` is another file than the one the run is about, and no comment sidecar. */
  predicate Bystander(s: State, p: string, f: File) {
    p in s.space.files && s.space.files[p] == f && p != TrimSlashes(s.currentPath) && !IsSidecar(p)
  }

  lemma StepSparesBystanders(node: Node, w: Weather, s: State, after: State, ok: bool, c: Change, p: string, f: File)
    requires Explains(c, node, w, s, after, ok) && Bystander(s, p, f)
    ensures Bystander(after, p, f)
  {
    SidecarIsElsewhere(s.currentPath);
  }

  /** Nothing else is lost: every other user file keeps its path, content and tags throughout, answers lost or not. */
  lemma {:induction false} RunSparesBystanders(ordered: seq<Node>, weather: nat -> Weather, states: seq<State>,
                                               record: Record,
                                               p: string, f: File, k: nat)
    requires IsRun(ordered, weather, states, record) && k <= |record.results| && Bystander(states[0], p, f)
    ensures Bystander(states[k], p, f)
  {
    if k > 0 {
      RunSparesBystanders(ordered, weather, states, record, p, f, k - 1);
      var c, node, s, after, ok := RunStep(ordered, weather, states, record, k - 1);
      StepSparesBystanders(node, weather(k - 1), s, after, ok, c, p, f);
    }
  }

  /** Where a file comes from: it was there before, it keeps a comment list, or it has the content of the run's file. */
  predicate Accounted(start: Space, content: string, p: string, f: File) {
    (p in start.files && start.files[p] == f) || IsSidecar(p) || f.content == content
  }

  predicate AllAccounted(start: Space, content: string, space: Space) {
    forall p :: p in space.files ==> Accounted(start, content, p, space.files[p])
  }

  lemma ChangeInventsNothing(s: State, c: Change, after: Space, start: Space, id: nat, content: string)
    requires AllAccounted(start, content, s.space) && Names(s, id, content)
      && Changed(s.space, s.currentPath, c) == Some(after)
    ensures AllAccounted(start, content, after)
  {
    SidecarIsElsewhere(s.currentPath);
  }

  /** Nothing is made up: whatever a run leaves behind is old, a comment list, or the run's file or a copy of it. */
  lemma {:induction false} RunInventsNothing(ordered: seq<Node>, weather: nat -> Weather, states: seq<State>,
                                             record: Record,
                                             id: nat, content: string, k: nat)
    requires IsRun(ordered, weather, states, record) && k <= |record.results|
    requires ValidSpace(states[0].space) && Names(states[0], id, content)
    ensures AllAccounted(states[0].space, content, states[k].space)
  {
    if k > 0 {
      RunInventsNothing(ordered, weather, states, record, id, content, k - 1);
      RunFollowsItsFile(ordered, weather, states, record, id, content, k - 1);
      var c, node, s, after, ok := RunStep(ordered, weather, states, record, k - 1);
      ChangeInventsNothing(s, c, after.space, states[0].space, id, content);
    }
  }

  // ---- what later nodes can refer to -------------------------------------------------------------------

  /** The variable that a node sets when it succeeds. */
  function OutputKey(node: Node): Option<string> {
    match node.nodeType
    case Llm => Some("llm.output")
    case ExtractText => Some(if node.data.outputVariable == "" then "file.text" else node.data.outputVariable)
    case Action => ActionKey(node.data.actionType)
    case _ => None
  }

  function ActionKey(actionType: ActionType): Option<string> {
    match actionType
    case Tag => Some("tag.output")
    case Comment => Some("comment.output")
    case Move => Some("move.output")
    case Copy => Some("copy.output")
    case Rename => Some("rename.output")
    case Notify => Some("notify.output")
    case UnknownAction(_) => None
  }

  predicate SetsOne(key: Option<string>, value: string, before: map<string, string>, after: map<string, string>,
                    ok: bool) {
    if ok then key.Some? && after == before[key.value := value] else after == before
  }

  lemma CallSetsOne(s: State, call: Call, change: Option<Space>, w: Weather, key: string, value: string)
    ensures var e := CallEffect(s, call, change, w, key, value);
      SetsOne(Some(key), e.output, s.vars, e.after.vars, e.ok)
  {
  }

  lemma EffectSetsOne(node: Node, first: string, second: string, w: Weather, s: State)
    ensures var e := NodeEffect(node, first, second, w, s);
      SetsOne(OutputKey(node), if node.nodeType.ExtractText? then w.text else e.output, s.vars, e.after.vars, e.ok)
  {
    if node.nodeType.Action? {
      var path := s.currentPath;
      if first != "" && (path != "" || node.data.actionType.Notify?) {
        match node.data.actionType {
          case Tag => CallSetsOne(s, AssignTag(path, first), Tagged(s.space, path, first), w, "tag.output", first);
          case Comment => CallSetsOne(s, PutComment(path, first), Written(s.space, SidecarPath(path), w.text), w,
                                      "comment.output", first);
          case Move =>
            var dst := DestinationIn(first, path);
            CallSetsOne(s, MoveFile(path, dst), Moved(s.space, path, dst), w, "move.output", dst);
          case Copy =>
            var dst := DestinationIn(first, path);
            CallSetsOne(s, CopyFile(path, dst), Copied(s.space, path, dst), w, "copy.output", dst);
          case Rename =>
            var dst := RenamedPath(path, first);
            CallSetsOne(s, MoveFile(path, dst), Moved(s.space, path, dst), w, "rename.output", dst);
          case Notify => CallSetsOne(s, Send(first, second), Some(s.space), w, "notify.output", "sent");
          case UnknownAction(_) =>
        }
      }
    }
  }

  /**
   A success sets its node's variable - to the reported output, or to the extracted text - and no other; a
   failure sets none.
   */
  lemma StepSetsOneVariable(node: Node, w: Weather, s: State, after: State, result: NodeResult)
    requires Did(node, w, s, after, result)
    ensures SetsOne(OutputKey(node), if node.nodeType.ExtractText? then w.text else result.output,
                    s.vars, after.vars, result.succeeded)
  {
    var first, second :|
      && T.IsRendering(Templates(node).0, s.vars, first) && T.IsRendering(Templates(node).1, s.vars, second)
      && NodeEffect(node, first, second, w, s) == Effect(after, result.succeeded, result.output);
    EffectSetsOne(node, first, second, w, s);
  }

  /**
   A succeeded node's output stays under its variable until another node with that variable
   succeeds: a copy and a move in one workflow can be referred to side by side.
   */
  lemma {:induction false} LatestOutputIsKept(ordered: seq<Node>, weather: nat -> Weather, states: seq<State>,
                                              record: Record,
                                              k: nat, j: nat, key: string)
    requires IsRun(ordered, weather, states, record) && k < j <= |record.results|
    requires record.results[k].succeeded && OutputKey(Tasks(ordered)[k]) == Some(key)
    requires forall i :: k < i < j ==> OutputKey(Tasks(ordered)[i]) != Some(key)
    ensures key in states[j].vars && states[j].vars[key] == ValueSet(ordered, weather, record, k)
    decreases j
  {
    var i: nat := j - 1;
    RunSetsOneVariable(ordered, weather, states, record, i);
    if k < i {
      LatestOutputIsKept(ordered, weather, states, record, k, i, key);
    }
  }

  /** The value that the k-th node of a run gives to its variable. */
  function ValueSet(ordered: seq<Node>, weather: nat -> Weather, record: Record, k: nat): string
    requires k < |record.results| <= |Tasks(ordered)|
  {
    if Tasks(ordered)[k].nodeType.ExtractText? then weather(k).text else record.results[k].output
  }

  lemma RunSetsOneVariable(ordered: seq<Node>, weather: nat -> Weather, states: seq<State>, record: Record, k: nat)
    requires IsRun(ordered, weather, states, record) && k < |record.results|
    ensures SetsOne(OutputKey(Tasks(ordered)[k]), ValueSet(ordered, weather, record, k),
                    states[k].vars, states[k + 1].vars, record.results[k].succeeded)
  {
    assert DidAt(Tasks(ordered), weather, states, record.results, k);
    StepSetsOneVariable(Tasks(ordered)[k], weather(k), states[k], states[k + 1], record.results[k]);
  }

  /** And a token of that name renders to it, if no token begins in it; what other variables hold does not matter. */
  lemma TokenRendersToVariable(key: string, vars: map<string, string>, out: string)
    requires key in vars && T.BraceFreeKeys(vars) && T.OpensNothing(vars[key])
    ensures T.IsRendering(T.Token(key), vars, out) <==> out == vars[key]
  {
    var p := T.Name(key);
    T.RenderingIsSubstitution([p], vars, out);
    T.PrintedOne(p);
    T.FilledOne(p, vars);
    T.PrintedOne(T.Text(vars[key]));
  }

  // ---- runs without a file -----------------------------------------------------------------------------

  predicate NeedsFile(node: Node) {
    node.nodeType.Action? && IsFileDependentActionType(node.data.actionType)
  }

  lemma ActionWithoutAFile(actionType: ActionType, first: string, second: string, w: Weather, s: State)
    requires s.currentPath == ""
    ensures var e := ActionEffect(actionType, first, second, w, s);
      && e.after.currentPath == "" && e.after.space == s.space && (IsFileDependentActionType(actionType) ==> !e.ok)
  {
  }

  lemma EffectWithoutAFile(node: Node, first: string, second: string, w: Weather, s: State)
    requires s.currentPath == ""
    ensures var e := NodeEffect(node, first, second, w, s);
      && e.after.currentPath == "" && e.after.space == s.space && (NeedsFile(node) ==> !e.ok)
  {
    if node.nodeType.Action? {
      ActionWithoutAFile(node.data.actionType, first, second, w, s);
    }
  }

  lemma StepWithoutAFile(node: Node, w: Weather, s: State, after: State, result: NodeResult)
    requires Did(node, w, s, after, result) && s.currentPath == ""
    ensures after.currentPath == "" && after.space == s.space && (NeedsFile(node) ==> !result.succeeded)
  {
    var first, second :|
      && T.IsRendering(Templates(node).0, s.vars, first) && T.IsRendering(Templates(node).1, s.vars, second)
      && NodeEffect(node, first, second, w, s) == Effect(after, result.succeeded, result.output);
    EffectWithoutAFile(node, first, second, w, s);
  }

  /** Begun without a path, a run never has one, never touches the space, and every file action in it fails. */
  lemma {:induction false} RunsWithoutAFile(ordered: seq<Node>, weather: nat -> Weather, states: seq<State>,
                                            record: Record, k: nat)
    requires IsRun(ordered, weather, states, record) && k <= |record.results| && states[0].currentPath == ""
    ensures states[k].currentPath == "" && states[k].space == states[0].space
    ensures forall j :: 0 <= j < k && NeedsFile(Tasks(ordered)[j]) ==> !record.results[j].succeeded
  {
    if k > 0 {
      RunsWithoutAFile(ordered, weather, states, record, k - 1);
      var j: nat := k - 1;
      assert DidAt(Tasks(ordered), weather, states, record.results, j);
      StepWithoutAFile(Tasks(ordered)[j], weather(j), states[j], states[k], record.results[j]);
    }
  }

  lemma ReachableNodesAreTasks(g: Graph, t: Node, n: Node, ordered: seq<Node>)
    requires OneTrigger(g, t) && t.id != "" && n in g.nodes && !n.nodeType.Trigger? && Reachable(g.edges, t.id, n.id)
    requires IsOrder(g, ordered)
    ensures n in Tasks(ordered) && forall m :: m in Tasks(ordered) && m.id == n.id ==> m == n
  {
    OneTriggerStarts(g.nodes, t);
    OrderIsExactlyTheReachableNodes(g, ordered);
    UniqueIdsById(g.nodes, n);
    TasksAreTheOthers(ordered);
    assert Contains(ordered, n.id);
    var i :| 0 <= i < |ordered| && ordered[i].id == n.id;
    assert ordered[i] in ordered;
  }

  /**
   What the editor rules out cannot succeed: if the backward search finds a schedule trigger for
   a file action, then in a run begun without a path - as every scheduled run is - that node
   gets no successful result, and the run as a whole fails.
   */
  lemma FlaggedActionsFailTheirRuns(g: Graph, t: Node, n: Node, answer: Option<TriggerType>,
                                    ordered: seq<Node>, weather: nat -> Weather, states: seq<State>, record: Record)
    requires OneTrigger(g, t) && t.id != "" && n in g.nodes && NeedsFile(n)
    requires IsUpstreamType(g, n.id, answer) && answer == Some(Schedule)
    requires IsOrder(g, ordered) && IsRun(ordered, weather, states, record) && states[0].currentPath == ""
    ensures !record.succeeded
    ensures forall r :: r in record.results && r.nodeID == n.id ==> !r.succeeded
  {
    var results, tasks := record.results, Tasks(ordered);
    AnswerIsReachability(g, t, n.id, answer);
    ReachableNodesAreTasks(g, t, n, ordered);
    HonestRecord(ordered, weather, states, record);
    RunsWithoutAFile(ordered, weather, states, record, |results|);
    var at :| 0 <= at < |tasks| && tasks[at] == n;
    forall k | 0 <= k < |results| && results[k].nodeID == n.id ensures !results[k].succeeded {
      assert tasks[k] in tasks;
    }
  }
}
