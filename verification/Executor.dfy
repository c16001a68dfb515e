/**
 The executor: a stop-at-first-failure interpreter that runs a workflow's nodes in graph order
 and follows one file through moves, copies and renames.
 */
module Executor {
  import opened Wrappers
  import opened Text
  import opened WorkflowGraph
  import opened GraphOrder
  import opened FileSpace
  import T = Template

  /** Calls to the outside, in the order they are made. */
  datatype Call =
    | Complete(prompt: string)
    | AssignTag(path: string, tag: string)
    | PutComment(path: string, text: string)
    | MoveFile(src: string, dst: string)
    | CopyFile(src: string, dst: string)
    | Send(target: string, message: string)

  /** What a node meets: how its call ends, and the text that an LLM, an extraction or a comment list yields. */
  datatype Weather = Weather(outcome: Outcome, text: string)

  datatype State = State(vars: map<string, string>, currentPath: string, space: Space, calls: seq<Call>)

  datatype NodeResult = NodeResult(nodeID: string, succeeded: bool, output: string)

  datatype Record = Record(succeeded: bool, results: seq<NodeResult>)

  /** A node's effect: the state it leaves, and whether it succeeded with which output. */
  datatype Effect = Effect(after: State, ok: bool, output: string)

  // ---- one node --------------------------------------------------------------------------------------

  function Failed(s: State): Effect {
    Effect(s, false, "")
  }

  function Succeeded(s: State, key: string, value: string, output: string): Effect {
    Effect(s.(vars := s.vars[key := value]), true, output)
  }

  function Decimal(n: nat): string {
    (if n < 10 then "" else Decimal(n / 10)) + ["0123456789"[n % 10]]
  }

  function LlmEffect(prompt: string, w: Weather, s: State): Effect {
    if prompt == "" then Failed(s)
    else
      var called := s.(calls := s.calls + [Complete(prompt)]);
      if w.outcome.Confirmed? then Succeeded(called, "llm.output", w.text, w.text) else Failed(called)
  }

  /** Extraction makes no call; all that matters is whether the document can be read. */
  function ExtractEffect(node: Node, w: Weather, s: State): Effect {
    var outputVar := if node.data.outputVariable == "" then "file.text" else node.data.outputVariable;
    if !w.outcome.Confirmed? then Failed(s)
    else Succeeded(s, outputVar, w.text, Decimal(|w.text|) + " characters extracted")
  }

  /** A call that may change the space. */
  function CallEffect(s: State, call: Call, change: Option<Space>, w: Weather, key: string, value: string): Effect {
    var (space, ok) := Answered(s.space, change, w.outcome);
    var called := s.(space := space, calls := s.calls + [call]);
    if ok then Succeeded(called, key, value, value) else Failed(called)
  }

  function FollowedTo(e: Effect, path: string): Effect {
    if e.ok then e.(after := e.after.(currentPath := path)) else e
  }

  function DestinationIn(folder: string, currentPath: string): string {
    TrimRightSlashes(folder) + "/" + BaseName(currentPath)
  }

  function RenamedPath(currentPath: string, newName: string): string {
    DirName(currentPath) + "/" + newName
  }

  /** The templates an action renders: the first it always needs, the second only a notification has. */
  function ParamNames(actionType: ActionType): (string, string) {
    match actionType
    case Tag => ("tag", "")
    case Comment => ("comment", "")
    case Move => ("destination", "")
    case Copy => ("destination", "")
    case Rename => ("newName", "")
    case Notify => ("target", "message")
    case UnknownAction(_) => ("", "")
  }

  function Param(node: Node, key: string): string {
    if key in node.data.params then node.data.params[key] else ""
  }

  /** An action with its parameters rendered. */
  function ActionEffect(actionType: ActionType, first: string, second: string, w: Weather, s: State): Effect {
    var path := s.currentPath;
    if actionType.UnknownAction? || first == "" || (path == "" && !actionType.Notify?) then Failed(s)
    else match actionType
      case Tag => CallEffect(s, AssignTag(path, first), Tagged(s.space, path, first), w, "tag.output", first)
      case Comment => CallEffect(s, PutComment(path, first), Written(s.space, SidecarPath(path), w.text), w,
                                 "comment.output", first)
      case Move =>
        var dst := DestinationIn(first, path);
        FollowedTo(CallEffect(s, MoveFile(path, dst), Moved(s.space, path, dst), w, "move.output", dst), dst)
      case Copy =>
        var dst := DestinationIn(first, path);
        CallEffect(s, CopyFile(path, dst), Copied(s.space, path, dst), w, "copy.output", dst)
      case Rename =>
        var dst := RenamedPath(path, first);
        FollowedTo(CallEffect(s, MoveFile(path, dst), Moved(s.space, path, dst), w, "rename.output", dst), dst)
      case Notify =>
        CallEffect(s, Send(first, second), Some(s.space), w, "notify.output", "sent")
  }

  function NodeEffect(node: Node, first: string, second: string, w: Weather, s: State): Effect {
    match node.nodeType
    case Llm => LlmEffect(first, w, s)
    case ExtractText => ExtractEffect(node, w, s)
    case Action => ActionEffect(node.data.actionType, first, second, w, s)
    case Trigger => Failed(s)
    case UnknownType(_) => Failed(s)
  }

  /** The raw templates a node renders. */
  function Templates(node: Node): (string, string) {
    match node.nodeType
    case Llm => (node.data.prompt, "")
    case Action =>
      var (a, b) := ParamNames(node.data.actionType);
      (Param(node, a), Param(node, b))
    case _ => ("", "")
  }

  /** One node's turn, for some rendering of its templates. */
  ghost predicate Did(node: Node, w: Weather, s: State, after: State, result: NodeResult) {
    exists first, second ::
      && T.IsRendering(Templates(node).0, s.vars, first) && T.IsRendering(Templates(node).1, s.vars, second)
      && NodeEffect(node, first, second, w, s) == Effect(after, result.succeeded, result.output)
      && result.nodeID == node.id
  }

  // ---- a run -----------------------------------------------------------------------------------------

  function Tasks(ordered: seq<Node>): seq<Node> {
    if ordered == [] then []
    else
      var n := ordered[|ordered| - 1];
      Tasks(ordered[..|ordered| - 1]) + if n.nodeType.Trigger? then [] else [n]
  }

  /** The target file is read up front if there is one; a failed read only leaves its variables unset. */
  function Begin(resourcePath: string, readOk: bool, space: Space, calls: seq<Call>): State {
    var path := TrimSlashes(resourcePath);
    State(if resourcePath != "" && readOk && path in space.files
          then map["file.name" := BaseName(resourcePath), "file.content" := space.files[path].content] else map[],
          resourcePath, space, calls)
  }

  ghost predicate DidAt(tasks: seq<Node>, weather: nat -> Weather, states: seq<State>, results: seq<NodeResult>, k: nat)
    requires k < |results| <= |tasks| && |states| == |results| + 1
  {
    Did(tasks[k], weather(k), states[k], states[k + 1], results[k])
  }

  /** The states before, between and after the nodes that got a result. */
  ghost predicate IsTrace(tasks: seq<Node>, weather: nat -> Weather, states: seq<State>, results: seq<NodeResult>) {
    && |states| == |results| + 1 && |results| <= |tasks|
    && forall k: nat :: k < |results| ==> DidAt(tasks, weather, states, results, k)
  }

  /** The loop goes on after a success and leaves at the first failure. */
  ghost predicate IsRun(ordered: seq<Node>, weather: nat -> Weather, states: seq<State>, record: Record) {
    var results, tasks := record.results, Tasks(ordered);
    && IsTrace(tasks, weather, states, results)
    && (forall k :: 0 <= k < |results| - 1 ==> results[k].succeeded)
    && (|results| < |tasks| ==> results != [] && !results[|results| - 1].succeeded)
    && (record.succeeded <==> results == [] || results[|results| - 1].succeeded)
  }

  /** Some run of the graph from `first` ends with this record, this space and these calls made. */
  ghost predicate Ran(g: Graph, weather: nat -> Weather, first: State, record: Record, space: Space, calls: seq<Call>) {
    exists ordered, states: seq<State> ::
      && IsOrder(g, ordered) && IsRun(ordered, weather, states, record) && states[0] == first
      && states[|record.results|].space == space && states[|record.results|].calls == calls
  }

  /** `space` and `calls` are what the executor's clients reach. */
  class Executor {
    var space: Space
    var calls: seq<Call>

    constructor (space: Space)
      ensures this.space == space && calls == []
    {
      this.space, calls := space, [];
    }

    method ReadTarget(resourcePath: string, readOk: bool) returns (vars: map<string, string>)
      ensures vars == Begin(resourcePath, readOk, space, calls).vars
    {
      vars := map[];
      if resourcePath != "" && readOk && TrimSlashes(resourcePath) in space.files {
        vars := vars["file.name" := BaseName(resourcePath)];
        vars := vars["file.content" := space.files[TrimSlashes(resourcePath)].content];
      }
    }

    /** `weather(k)` is what the k-th node to run meets. */
    method Run(g: Graph, resourcePath: string, readOk: bool, weather: nat -> Weather)
      returns (record: Record)
      modifies this
      ensures Ran(g, weather, Begin(resourcePath, readOk, old(space), old(calls)), record, space, calls)
    {
      ghost var first := Begin(resourcePath, readOk, space, calls);
      var vars := ReadTarget(resourcePath, readOk);
      var currentPath := resourcePath;

      var nodes := OrderedNodes(g);
      ghost var now := first;
      ghost var states := [now];
      var results: seq<NodeResult> := [];
      var failed := false;
      RunBegins(nodes, weather, now);
      for i := 0 to |nodes|
        invariant !failed && Underway(nodes, i, weather, states, results)
        invariant |states| == |results| + 1 && states[0] == first
        invariant states[|results|] == now == State(vars, currentPath, space, calls)
      {
        var node := nodes[i];
        if node.nodeType.Trigger? {
          RunPasses(nodes, i, weather, states, results);
          continue;
        }
        var ok, output;
        vars, currentPath, ok, output := RunNode(node, weather(|results|), vars, currentPath);
        now := State(vars, currentPath, space, calls);
        var result := NodeResult(node.id, ok, output);
        if !ok {
          RunFails(nodes, i, weather, states, results, now, result);
          results, states := results + [result], states + [now];
          failed := true;
          break;
        }
        RunGoesOn(nodes, i, weather, states, results, now, result);
        results, states := results + [result], states + [now];
      }
      record := Record(!failed, results);
      if !failed {
        RunEnds(nodes, weather, states, results);
      }
      RunDone(g, nodes, weather, states, record);
    }

    /** The switch in Run, with runLLM and runExtractText. */
    method RunNode(node: Node, w: Weather, vars: map<string, string>, currentPath: string)
      returns (vars': map<string, string>, currentPath': string, ok: bool, output: string)
      requires !node.nodeType.Trigger?
      modifies this
      ensures Did(node, w, old(State(vars, currentPath, space, calls)), State(vars', currentPath', space, calls),
                  NodeResult(node.id, ok, output))
    {
      ghost var s := State(vars, currentPath, space, calls);
      vars', currentPath', ok, output := vars, currentPath, false, "";
      var first := T.Render(Templates(node).0, vars);
      var second := T.Render(Templates(node).1, vars);
      match node.nodeType {
        case Llm =>
          if first != "" {
            calls := calls + [Complete(first)];
            if w.outcome.Confirmed? {
              vars', ok, output := vars["llm.output" := w.text], true, w.text;
            }
          }
        case ExtractText =>
          var outputVar := node.data.outputVariable;
          if outputVar == "" {
            outputVar := "file.text";
          }
          if w.outcome.Confirmed? {
            vars', ok, output := vars[outputVar := w.text], true, Decimal(|w.text|) + " characters extracted";
          }
        case Action =>
          vars', currentPath', ok, output := RunAction(node.data.actionType, first, second, w, vars, currentPath);
        case UnknownType(_) =>
      }
      assert NodeEffect(node, first, second, w, s) == Effect(State(vars', currentPath', space, calls), ok, output);
    }

    /** One call to the outside. */
    method Perform(call: Call, change: Option<Space>, w: Weather) returns (ok: bool)
      modifies this
      ensures calls == old(calls) + [call] && (space, ok) == Answered(old(space), change, w.outcome)
    {
      calls := calls + [call];
      ok := change.Some? && w.outcome.Confirmed?;
      if change.Some? && !w.outcome.Refused? {
        space := change.value;
      }
    }

    /** A call on behalf of a node, with the variable it sets when it succeeds. */
    method PerformFor(call: Call, change: Option<Space>, w: Weather, vars: map<string, string>, key: string,
                      value: string,
                      ghost path: string)
      returns (vars': map<string, string>, ok: bool, output: string)
      modifies this
      ensures CallEffect(old(State(vars, path, space, calls)), call, change, w, key, value)
           == Effect(State(vars', path, space, calls), ok, output)
    {
      vars', output := vars, "";
      ok := Perform(call, change, w);
      if ok {
        vars', output := vars[key := value], value;
      }
    }

    /** Tag and comment. */
    method MarkFile(actionType: ActionType, first: string, w: Weather, vars: map<string, string>, currentPath: string)
      returns (vars': map<string, string>, ok: bool, output: string)
      requires (actionType.Tag? || actionType.Comment?) && first != "" && currentPath != ""
      modifies this
      ensures ActionEffect(actionType, first, "", w, old(State(vars, currentPath, space, calls)))
           == Effect(State(vars', currentPath, space, calls), ok, output)
    {
      if actionType.Tag? {
        vars', ok, output := PerformFor(AssignTag(currentPath, first), Tagged(space, currentPath, first), w,
                                        vars, "tag.output", first, currentPath);
      } else {
        vars', ok, output := PerformFor(PutComment(currentPath, first),
                                        Written(space, SidecarPath(currentPath), w.text), w,
                                        vars, "comment.output", first, currentPath);
      }
    }

    /** Move and copy; only a move takes the path along. */
    method TransferFile(actionType: ActionType, first: string, w: Weather, vars: map<string, string>,
                        currentPath: string)
      returns (vars': map<string, string>, currentPath': string, ok: bool, output: string)
      requires (actionType.Move? || actionType.Copy?) && first != "" && currentPath != ""
      modifies this
      ensures ActionEffect(actionType, first, "", w, old(State(vars, currentPath, space, calls)))
           == Effect(State(vars', currentPath', space, calls), ok, output)
    {
      currentPath' := currentPath;
      var dst := TrimRightSlashes(first) + "/" + BaseName(currentPath);
      if actionType.Move? {
        vars', ok, output := PerformFor(MoveFile(currentPath, dst), Moved(space, currentPath, dst), w,
                                        vars, "move.output", dst, currentPath);
        if ok {
          currentPath' := dst;
        }
      } else {
        vars', ok, output := PerformFor(CopyFile(currentPath, dst), Copied(space, currentPath, dst), w,
                                        vars, "copy.output", dst, currentPath);
      }
    }

    method RenameFile(newName: string, w: Weather, vars: map<string, string>, currentPath: string)
      returns (vars': map<string, string>, currentPath': string, ok: bool, output: string)
      requires newName != "" && currentPath != ""
      modifies this
      ensures ActionEffect(Rename, newName, "", w, old(State(vars, currentPath, space, calls)))
           == Effect(State(vars', currentPath', space, calls), ok, output)
    {
      currentPath' := currentPath;
      var dst := DirName(currentPath) + "/" + newName;
      vars', ok, output := PerformFor(MoveFile(currentPath, dst), Moved(space, currentPath, dst), w,
                                      vars, "rename.output", dst, currentPath);
      if ok {
        currentPath' := dst;
      }
    }

    method RunAction(actionType: ActionType, first: string, second: string, w: Weather, vars: map<string, string>,
                     currentPath: string)
      returns (vars': map<string, string>, currentPath': string, ok: bool, output: string)
      modifies this
      ensures ActionEffect(actionType, first, second, w, old(State(vars, currentPath, space, calls)))
           == Effect(State(vars', currentPath', space, calls), ok, output)
    {
      vars', currentPath', ok, output := vars, currentPath, false, "";
      if first == "" || (currentPath == "" && !actionType.Notify?) {
        return;
      }
      ghost var s := State(vars, currentPath, space, calls);
      OnlyNotifyHasASecond(actionType, first, second, w, s);
      match actionType {
        case Tag => vars', ok, output := MarkFile(actionType, first, w, vars, currentPath);
        case Comment => vars', ok, output := MarkFile(actionType, first, w, vars, currentPath);
        case Move => vars', currentPath', ok, output := TransferFile(actionType, first, w, vars, currentPath);
        case Copy => vars', currentPath', ok, output := TransferFile(actionType, first, w, vars, currentPath);
        case Rename => vars', currentPath', ok, output := RenameFile(first, w, vars, currentPath);
        case Notify =>
          vars', ok, output := PerformFor(Send(first, second), Some(space), w, vars, "notify.output", "sent",
                                          currentPath);
        case UnknownAction(_) =>
      }
    }
  }

  lemma OnlyNotifyHasASecond(actionType: ActionType, first: string, second: string, w: Weather, s: State)
    ensures !actionType.Notify?
      ==> ActionEffect(actionType, first, second, w, s) == ActionEffect(actionType, first, "", w, s)
  {
  }

  lemma TasksUpTo(nodes: seq<Node>, i: nat)
    requires i < |nodes|
    ensures Tasks(nodes[..i + 1])
      == if nodes[i].nodeType.Trigger? then Tasks(nodes[..i]) else Tasks(nodes[..i]) + [nodes[i]]
  {
    assert nodes[..i + 1][..i] == nodes[..i];
  }

  lemma RunDone(g: Graph, ordered: seq<Node>, weather: nat -> Weather, states: seq<State>, record: Record)
    requires IsOrder(g, ordered) && IsRun(ordered, weather, states, record)
    ensures var last := states[|record.results|]; Ran(g, weather, states[0], record, last.space, last.calls)
  {
  }

  lemma {:induction false} TasksArePrefix(nodes: seq<Node>, i: nat)
    requires i <= |nodes|
    ensures Tasks(nodes[..i]) <= Tasks(nodes)
    decreases |nodes| - i
  {
    if i == |nodes| {
      assert nodes[..i] == nodes;
    } else {
      TasksUpTo(nodes, i);
      TasksArePrefix(nodes, i + 1);
    }
  }

  /** The loop has gone through the first `i` nodes without a failure. */
  ghost predicate Underway(nodes: seq<Node>, i: nat, weather: nat -> Weather, states: seq<State>,
                           results: seq<NodeResult>)
    requires i <= |nodes|
  {
    exists tasks ::
      && tasks == Tasks(nodes[..i]) && IsTrace(tasks, weather, states, results) && |results| == |tasks|
      && forall k :: 0 <= k < |results| ==> results[k].succeeded
  }

  lemma RunBegins(nodes: seq<Node>, weather: nat -> Weather, s: State)
    ensures Underway(nodes, 0, weather, [s], [])
  {
    assert Tasks(nodes[..0]) == [];
  }

  lemma RunPasses(nodes: seq<Node>, i: nat, weather: nat -> Weather, states: seq<State>, results: seq<NodeResult>)
    requires i < |nodes| && nodes[i].nodeType.Trigger? && Underway(nodes, i, weather, states, results)
    ensures Underway(nodes, i + 1, weather, states, results)
  {
    TasksUpTo(nodes, i);
  }

  lemma OneMoreStep(tasks: seq<Node>, weather: nat -> Weather, states: seq<State>, results: seq<NodeResult>,
                    node: Node, after: State, result: NodeResult)
    requires IsTrace(tasks, weather, states, results) && |results| == |tasks|
    requires Did(node, weather(|results|), states[|results|], after, result)
    ensures IsTrace(tasks + [node], weather, states + [after], results + [result])
  {
    var tasks', states', results' := tasks + [node], states + [after], results + [result];
    forall k: nat | k < |results'| ensures DidAt(tasks', weather, states', results', k) {
      if k < |results| {
        assert DidAt(tasks, weather, states, results, k);
      }
    }
  }

  lemma RunGoesOn(nodes: seq<Node>, i: nat, weather: nat -> Weather, states: seq<State>, results: seq<NodeResult>,
                  after: State, result: NodeResult)
    requires i < |nodes| && !nodes[i].nodeType.Trigger? && Underway(nodes, i, weather, states, results)
      && result.succeeded
    requires |states| == |results| + 1 && Did(nodes[i], weather(|results|), states[|results|], after, result)
    ensures Underway(nodes, i + 1, weather, states + [after], results + [result])
  {
    var tasks :| tasks == Tasks(nodes[..i]) && IsTrace(tasks, weather, states, results) && |results| == |tasks|;
    TasksUpTo(nodes, i);
    OneMoreStep(tasks, weather, states, results, nodes[i], after, result);
    tasks := tasks + [nodes[i]];
  }

  lemma RunFails(nodes: seq<Node>, i: nat, weather: nat -> Weather, states: seq<State>, results: seq<NodeResult>,
                 after: State, result: NodeResult)
    requires i < |nodes| && !nodes[i].nodeType.Trigger? && Underway(nodes, i, weather, states, results)
      && !result.succeeded
    requires |states| == |results| + 1 && Did(nodes[i], weather(|results|), states[|results|], after, result)
    ensures IsRun(nodes, weather, states + [after], Record(false, results + [result]))
  {
    var tasks :| tasks == Tasks(nodes[..i]) && IsTrace(tasks, weather, states, results) && |results| == |tasks|;
    TasksUpTo(nodes, i);
    OneMoreStep(tasks, weather, states, results, nodes[i], after, result);
    tasks := tasks + [nodes[i]];
    LongerList(nodes, i + 1, tasks, weather, states + [after], results + [result]);
    EndsAtFailure(nodes, weather, states + [after], results, result);
  }

  lemma EndsAtFailure(nodes: seq<Node>, weather: nat -> Weather, states: seq<State>, before: seq<NodeResult>,
                      last: NodeResult)
    requires IsTrace(Tasks(nodes), weather, states, before + [last])
    requires !last.succeeded && forall k :: 0 <= k < |before| ==> before[k].succeeded
    ensures IsRun(nodes, weather, states, Record(false, before + [last]))
  {
    var results := before + [last];
    assert results[|results| - 1] == last;
  }

  lemma LongerList(nodes: seq<Node>, i: nat, tasks: seq<Node>, weather: nat -> Weather, states: seq<State>,
                   results: seq<NodeResult>)
    requires i <= |nodes| && tasks == Tasks(nodes[..i]) && IsTrace(tasks, weather, states, results)
    ensures IsTrace(Tasks(nodes), weather, states, results)
  {
    TasksArePrefix(nodes, i);
    forall k: nat | k < |results| ensures DidAt(Tasks(nodes), weather, states, results, k) {
      assert DidAt(tasks, weather, states, results, k);
    }
  }

  lemma RunEnds(nodes: seq<Node>, weather: nat -> Weather, states: seq<State>, results: seq<NodeResult>)
    requires Underway(nodes, |nodes|, weather, states, results)
    ensures IsRun(nodes, weather, states, Record(true, results))
  {
    assert nodes[..|nodes|] == nodes;
  }
}
