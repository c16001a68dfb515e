/**
 What each node does, said outright: which call it makes, where a file ends up, what a later
 node can refer to, and when it succeeds.
 */
module ExecutorActions {
  import opened Wrappers
  import opened Text
  import opened WorkflowGraph
  import opened GraphOrder
  import opened FileSpace
  import opened Executor
  import opened ExecutorRuns
  import V = FlowValidation
  import T = Template

  /** `value` is what a parameter of the node renders to; one that is missing is empty. */
  ghost predicate Rendered(node: Node, key: string, vars: map<string, string>, value: string) {
    T.IsRendering(if key in node.data.params then node.data.params[key] else "", vars, value)
  }

  predicate IsAction(node: Node, actionType: ActionType) {
    node.nodeType.Action? && node.data.actionType == actionType
  }

  /** Which parameters of the node an action takes. */
  ghost predicate ParamsRendered(node: Node, vars: map<string, string>, first: string, second: string) {
    match node.data.actionType
    case Tag => Rendered(node, "tag", vars, first)
    case Comment => Rendered(node, "comment", vars, first)
    case Move => Rendered(node, "destination", vars, first)
    case Copy => Rendered(node, "destination", vars, first)
    case Rename => Rendered(node, "newName", vars, first)
    case Notify => Rendered(node, "target", vars, first) && Rendered(node, "message", vars, second)
    case UnknownAction(_) => true
  }

  /** What an action node renders are these parameters, looked up under these names. */
  lemma ActionTakesItsParams(node: Node, vars: map<string, string>, first: string, second: string)
    requires node.nodeType.Action?
    requires T.IsRendering(Templates(node).0, vars, first) && T.IsRendering(Templates(node).1, vars, second)
    ensures ParamsRendered(node, vars, first, second)
  {
  }

  /** The node's step as an effect of what it renders. */
  lemma ActionStep(node: Node, w: Weather, s: State, after: State, result: NodeResult)
    returns (first: string, second: string)
    requires Did(node, w, s, after, result) && node.nodeType.Action?
    ensures T.IsRendering(Templates(node).0, s.vars, first) && T.IsRendering(Templates(node).1, s.vars, second)
    ensures ActionEffect(node.data.actionType, first, second, w, s) == Effect(after, result.succeeded, result.output)
  {
    first, second :|
      && T.IsRendering(Templates(node).0, s.vars, first) && T.IsRendering(Templates(node).1, s.vars, second)
      && NodeEffect(node, first, second, w, s) == Effect(after, result.succeeded, result.output);
  }

  // ---- move, copy and rename ---------------------------------------------------------------------

  /** The file that stands at `path`, whatever slashes the path has at its ends. */
  function FileAt(space: Space, path: string): Option<File> {
    Lookup(space.files, TrimSlashes(path))
  }

  predicate InFolder(path: string, folder: string, name: string) {
    DirName(path) == TrimSlashes(folder) && BaseName(path) == name
  }

  /** The file at `src` is the file at `dst` afterwards, where there was none. */
  predicate MovedTo(space: Space, src: string, dst: string, after: Space) {
    && FileAt(space, src).Some? && FileAt(space, dst).None?
    && FileAt(after, dst) == FileAt(space, src) && FileAt(after, src).None?
  }

  lemma MovedFile(space: Space, src: string, dst: string, after: Space)
    requires Moved(space, src, dst) == Some(after)
    ensures MovedTo(space, src, dst, after)
  {
  }

  lemma CopiedFile(space: Space, src: string, dst: string, after: Space)
    requires Copied(space, src, dst) == Some(after)
    ensures CopiedTo(space, src, dst, after)
  {
  }

  /** A call that succeeded was carried out. */
  lemma CallWasMade(s: State, call: Call, change: Option<Space>, w: Weather, key: string, value: string)
    requires CallEffect(s, call, change, w, key, value).ok
    ensures var e := CallEffect(s, call, change, w, key, value);
      && change == Some(e.after.space) && e.after.calls == s.calls + [call] && e.output == value
      && e.after.currentPath == s.currentPath
  {
  }

  lemma MoveWasMade(first: string, second: string, w: Weather, s: State) returns (dst: string)
    requires ActionEffect(Move, first, second, w, s).ok
    ensures dst == DestinationIn(first, s.currentPath)
    ensures var e := ActionEffect(Move, first, second, w, s);
      && first != "" && Moved(s.space, s.currentPath, dst) == Some(e.after.space)
      && e.after.currentPath == dst == e.output && e.after.calls == s.calls + [MoveFile(s.currentPath, dst)]
  {
    dst := DestinationIn(first, s.currentPath);
    CallWasMade(s, MoveFile(s.currentPath, dst), Moved(s.space, s.currentPath, dst), w, "move.output", dst);
  }

  lemma RenameWasMade(first: string, second: string, w: Weather, s: State) returns (dst: string)
    requires ActionEffect(Rename, first, second, w, s).ok
    ensures dst == RenamedPath(s.currentPath, first)
    ensures var e := ActionEffect(Rename, first, second, w, s);
      && first != "" && Moved(s.space, s.currentPath, dst) == Some(e.after.space)
      && e.after.currentPath == dst == e.output && e.after.calls == s.calls + [MoveFile(s.currentPath, dst)]
  {
    dst := RenamedPath(s.currentPath, first);
    CallWasMade(s, MoveFile(s.currentPath, dst), Moved(s.space, s.currentPath, dst), w, "rename.output", dst);
  }

  lemma CopyWasMade(first: string, second: string, w: Weather, s: State) returns (dst: string)
    requires ActionEffect(Copy, first, second, w, s).ok
    ensures dst == DestinationIn(first, s.currentPath)
    ensures var e := ActionEffect(Copy, first, second, w, s);
      && first != "" && Copied(s.space, s.currentPath, dst) == Some(e.after.space)
      && e.after.currentPath == s.currentPath && e.output == dst
      && e.after.calls == s.calls + [CopyFile(s.currentPath, dst)]
  {
    dst := DestinationIn(first, s.currentPath);
    CallWasMade(s, CopyFile(s.currentPath, dst), Copied(s.space, s.currentPath, dst), w, "copy.output", dst);
  }

  /** A move that succeeded has made one MOVE, which took the very file along, and the path has followed it ... */
  lemma MoveTakesTheFile(folder: string, second: string, w: Weather, s: State)
    requires ActionEffect(Move, folder, second, w, s).ok
    ensures var e := ActionEffect(Move, folder, second, w, s);
      && folder != "" && e.output == e.after.currentPath
      && MovedTo(s.space, s.currentPath, e.after.currentPath, e.after.space)
      && e.after.calls == s.calls + [MoveFile(s.currentPath, e.after.currentPath)]
  {
    var dst := MoveWasMade(folder, second, w, s);
    MovedFile(s.space, s.currentPath, dst, ActionEffect(Move, folder, second, w, s).after.space);
  }

  /** ... into the folder it was given, under its old name. */
  lemma MoveLands(folder: string, second: string, w: Weather, s: State)
    requires ActionEffect(Move, folder, second, w, s).ok && ValidSpace(s.space)
    ensures InFolder(ActionEffect(Move, folder, second, w, s).after.currentPath, folder, BaseName(s.currentPath))
  {
    var dst := MoveWasMade(folder, second, w, s);
    DestinationsAreInFolder(s.currentPath, folder);
    DestinationsKeepTheName(s.currentPath, folder);
  }

  /** The file at `src` has been left as it is, and a new one with its content is at `dst`, where there was none. */
  predicate CopiedTo(space: Space, src: string, dst: string, after: Space) {
    && FileAt(space, src).Some? && FileAt(space, dst).None? && FileAt(after, src) == FileAt(space, src)
    && FileAt(after, dst).Some? && FileAt(after, dst).value.id == space.nextID
    && FileAt(after, dst).value.content == FileAt(space, src).value.content
  }

  /** A copy that succeeded has made one COPY, and another file with the same content; the path stays ... */
  lemma CopyMakesAFile(folder: string, second: string, w: Weather, s: State)
    requires ActionEffect(Copy, folder, second, w, s).ok
    ensures var e := ActionEffect(Copy, folder, second, w, s);
      && folder != "" && e.after.currentPath == s.currentPath
      && CopiedTo(s.space, s.currentPath, e.output, e.after.space)
      && e.after.calls == s.calls + [CopyFile(s.currentPath, e.output)]
  {
    var dst := CopyWasMade(folder, second, w, s);
    CopiedFile(s.space, s.currentPath, dst, ActionEffect(Copy, folder, second, w, s).after.space);
  }

  /** ... and the copy is in the folder it was given, under the same name. */
  lemma CopyLands(folder: string, second: string, w: Weather, s: State)
    requires ActionEffect(Copy, folder, second, w, s).ok && ValidSpace(s.space)
    ensures InFolder(ActionEffect(Copy, folder, second, w, s).output, folder, BaseName(s.currentPath))
  {
    var dst := CopyWasMade(folder, second, w, s);
    DestinationsAreInFolder(s.currentPath, folder);
    DestinationsKeepTheName(s.currentPath, folder);
  }

  /** A rename has kept the file in its folder and given it the new name. */
  lemma RenameLands(name: string, second: string, w: Weather, s: State)
    requires ActionEffect(Rename, name, second, w, s).ok && ValidSpace(s.space)
    ensures var e := ActionEffect(Rename, name, second, w, s);
      && name != "" && e.output == e.after.currentPath
      && (IsName(name) ==>
            DirName(e.after.currentPath) == DirName(s.currentPath) && BaseName(e.after.currentPath) == name)
      && MovedTo(s.space, s.currentPath, e.after.currentPath, e.after.space)
      && e.after.calls == s.calls + [MoveFile(s.currentPath, e.after.currentPath)]
  {
    var dst := RenameWasMade(name, second, w, s);
    MovedFile(s.space, s.currentPath, dst, ActionEffect(Rename, name, second, w, s).after.space);
    if IsName(name) {
      RenamesKeepTheFolder(s.currentPath, name);
      RenamesGiveTheName(s.currentPath, name);
    }
  }

  // ---- tag, comment and notify -------------------------------------------------------------------

  /** Only the file at `path` has changed. */
  ghost predicate OnlyChangedAt(space: Space, path: string, after: Space) {
    forall p :: p != path ==> Lookup(after.files, p) == Lookup(space.files, p)
  }

  /** A tag has been added to the file's own, and to no other file's. */
  lemma TagLands(tag: string, second: string, w: Weather, s: State)
    requires ActionEffect(Tag, tag, second, w, s).ok
    ensures var e, before := ActionEffect(Tag, tag, second, w, s), FileAt(s.space, s.currentPath);
      && tag != "" && e.output == tag && before.Some? && e.after.currentPath == s.currentPath
      && FileAt(e.after.space, s.currentPath) == Some(before.value.(tags := before.value.tags + {tag}))
      && OnlyChangedAt(s.space, TrimSlashes(s.currentPath), e.after.space)
      && e.after.calls == s.calls + [AssignTag(s.currentPath, tag)]
  {
  }

  /** A comment has gone to the sidecar of the path, and nowhere else. */
  lemma CommentLands(text: string, second: string, w: Weather, s: State)
    requires ActionEffect(Comment, text, second, w, s).ok
    ensures var e, sidecar := ActionEffect(Comment, text, second, w, s), SidecarPath(s.currentPath);
      && text != "" && e.output == text && e.after.currentPath == s.currentPath
      && sidecar in e.after.space.files && e.after.space.files[sidecar].content == w.text
      && OnlyChangedAt(s.space, sidecar, e.after.space)
      && e.after.calls == s.calls + [PutComment(s.currentPath, text)]
  {
  }

  /** A notification has been sent with its message, and nothing else has changed. */
  lemma NotifyLands(target: string, message: string, w: Weather, s: State)
    requires ActionEffect(Notify, target, message, w, s).ok
    ensures var e := ActionEffect(Notify, target, message, w, s);
      && target != "" && e.after.space == s.space && e.after.currentPath == s.currentPath
      && e.after.calls == s.calls + [Send(target, message)] && e.output == "sent"
  {
  }

  // ---- when an action succeeds -------------------------------------------------------------------

  /** What the server needs to find for the call to be possible. */
  predicate Possible(actionType: ActionType, first: string, s: State) {
    match actionType
    case Tag => FileAt(s.space, s.currentPath).Some?
    case Comment => true
    case Move => FileAt(s.space, s.currentPath).Some? && IsFree(s.space, DestinationIn(first, s.currentPath))
    case Copy => FileAt(s.space, s.currentPath).Some? && IsFree(s.space, DestinationIn(first, s.currentPath))
    case Rename => FileAt(s.space, s.currentPath).Some? && IsFree(s.space, RenamedPath(s.currentPath, first))
    case Notify => true
    case UnknownAction(_) => false
  }

  predicate IsFree(space: Space, path: string) {
    TrimSlashes(path) != "" && FileAt(space, path).None?
  }

  lemma CallSucceedsExactlyWhen(s: State, call: Call, change: Option<Space>, w: Weather, key: string, value: string)
    ensures var e := CallEffect(s, call, change, w, key, value);
      && (e.ok <==> change.Some? && w.outcome.Confirmed?)
      && (change.None? || w.outcome.Refused? ==> Untouched(s, e.after))
  {
  }

  /** Nothing but the list of calls has changed. */
  predicate Untouched(s: State, after: State) {
    after.space == s.space && after.vars == s.vars && after.currentPath == s.currentPath
  }

  /** The change that a call for the action asks for. */
  function ChangeBy(actionType: ActionType, first: string, w: Weather, s: State): Option<Space> {
    match actionType
    case Tag => Tagged(s.space, s.currentPath, first)
    case Comment => Written(s.space, SidecarPath(s.currentPath), w.text)
    case Move => Moved(s.space, s.currentPath, DestinationIn(first, s.currentPath))
    case Copy => Copied(s.space, s.currentPath, DestinationIn(first, s.currentPath))
    case Rename => Moved(s.space, s.currentPath, RenamedPath(s.currentPath, first))
    case Notify => Some(s.space)
    case UnknownAction(_) => None
  }

  /** It can be made if and only if the file is there and, for a move or copy, its destination is free. */
  lemma ChangeIsPossible(actionType: ActionType, first: string, w: Weather, s: State)
    ensures ChangeBy(actionType, first, w, s).Some? <==> Possible(actionType, first, s)
  {
  }

  lemma CallForAction(actionType: ActionType, first: string, second: string, w: Weather, s: State)
    requires first != "" && (s.currentPath != "" || actionType.Notify?)
    ensures var e := ActionEffect(actionType, first, second, w, s);
      && (e.ok <==> ChangeBy(actionType, first, w, s).Some? && w.outcome.Confirmed?)
      && (ChangeBy(actionType, first, w, s).None? || w.outcome.Refused? ==> Untouched(s, e.after))
  {
    var path, change := s.currentPath, ChangeBy(actionType, first, w, s);
    match actionType
    case Tag => CallSucceedsExactlyWhen(s, AssignTag(path, first), change, w, "tag.output", first);
    case Comment => CallSucceedsExactlyWhen(s, PutComment(path, first), change, w, "comment.output", first);
    case Move =>
      var dst := DestinationIn(first, path);
      CallSucceedsExactlyWhen(s, MoveFile(path, dst), change, w, "move.output", dst);
    case Copy =>
      var dst := DestinationIn(first, path);
      CallSucceedsExactlyWhen(s, CopyFile(path, dst), change, w, "copy.output", dst);
    case Rename =>
      var dst := RenamedPath(path, first);
      CallSucceedsExactlyWhen(s, MoveFile(path, dst), change, w, "rename.output", dst);
    case Notify => CallSucceedsExactlyWhen(s, Send(first, second), change, w, "notify.output", "sent");
    case UnknownAction(_) =>
  }

  /**
   An action succeeds if and only if its parameter is not empty, it has a path - a notification
   needs none -, the change it asks for can be made, and the answer comes back. If it does not get
   as far as a call, nothing happens at all; if the call is refused, nothing else does.
   */
  lemma ActionSucceedsExactlyWhen(actionType: ActionType, first: string, second: string, w: Weather, s: State)
    ensures var e, asked := ActionEffect(actionType, first, second, w, s),
                            first != "" && (s.currentPath != "" || actionType.Notify?) && !actionType.UnknownAction?;
      && (e.ok <==> asked && ChangeBy(actionType, first, w, s).Some? && w.outcome.Confirmed?)
      && (!asked ==> e.after == s)
      && (ChangeBy(actionType, first, w, s).None? || w.outcome.Refused? ==> Untouched(s, e.after))
  {
    if first != "" && (s.currentPath != "" || actionType.Notify?) {
      CallForAction(actionType, first, second, w, s);
    }
  }

  /** The actions the editor flags are exactly those that need a path: without one they can never succeed. */
  lemma FlaggedExactlyWhen(actionType: ActionType)
    ensures V.IsFileDependentActionType(actionType) || actionType.UnknownAction? <==>
      forall first, second, w, s: State :: s.currentPath == "" ==>
        !ActionEffect(actionType, first, second, w, s).ok
  {
    forall first, second, w, s: State | s.currentPath == "" && !actionType.Notify?
      ensures !ActionEffect(actionType, first, second, w, s).ok
    {
      ActionSucceedsExactlyWhen(actionType, first, second, w, s);
    }
    var s, w := State(map[], "", Space(map[], 0), []), Weather(Confirmed, "");
    ActionSucceedsExactlyWhen(actionType, "someone", "", w, s);
    assert actionType.Notify? ==> ActionEffect(actionType, "someone", "", w, s).ok;
  }

  // ---- prompts, extractions and what cannot run ----------------------------------------------------

  /** A prompt is sent as it renders, unless it renders to nothing; nodes of unknown types fail and do nothing. */
  lemma PromptIsSent(node: Node, w: Weather, s: State, after: State, result: NodeResult)
    requires Did(node, w, s, after, result)
    ensures node.nodeType.Llm? ==>
      exists prompt :: T.IsRendering(node.data.prompt, s.vars, prompt)
        && after.calls == (if prompt == "" then s.calls else s.calls + [Complete(prompt)])
        && (result.succeeded <==> prompt != "" && w.outcome.Confirmed?)
        && (result.succeeded ==> result.output == w.text)
    ensures node.nodeType.ExtractText? ==>
      && after.calls == s.calls && (result.succeeded <==> w.outcome.Confirmed?)
      && (result.succeeded ==> result.output == Decimal(|w.text|) + " characters extracted")
    ensures node.nodeType.UnknownType? || node.nodeType.Trigger? ==> !result.succeeded && after == s
    ensures !node.nodeType.Action? ==> after.space == s.space && after.currentPath == s.currentPath
  {
    var first, second :|
      && T.IsRendering(Templates(node).0, s.vars, first) && T.IsRendering(Templates(node).1, s.vars, second)
      && NodeEffect(node, first, second, w, s) == Effect(after, result.succeeded, result.output);
    if node.nodeType.Llm? {
      assert T.IsRendering(node.data.prompt, s.vars, first);
    }
  }

  /** What a string of digits stands for. */
  function Value(digits: string): nat {
    if digits == "" then 0
    else
      var c := digits[|digits| - 1];
      Value(digits[..|digits| - 1]) * 10 + if '0' <= c <= '9' then c as int - '0' as int else 0
  }

  lemma {:induction false} DecimalHasItsValue(n: nat)
    ensures Value(Decimal(n)) == n && (n >= 10 ==> Decimal(n)[0] != '0')
  {
    if n >= 10 {
      DecimalHasItsValue(n / 10);
    }
  }

  // ---- what a run begins with --------------------------------------------------------------------

  predicate CanRead(resourcePath: string, readOk: bool, space: Space) {
    resourcePath != "" && readOk && FileAt(space, resourcePath).Some?
  }

  /**
   If the target can be read, its name can be referred to by the token for it, as long as no token
   begins in it; if not, that token stays as it is.
   */
  lemma TargetNameCanBeReferredTo(resourcePath: string, readOk: bool, space: Space, calls: seq<Call>, out: string)
    ensures var vars, name := Begin(resourcePath, readOk, space, calls).vars, BaseName(resourcePath);
      if CanRead(resourcePath, readOk, space) then
        T.OpensNothing(name) ==> (T.IsRendering("{{file.name}}", vars, out) <==> out == name)
      else T.IsRendering("{{file.name}}", vars, out) <==> out == "{{file.name}}"
  {
    assert T.Token("file.name") == "{{file.name}}";
    TokenIsPossible(Begin(resourcePath, readOk, space, calls).vars, "file.name", out);
  }

  /** And so can its content. */
  lemma TargetContentCanBeReferredTo(resourcePath: string, readOk: bool, space: Space, calls: seq<Call>, out: string)
    ensures var vars := Begin(resourcePath, readOk, space, calls).vars;
      if CanRead(resourcePath, readOk, space) then
        var content := FileAt(space, resourcePath).value.content;
        T.OpensNothing(content) ==> (T.IsRendering("{{file.content}}", vars, out) <==> out == content)
      else T.IsRendering("{{file.content}}", vars, out) <==> out == "{{file.content}}"
  {
    assert T.Token("file.content") == "{{file.content}}";
    TokenIsPossible(Begin(resourcePath, readOk, space, calls).vars, "file.content", out);
  }

  /** A token renders to its variable's value, or stays if there is no such variable. */
  lemma TokenIsPossible(vars: map<string, string>, key: string, out: string)
    requires T.BraceFreeKeys(vars) && T.BraceFree(key)
    ensures key in vars && T.OpensNothing(vars[key]) ==> (T.IsRendering(T.Token(key), vars, out) <==> out == vars[key])
    ensures key !in vars ==> (T.IsRendering(T.Token(key), vars, out) <==> out == T.Token(key))
  {
    if key in vars && T.OpensNothing(vars[key]) {
      TokenRendersToVariable(key, vars, out);
    } else if key !in vars {
      var p := T.Name(key);
      T.RenderingIsSubstitution([p], vars, out);
      T.FilledOne(p, vars);
      T.PrintedOne(p);
    }
  }

  // ---- carried to whole runs ---------------------------------------------------------------------

  /** Node k of the run moved or copied the file. */
  predicate Transfers(ordered: seq<Node>, record: Record, k: nat) {
    && k < |record.results| && k < |Tasks(ordered)| && record.results[k].succeeded
    && (IsAction(Tasks(ordered)[k], Move) || IsAction(Tasks(ordered)[k], Copy))
  }

  /**
   In every run begun on an existing file: a node that moved or copied it reports a path in the
   folder that its parameter names, under the file's own name ...
   */
  lemma RunPutsFilesWhereTold(ordered: seq<Node>, weather: nat -> Weather, states: seq<State>, record: Record, id: nat,
                              content: string, k: nat) returns (folder: string)
    requires IsRun(ordered, weather, states, record) && Transfers(ordered, record, k)
    requires ValidSpace(states[0].space) && Names(states[0], id, content)
    ensures Rendered(Tasks(ordered)[k], "destination", states[k].vars, folder)
      && InFolder(record.results[k].output, folder, BaseName(states[k].currentPath))
  {
    RunFollowsItsFile(ordered, weather, states, record, id, content, k);
    assert DidAt(Tasks(ordered), weather, states, record.results, k);
    var node, s, second := Tasks(ordered)[k], states[k], "";
    folder, second := ActionStep(node, weather(k), s, states[k + 1], record.results[k]);
    ActionTakesItsParams(node, s.vars, folder, second);
    if IsAction(node, Move) {
      MoveLands(folder, second, weather(k), s);
    } else {
      CopyLands(folder, second, weather(k), s);
    }
  }

  /** ... and there the file is, or a copy of it. */
  lemma RunLeavesFilesThere(ordered: seq<Node>, weather: nat -> Weather, states: seq<State>, record: Record, id: nat,
                            content: string, k: nat)
    requires IsRun(ordered, weather, states, record) && Transfers(ordered, record, k)
    requires ValidSpace(states[0].space) && Names(states[0], id, content)
    ensures var there := FileAt(states[k + 1].space, record.results[k].output);
      && there.Some? && there.value.content == content
      && (there.value.id == id <==> IsAction(Tasks(ordered)[k], Move))
  {
    RunFollowsItsFile(ordered, weather, states, record, id, content, k);
    assert DidAt(Tasks(ordered), weather, states, record.results, k);
    var node, s := Tasks(ordered)[k], states[k];
    var folder, second := ActionStep(node, weather(k), s, states[k + 1], record.results[k]);
    if IsAction(node, Move) {
      MoveTakesTheFile(folder, second, weather(k), s);
    } else {
      CopyMakesAFile(folder, second, weather(k), s);
    }
  }
}
