/**
 Which workflows a file event starts. The live SSE path (handleEvent) and the activitylog
 backstop (dispatch) match events on their own; this module states what each of them starts,
 and when the two agree.
 */
module EventMatching {
  import opened Wrappers
  import opened Text
  import opened FileSpace

  /** The trigger types with a meaning of their own, and every other string ("manual" among them). */
  datatype TriggerType = Schedule | Event | Other(name: string)

  /** A row of the trigger index. */
  datatype TriggerIndexEntry = TriggerIndexEntry(
    workflowID: string,
    userID: string,
    triggerType: TriggerType,
    schedule: string,
    eventType: string,
    pathPrefix: string,
    extension: string,
    spaceID: string)
  {
    /** Empty filters do not restrict. */
    predicate MatchesFilters(path: string, space: string) {
      && (pathPrefix != "" ==> HasPrefix(path, pathPrefix))
      && (extension != "" ==> HasSuffix(path, extension))
      && (spaceID != "" ==> spaceID == space)
    }
  }

  const ROOT_DIR := ".workflows"

  predicate IsInternalPath(davPath: string) {
    var trimmed := TrimPrefix(davPath, "/");
    trimmed == ROOT_DIR || HasPrefix(trimmed, ROOT_DIR + "/")
  }

  /** Where the backend records an execution, relative to the user's space. */
  function ExecutionPath(workflowID: string, executionID: string): string {
    ROOT_DIR + "/executions/" + workflowID + "/" + executionID + ".json"
  }

  function LiveTriggerType(sseEventType: string): Option<string> {
    if sseEventType == "postprocessing-finished" then Some("upload")
    else if sseEventType == "item-renamed" then Some("move")
    else if sseEventType == "share-created" || sseEventType == "link-created" then Some("share")
    else if sseEventType == "file-locked" then Some("lock")
    else None
  }

  function LoggedTriggerType(message: string): Option<string> {
    if message == "{user} added {resource} to {folder}" then Some("upload")
    else if message == "{user} moved {resource} to {folder}" then Some("move")
    else if message == "{user} renamed {oldResource} to {resource}" then Some("move")
    else None
  }

  predicate Wants(e: TriggerIndexEntry, userID: string, triggerType: string) {
    e.userID == userID && e.eventType == triggerType
  }

  /** The workflows, in index order, whose trigger admits the event. */
  function Selected(entries: seq<TriggerIndexEntry>, userID: string, triggerType: string, path: string,
                    space: string): seq<string> {
    if entries == [] then []
    else
      var e := entries[|entries| - 1];
      Selected(entries[..|entries| - 1], userID, triggerType, path, space)
      + if Wants(e, userID, triggerType) && e.MatchesFilters(path, space) then [e.workflowID] else []
  }

  /** What an SSE event carries once decoded. */
  datatype Payload = Payload(itemID: string, spaceID: string)

  /** The path the live path works with: an item that cannot be resolved leaves it empty. */
  function LivePath(payload: Payload, resolved: Option<string>): string {
    if payload.spaceID != "" && payload.itemID != "" && resolved.Some? then resolved.value else ""
  }

  /** The workflows handleEvent starts; None stands for an undecodable payload or an unreadable index. */
  function LiveStarts(entries: Option<seq<TriggerIndexEntry>>, userID: string, sseEventType: string,
                      payload: Option<Payload>, resolved: Option<string>): seq<string> {
    if LiveTriggerType(sseEventType).None? || payload.None? || entries.None? then []
    else
      var path := LivePath(payload.value, resolved);
      if IsInternalPath(path) then []
      else Selected(entries.value, userID, LiveTriggerType(sseEventType).value, path, payload.value.spaceID)
  }

  /** A log entry's compound resource id names an item only if it holds a "!". */
  predicate NamesItem(resourceId: string) {
    '!' in resourceId
  }

  /** The workflows dispatch starts for one activitylog entry. */
  function BackstopStarts(entries: seq<TriggerIndexEntry>, userID: string, driveID: string, message: string,
                          resourceId: string, resolved: Option<string>): seq<string> {
    if LoggedTriggerType(message).None? || !NamesItem(resourceId) then []
    else if resolved.None? || IsInternalPath(resolved.value) then []
    else Selected(entries, userID, LoggedTriggerType(message).value, resolved.value, driveID)
  }

  predicate SomeoneWants(entries: seq<TriggerIndexEntry>, userID: string, triggerType: string) {
    exists e :: e in entries && Wants(e, userID, triggerType)
  }

  /**
   handleEvent. `resolved` is what the path lookup would answer; the item is looked up when the
   first interested entry is met, and never again.
   */
  method HandleEvent(entries: Option<seq<TriggerIndexEntry>>, userID: string, sseEventType: string,
                     payload: Option<Payload>, resolved: Option<string>) returns (started: seq<string>, lookups: nat)
    ensures started == LiveStarts(entries, userID, sseEventType, payload, resolved)
    ensures lookups <= 1
    ensures lookups == 1 <==>
      && LiveTriggerType(sseEventType).Some? && payload.Some? && entries.Some?
      && payload.value.spaceID != "" && payload.value.itemID != ""
      && SomeoneWants(entries.value, userID, LiveTriggerType(sseEventType).value)
  {
    var triggerType := LiveTriggerType(sseEventType);
    if triggerType.None? || payload.None? || entries.None? {
      return [], 0;
    }
    started, lookups := MatchEntries(entries.value, userID, triggerType.value, payload.value, resolved);
  }

  lemma OneMoreEntry(entries: seq<TriggerIndexEntry>, e: TriggerIndexEntry, userID: string, triggerType: string,
                     path: string, space: string)
    ensures SomeoneWants(entries + [e], userID, triggerType)
      <==> SomeoneWants(entries, userID, triggerType) || Wants(e, userID, triggerType)
    ensures Selected(entries + [e], userID, triggerType, path, space)
         == if Wants(e, userID, triggerType) && e.MatchesFilters(path, space)
            then Selected(entries, userID, triggerType, path, space) + [e.workflowID]
            else Selected(entries, userID, triggerType, path, space)
  {
    assert (entries + [e])[..|entries|] == entries;
    assert e in entries + [e];
    if SomeoneWants(entries, userID, triggerType) {
      var x :| x in entries && Wants(x, userID, triggerType);
      assert x in entries + [e];
    }
  }

  /** The loop of handleEvent over the index. */
  method MatchEntries(all: seq<TriggerIndexEntry>, userID: string, triggerType: string, payload: Payload,
                      resolved: Option<string>)
    returns (started: seq<string>, lookups: nat)
    ensures var path := LivePath(payload, resolved);
      started == if IsInternalPath(path) then [] else Selected(all, userID, triggerType, path, payload.spaceID)
    ensures lookups
      == if payload.spaceID != "" && payload.itemID != "" && SomeoneWants(all, userID, triggerType) then 1 else 0
  {
    started, lookups := [], 0;
    var resolvedPath, resolvedOnce := "", false;
    ghost var path, space := LivePath(payload, resolved), payload.spaceID;
    ghost var selected: seq<string> := [];
    ghost var seen: seq<TriggerIndexEntry> := [];
    for i := 0 to |all|
      invariant seen == all[..i]
      invariant resolvedOnce == SomeoneWants(seen, userID, triggerType)
      invariant resolvedPath == if resolvedOnce then path else ""
      invariant lookups == if payload.spaceID != "" && payload.itemID != "" && resolvedOnce then 1 else 0
      invariant selected == Selected(seen, userID, triggerType, path, space)
      invariant started == if IsInternalPath(path) then [] else selected
    {
      var e := all[i];
      OneMoreEntry(seen, e, userID, triggerType, path, space);
      seen := seen + [e];
      selected := Selected(seen, userID, triggerType, path, space);
      if Wants(e, userID, triggerType) {
        if !resolvedOnce {
          resolvedOnce := true;
          if payload.spaceID != "" && payload.itemID != "" {
            lookups := lookups + 1;
            if resolved.Some? {
              resolvedPath := resolved.value;
            }
          }
        }
        assert resolvedPath == path;
        if !IsInternalPath(resolvedPath) && e.MatchesFilters(resolvedPath, payload.spaceID) {
          started := started + [e.workflowID];
        }
      }
    }
    assert all[..|all|] == all;
  }

  // ---- main results --------------------------------------------------------------------

  /** The entry is the user's, waits for this type of event, and its filters admit it. */
  function AdmitsEvent(userID: string, triggerType: string, path: string, space: string): TriggerIndexEntry -> bool {
    (e: TriggerIndexEntry) => e.userID == userID && e.eventType == triggerType && e.MatchesFilters(path, space)
  }

  function WorkflowOf(): TriggerIndexEntry -> string {
    (e: TriggerIndexEntry) => e.workflowID
  }

  /** Filters say how the path begins and ends and which space it is in; an empty one says nothing. */
  lemma MatchesExactlyWhen(e: TriggerIndexEntry, path: string, space: string)
    ensures e.MatchesFilters(path, space) <==>
      && (exists rest :: path == e.pathPrefix + rest)
      && (exists stem :: path == stem + e.extension)
      && (e.spaceID == "" || e.spaceID == space)
  {
    assert path == "" + path && path == path + "";
    if HasPrefix(path, e.pathPrefix) {
      assert path == e.pathPrefix + path[|e.pathPrefix|..];
    }
    if HasSuffix(path, e.extension) {
      assert path == path[..|path| - |e.extension|] + e.extension;
    }
  }

  /** Position i of the index is selected exactly when it admits the event, and index order is kept. */
  lemma {:induction false} SelectedIsTheMatches(entries: seq<TriggerIndexEntry>, userID: string, triggerType: string,
                                                path: string, space: string)
    ensures Chosen(entries, AdmitsEvent(userID, triggerType, path, space), WorkflowOf(),
                   Selected(entries, userID, triggerType, path, space))
  {
    if entries == [] {
      ChosenNone(AdmitsEvent(userID, triggerType, path, space), WorkflowOf());
    } else {
      var n := |entries| - 1;
      SelectedIsTheMatches(entries[..n], userID, triggerType, path, space);
      ChosenStep(entries, AdmitsEvent(userID, triggerType, path, space), WorkflowOf(),
                 Selected(entries[..n], userID, triggerType, path, space),
                 if AdmitsEvent(userID, triggerType, path, space)(entries[n]) then [entries[n].workflowID] else []);
    }
  }

  // ---- the internal folder -----------------------------------------------------------------------

  function UpToSlash(s: string): string {
    if s == "" || s[0] == '/' then "" else [s[0]] + UpToSlash(s[1..])
  }

  /** The first segment of a path, behind at most one leading slash. */
  function FirstSegment(path: string): string {
    UpToSlash(if path != "" && path[0] == '/' then path[1..] else path)
  }

  lemma {:induction false} UpToSlashIsSegment(s: string, name: string)
    requires '/' !in name
    ensures UpToSlash(s) == name <==> s == name || HasPrefix(s, name + "/")
  {
    if name == "" {
      assert s != "" ==> (HasPrefix(s, "/") <==> s[0] == '/');
    } else if s != "" && s[0] == name[0] {
      UpToSlashIsSegment(s[1..], name[1..]);
      assert s == [s[0]] + s[1..] && name == [name[0]] + name[1..] && name + "/" == [name[0]] + (name[1..] + "/");
      assert HasPrefix(s, name + "/") <==> HasPrefix(s[1..], name[1..] + "/");
    } else if s != "" {
      assert (name + "/")[0] == name[0];
    }
  }

  lemma InternalExactlyWhen(path: string)
    ensures IsInternalPath(path) <==> FirstSegment(path) == ".workflows"
  {
    UpToSlashIsSegment(TrimPrefix(path, "/"), ".workflows");
    assert HasPrefix(path, "/") <==> path != "" && path[0] == '/';
  }

  // ---- what each route starts --------------------------------------------------------------------

  /**
   The live route, whatever the payload and the lookup say: nothing for a path in the internal
   folder, and otherwise exactly the admitted entries, in index order. Without a lookup that
   succeeds the path is empty.
   */
  lemma LiveStartsTheAdmitted(entries: seq<TriggerIndexEntry>, userID: string, sseEventType: string, payload: Payload,
                              resolved: Option<string>, triggerType: string)
    requires LiveTriggerType(sseEventType) == Some(triggerType)
    ensures var path := if payload.spaceID == "" || payload.itemID == "" || resolved.None? then "" else resolved.value;
      var started := LiveStarts(Some(entries), userID, sseEventType, Some(payload), resolved);
      if FirstSegment(path) == ".workflows" then started == []
      else Chosen(entries, AdmitsEvent(userID, triggerType, path, payload.spaceID), WorkflowOf(), started)
  {
    var path := LivePath(payload, resolved);
    InternalExactlyWhen(path);
    SelectedIsTheMatches(entries, userID, triggerType, path, payload.spaceID);
  }

  /** The backstop, for an entry of a known type that names an item whose path could be resolved. */
  lemma BackstopStartsTheAdmitted(entries: seq<TriggerIndexEntry>, userID: string, driveID: string, message: string,
                                  resourceId: string, path: string, triggerType: string)
    requires LoggedTriggerType(message) == Some(triggerType) && '!' in resourceId
    ensures var started := BackstopStarts(entries, userID, driveID, message, resourceId, Some(path));
      if FirstSegment(path) == ".workflows" then started == []
      else Chosen(entries, AdmitsEvent(userID, triggerType, path, driveID), WorkflowOf(), started)
  {
    InternalExactlyWhen(path);
    SelectedIsTheMatches(entries, userID, triggerType, path, driveID);
  }

  /** Anything else starts nothing. */
  lemma OtherEventsStartNothing(entries: seq<TriggerIndexEntry>, userID: string, sseEventType: string, payload: Payload,
                                driveID: string, message: string, resourceId: string, resolved: Option<string>)
    ensures LiveTriggerType(sseEventType).None? ==>
      LiveStarts(Some(entries), userID, sseEventType, Some(payload), resolved) == []
    ensures LiveStarts(None, userID, sseEventType, Some(payload), resolved) == []
    ensures LiveStarts(Some(entries), userID, sseEventType, None, resolved) == []
    ensures LoggedTriggerType(message).None? || '!' !in resourceId || resolved.None? ==>
      BackstopStarts(entries, userID, driveID, message, resourceId, resolved) == []
  {
  }

  /** Which events there are: uploads and moves are seen by both routes, shares and locks only live. */
  lemma EventsOfEachType(sseEventType: string, message: string)
    ensures LiveTriggerType(sseEventType) == Some("upload") <==> sseEventType == "postprocessing-finished"
    ensures LiveTriggerType(sseEventType) == Some("move") <==> sseEventType == "item-renamed"
    ensures LiveTriggerType(sseEventType) == Some("share") <==> sseEventType in {"share-created", "link-created"}
    ensures LiveTriggerType(sseEventType) == Some("lock") <==> sseEventType == "file-locked"
    ensures LiveTriggerType(sseEventType) in
      {None, Some("upload"), Some("move"), Some("share"), Some("lock")}
    ensures LoggedTriggerType(message) == Some("upload") <==> message == "{user} added {resource} to {folder}"
    ensures LoggedTriggerType(message) == Some("move") <==>
      message in {"{user} moved {resource} to {folder}", "{user} renamed {oldResource} to {resource}"}
    ensures LoggedTriggerType(message) in {None, Some("upload"), Some("move")}
  {
  }

  /** An entry without filters, which admits every event of its type. */
  function Unfiltered(userID: string, triggerType: string): TriggerIndexEntry {
    TriggerIndexEntry("w", userID, Event, "", triggerType, "", "", "")
  }

  lemma UnfilteredIsSelected(userID: string, triggerType: string, path: string, space: string)
    ensures Selected([Unfiltered(userID, triggerType)], userID, triggerType, path, space) == ["w"]
  {
    OneMoreEntry([], Unfiltered(userID, triggerType), userID, triggerType, path, space);
    assert [] + [Unfiltered(userID, triggerType)] == [Unfiltered(userID, triggerType)];
  }

  /** The guard holds back nothing else: a path starts nothing under any index if and only if it is internal. */
  lemma PathStartsNothingExactlyWhen(userID: string, sseEventType: string, payload: Payload, driveID: string,
                                     message: string, resourceId: string, path: string)
    requires LiveTriggerType(sseEventType).Some? && payload.spaceID != "" && payload.itemID != ""
    requires LoggedTriggerType(message).Some? && '!' in resourceId
    ensures FirstSegment(path) == ".workflows" <==> forall entries ::
      LiveStarts(Some(entries), userID, sseEventType, Some(payload), Some(path)) == []
    ensures FirstSegment(path) == ".workflows" <==> forall entries ::
      BackstopStarts(entries, userID, driveID, message, resourceId, Some(path)) == []
  {
    InternalExactlyWhen(path);
    var live, logged := LiveTriggerType(sseEventType).value, LoggedTriggerType(message).value;
    UnfilteredIsSelected(userID, live, path, payload.spaceID);
    UnfilteredIsSelected(userID, logged, path, driveID);
    if FirstSegment(path) != ".workflows" {
      assert LiveStarts(Some([Unfiltered(userID, live)]), userID, sseEventType, Some(payload), Some(path)) != [];
      assert BackstopStarts([Unfiltered(userID, logged)], userID, driveID, message, resourceId, Some(path)) != [];
    }
  }

  /** For the same event with its path resolved, both paths start the same workflows in the same order. */
  lemma LiveAndBackstopAgree(entries: seq<TriggerIndexEntry>, userID: string, sseEventType: string, payload: Payload,
                             driveID: string, message: string, resourceId: string, path: string)
    requires LiveTriggerType(sseEventType).Some? && LiveTriggerType(sseEventType) == LoggedTriggerType(message)
    requires payload.spaceID == driveID != "" && payload.itemID != "" && NamesItem(resourceId)
    ensures LiveStarts(Some(entries), userID, sseEventType, Some(payload), Some(path))
         == BackstopStarts(entries, userID, driveID, message, resourceId, Some(path))
  {
    assert LivePath(payload, Some(path)) == path;
  }

  /**
   An unresolved path separates them: the live path goes on with the empty path, the backstop
   gives up. They still agree if and only if no entry of the user's admits the empty path.
   */
  lemma UnresolvedPathAgreement(entries: seq<TriggerIndexEntry>, userID: string, sseEventType: string, payload: Payload,
                                driveID: string, message: string, resourceId: string)
    requires LiveTriggerType(sseEventType).Some? && LiveTriggerType(sseEventType) == LoggedTriggerType(message)
    requires payload.spaceID == driveID
    ensures LiveStarts(Some(entries), userID, sseEventType, Some(payload), None)
         == BackstopStarts(entries, userID, driveID, message, resourceId, None)
      <==> forall e :: e in entries && Wants(e, userID, LiveTriggerType(sseEventType).value) ==>
             e.pathPrefix != "" || e.extension != "" || (e.spaceID != "" && e.spaceID != driveID)
  {
    var t := LiveTriggerType(sseEventType).value;
    EmptyPathIsNotInternal();
    SelectsNothingExactlyWhen(entries, userID, t, "", driveID);
    forall e: TriggerIndexEntry
      ensures e.MatchesFilters("", driveID)
        <==> e.pathPrefix == "" && e.extension == "" && (e.spaceID == "" || e.spaceID == driveID)
    {
      AdmitsEmptyPath(e, driveID);
    }
  }

  lemma EmptyPathIsNotInternal()
    ensures !IsInternalPath("")
  {
  }

  lemma AdmitsEmptyPath(e: TriggerIndexEntry, driveID: string)
    ensures e.MatchesFilters("", driveID)
      <==> e.pathPrefix == "" && e.extension == "" && (e.spaceID == "" || e.spaceID == driveID)
  {
  }

  /** Nothing is selected exactly when no entry that wants the event admits it. */
  lemma SelectsNothingExactlyWhen(entries: seq<TriggerIndexEntry>, userID: string, t: string, path: string,
                                  space: string)
    ensures Selected(entries, userID, t, path, space) == []
      <==> forall e :: e in entries && Wants(e, userID, t) ==> !e.MatchesFilters(path, space)
  {
    SelectedIsTheMatches(entries, userID, t, path, space);
    var selected := Selected(entries, userID, t, path, space);
    ChosenMembers(entries, AdmitsEvent(userID, t, path, space), WorkflowOf(), selected);
    if selected != [] {
      assert selected[0] in selected;
    }
    if e :| e in entries && Wants(e, userID, t) && e.MatchesFilters(path, space) {
      assert AdmitsEvent(userID, t, path, space)(e);
      assert WorkflowOf()(e) in selected;
    }
  }

  /** Everything the backend itself writes into a user's space. */
  datatype OwnFile =
    | Record(workflowID: string, executionID: string)
    | Definition(workflowID: string)
    | Comments(davPath: string)

  function OwnPath(f: OwnFile): string {
    match f
    case Record(workflowID, executionID) => ExecutionPath(workflowID, executionID)
    case Definition(workflowID) => ROOT_DIR + "/definitions/" + workflowID + ".json"
    case Comments(davPath) => SidecarPath(davPath)
  }

  /** A path below the internal folder, with or without a leading slash, is internal. */
  lemma BelowRootIsInternal(rest: string, slash: bool)
    ensures IsInternalPath((if slash then "/" else "") + (ROOT_DIR + "/" + rest))
  {
    var below := ROOT_DIR + "/" + rest;
    var path := (if slash then "/" else "") + below;
    if slash {
      assert path[1..] == below;
    } else {
      assert path == below && path[0] == '.';
    }
    assert HasPrefix(below, ROOT_DIR + "/");
  }

  lemma OwnPathIsBelowRoot(f: OwnFile) returns (rest: string)
    ensures OwnPath(f) == ROOT_DIR + "/" + rest
  {
    match f {
      case Record(workflowID, executionID) =>
        rest := "executions/" + workflowID + "/" + executionID + ".json";
        RecordBelowRoot(workflowID, executionID);
      case Definition(workflowID) =>
        rest := "definitions/" + workflowID + ".json";
        DefinitionBelowRoot(workflowID);
      case Comments(davPath) =>
        rest := "comments/" + Base64(davPath) + ".json";
        CommentsBelowRoot(Base64(davPath));
    }
  }

  lemma RecordBelowRoot(workflowID: string, executionID: string)
    ensures ExecutionPath(workflowID, executionID)
         == ROOT_DIR + "/" + ("executions/" + workflowID + "/" + executionID + ".json")
  {
    assert ROOT_DIR + "/executions/" == ROOT_DIR + "/" + "executions/";
  }

  lemma DefinitionBelowRoot(workflowID: string)
    ensures ROOT_DIR + "/definitions/" + workflowID + ".json"
      == ROOT_DIR + "/" + ("definitions/" + workflowID + ".json")
  {
    assert ROOT_DIR + "/definitions/" == ROOT_DIR + "/" + "definitions/";
  }

  lemma CommentsBelowRoot(name: string)
    ensures COMMENTS_DIR + name + ".json" == ROOT_DIR + "/" + ("comments/" + name + ".json")
  {
    assert COMMENTS_DIR == ROOT_DIR + "/" + "comments/";
  }

  /** No path below the internal folder starts anything, on either route. */
  lemma InternalPathsStartNothing(entries: seq<TriggerIndexEntry>, userID: string, sseEventType: string,
                                  payload: Payload,
                                  driveID: string, message: string, resourceId: string, path: string)
    requires payload.spaceID != "" && payload.itemID != "" && IsInternalPath(path)
    ensures LiveStarts(Some(entries), userID, sseEventType, Some(payload), Some(path)) == []
    ensures BackstopStarts(entries, userID, driveID, message, resourceId, Some(path)) == []
  {
  }

  /**
   The backend's own writes - execution records, definitions, and the comment sidecars that runs
   leave - start nothing when they are seen as events, on either route.
   */
  lemma OwnWritesStartNothing(f: OwnFile, slash: bool, entries: seq<TriggerIndexEntry>, userID: string,
                              sseEventType: string, payload: Payload, driveID: string, message: string,
                              resourceId: string)
    requires payload.spaceID != "" && payload.itemID != ""
    ensures var path := (if slash then "/" else "") + OwnPath(f);
      && LiveStarts(Some(entries), userID, sseEventType, Some(payload), Some(path)) == []
      && BackstopStarts(entries, userID, driveID, message, resourceId, Some(path)) == []
  {
    var rest := OwnPathIsBelowRoot(f);
    BelowRootIsInternal(rest, slash);
    InternalPathsStartNothing(entries, userID, sseEventType, payload, driveID, message, resourceId,
                              (if slash then "/" else "") + OwnPath(f));
  }
}
