/**
 * The artifact handlers' dispatch and the compositions around them: which
 * handler class the factory hands out for a type, how a status update
 * combines its index, content, file-move and covering-test steps into one
 * result, the type checks and header write of `add_reference`, and the
 * answers of the default `finalize` and `mark_step_done`.
 *
 * The steps that read or write files (the content updates of each handler,
 * the file move, the covering-test rewrite, loading an artifact) are
 * parameters: their outcomes come in as `Step` values.
 */
module Handlers {

  import opened Wrappers
  import opened Text
  import opened TypeRegistry
  import HeaderCodec

  // ------------------------------------------------------------ the factory

  /** The handler classes of `ArtifactHandlerFactory._handlers`. */
  datatype Kind = TaskPrd | Prd | Req | Task | Uacc | Sacc

  /** The factory's table, keyed by upper-case type code. */
  const Table: map<string, Kind> :=
    map["TASKPRD" := TaskPrd, "PRD" := Prd, "REQ" := Req, "TASK" := Task, "UACC" := Uacc, "SACC" := Sacc]

  /** `get_supported_types`: the table's keys in declaration order. */
  const SupportedTypes: seq<string> := ["TASKPRD", "PRD", "REQ", "TASK", "UACC", "SACC"]

  /**
   * The type a handler class reports for itself: its class name without
   * `Handler`, upper-cased (`TaskPRDHandler` gives `TASKPRD`).
   */
  function KindCode(k: Kind): string
  {
    match k
    case TaskPrd => "TASKPRD"
    case Prd => "PRD"
    case Req => "REQ"
    case Task => "TASK"
    case Uacc => "UACC"
    case Sacc => "SACC"
  }

  /** `get_handler`: the table entry of the upper-cased type, if any. */
  function GetHandler(t: string): (r: Option<Kind>)
    ensures r.Some? ==> KindCode(r.value) == Upper(t)
  {
    var u := Upper(t);
    if u in Table then Some(Table[u]) else None
  }

  /** `has_handler` */
  predicate HasHandler(t: string)
  {
    Upper(t) in Table
  }

  /** The table lists exactly the supported types, each for the class that reports it. */
  lemma TableIsSupported()
    ensures forall u :: u in Table <==> u in SupportedTypes
    ensures forall u :: u in Table ==> KindCode(Table[u]) == u
  {
  }

  /** A handler exists exactly for the supported types, in any letter case. */
  lemma GetHandlerIff(t: string)
    ensures GetHandler(t).Some? <==> Upper(t) in SupportedTypes
    ensures HasHandler(t) <==> GetHandler(t).Some?
  {
    TableIsSupported();
  }

  /** Every handler class is handed out for the code it reports. */
  lemma GetHandlerOfCode(k: Kind)
    ensures GetHandler(KindCode(k)) == Some(k)
  {
    UpperOfUpperWord(KindCode(k));
  }

  /** The handler of an ID: its type is the text before the first `-`, upper-cased. */
  function HandlerForId(id: string): (r: Option<Kind>)
    ensures '-' !in id ==> r.None?
    ensures '-' in id ==> r == GetHandler(Split(id, '-')[0])
  {
    if '-' in id then
      UpperIdempotent(Split(id, '-')[0]);
      GetHandler(Upper(Split(id, '-')[0]))
    else None
  }

  /** The handler found for an ID reports the ID's type. */
  lemma HandlerForIdCode(id: string)
    requires HandlerForId(id).Some?
    ensures '-' in id && KindCode(HandlerForId(id).value) == Upper(Split(id, '-')[0])
  {
  }

  // ------------------------------------------------------------ step results

  /**
   * What a composition reads from a step's result dictionary: `success`,
   * `message` when the key is present, and `file_path`.
   */
  datatype Step = Step(success: bool, message: Option<string>, filePath: Option<string>)

  /** The covering-test step's result: with the requirements it rewrote. */
  datatype CoveringStep = CoveringStep(success: bool, message: Option<string>, updatedReqs: seq<string>)

  /** An f-string of `result.get('message')`: the text, or `None` when the key is absent. */
  function Shown(m: Option<string>): string
  {
    if m.Some? then m.value else "None"
  }

  /** `result.get('message', default)` */
  function MessageOr(m: Option<string>, default: string): string
  {
    if m.Some? then m.value else default
  }

  /** `sep.join(parts)` */
  function JoinWith(parts: seq<string>, sep: string): string
  {
    if parts == [] then "" else if |parts| == 1 then parts[0] else parts[0] + sep + JoinWith(parts[1..], sep)
  }

  /** The messages are the leading part of their join. */
  lemma JoinWithStarts(parts: seq<string>, sep: string)
    requires parts != []
    ensures StartsWith(JoinWith(parts, sep), parts[0])
  {
  }

  /** The environment variable `update_status_in_index` needs. */
  const RootVariable: string := "RESPECT_DOC_REPO_ROOT"

  /**
   * `update_status_in_index`: with the document root configured, the index
   * update's answer (`found`); without it, the error it catches.
   */
  function IndexStep(rootSet: bool, found: bool, id: string, status: string): (r: Step)
    ensures r.success <==> rootSet && found
    ensures r.message.Some? && r.filePath.None?
  {
    if !rootSet then Step(false, Some("Error updating status in index: " + RootVariable + " environment variable not set"), None)
    else if !found then Step(false, Some("Artifact " + id + " not found in index"), None)
    else Step(true, Some("Updated " + id + " status to " + status + " in index"), None)
  }

  /** The answer of `_move_file_for_status` for a status that moves nothing. */
  const NoMoveMessage: string := "No file move required for this status"

  /** The statuses of type `t` that move the artifact's file. */
  function MoveStatuses(reg: Registry, t: string): seq<string>
  {
    match GetTypeInfo(reg, t)
    case Success(info) => info.moveStatuses
    case Failure(_) => []
  }

  /**
   * `_move_file_for_status`: an ID of no configured type fails (the caught
   * `ValueError`); a status outside the type's `status_update_file_move`
   * moves nothing; otherwise the outcome of locating and moving the file.
   */
  function MoveStep(reg: Registry, id: string, status: string, moved: Step): (r: Step)
    ensures TypeFromId(reg, id).Failure? ==> !r.success
    ensures TypeFromId(reg, id).Success? && status !in MoveStatuses(reg, TypeFromId(reg, id).value) ==>
      r == Step(true, Some(NoMoveMessage), None)
    ensures TypeFromId(reg, id).Success? && status in MoveStatuses(reg, TypeFromId(reg, id).value) ==> r == moved
  {
    match TypeFromId(reg, id)
    case Failure(_) => Step(false, Some("Error moving file for " + id), None)
    case Success(t) => if status !in MoveStatuses(reg, t) then Step(true, Some(NoMoveMessage), None) else moved
  }

  // ------------------------------------------------------------ compositions

  /**
   * A handler's status-update result: `success`, `message` (the combined
   * text, absent from the richer results), the `updates` list of the richer
   * results, and the content step's `file_path`.
   */
  datatype Report = Report(success: bool, message: Option<string>, updates: seq<string>, filePath: Option<string>)

  /** The index half of `_combine_update_results`. */
  function IndexNote(index: Step, id: string): string
  {
    if index.success then MessageOr(index.message, "Updated " + id + " status in index")
    else "Warning: Failed to update index: " + Shown(index.message)
  }

  /** The content half of `_combine_update_results`. */
  function ContentNote(content: Step, id: string): string
  {
    if content.success then MessageOr(content.message, "Updated " + id + " status in content")
    else "Error: Failed to update content: " + Shown(content.message)
  }

  /**
   * `_combine_update_results`: the two notes joined by `; `, successful
   * exactly when the content step is, with the content step's file path. A
   * failed index update only adds a warning.
   */
  function CombineUpdateResults(index: Step, content: Step, id: string): (r: Report)
    ensures r.success == content.success
    ensures r.filePath == content.filePath && r.updates == []
    ensures r.message.Some? && StartsWith(r.message.value, IndexNote(index, id) + "; ")
  {
    Report(content.success, Some(JoinWith([IndexNote(index, id), ContentNote(content, id)], "; ")), [], content.filePath)
  }

  /** The index note opens with a warning exactly when the index update failed. */
  lemma IndexWarningIff(rootSet: bool, found: bool, id: string, status: string, content: Step)
    ensures StartsWith(CombineUpdateResults(IndexStep(rootSet, found, id, status), content, id).message.value, "Warning: ")
        <==> !(rootSet && found)
  {
    var index := IndexStep(rootSet, found, id, status);
    IndexNoteWarns(rootSet, found, id, status);
    PrefixTransfer(CombineUpdateResults(index, content, id).message.value, IndexNote(index, id) + "; ", "Warning: ");
  }

  /** The note itself: a warning exactly for a failed index update, and never shorter than one. */
  lemma IndexNoteWarns(rootSet: bool, found: bool, id: string, status: string)
    ensures |IndexNote(IndexStep(rootSet, found, id, status), id)| >= 9
    ensures StartsWith(IndexNote(IndexStep(rootSet, found, id, status), id) + "; ", "Warning: ") <==> !(rootSet && found)
  {
    var note := IndexNote(IndexStep(rootSet, found, id, status), id);
    if rootSet && found {
      assert (note + "; ")[0] == 'U';
    } else {
      assert (note + "; ")[..9] == "Warning: ";
    }
  }

  /** Below the length of a known prefix, a string and that prefix start alike. */
  lemma PrefixTransfer(m: string, known: string, w: string)
    requires StartsWith(m, known) && |w| <= |known|
    ensures StartsWith(m, w) <==> StartsWith(known, w)
  {
    assert m[..|w|] == known[..|w|];
  }

  /** The index note of the richer compositions. */
  function IndexUpdate(index: Step): string
  {
    if index.success then "Index: " + Shown(index.message) else "Index warning: " + Shown(index.message)
  }

  /** The content note of the richer compositions. */
  function ContentUpdate(content: Step): string
  {
    if content.success then "Content: " + Shown(content.message) else "Content error: " + Shown(content.message)
  }

  /** Whether the file-move step adds a note: on failure, or when it moved something. */
  predicate MoveNoted(move: Step)
  {
    !move.success || !Contains(MessageOr(move.message, ""), "No file move required")
  }

  /**
   * The `update_status` of `TaskPRDHandler` and `PRDHandler`: index, content
   * and file move; successful exactly when both the content update and the
   * move succeed, the move noted only when it failed or moved something.
   */
  function MoveUpdate(index: Step, content: Step, move: Step): (r: Report)
    ensures r.success == (content.success && move.success)
    ensures r.message.None? && r.filePath.None?
    ensures |r.updates| == (if MoveNoted(move) then 3 else 2)
    ensures r.updates[..2] == [IndexUpdate(index), ContentUpdate(content)]
  {
    var base := [IndexUpdate(index), ContentUpdate(content)];
    var moveNote :=
      if !move.success then ["File move error: " + Shown(move.message)]
      else if MoveNoted(move) then ["File move: " + Shown(move.message)]
      else [];
    Report(content.success && move.success, None, base + moveNote, None)
  }

  /** Whether the covering-test step adds a note: on failure, or when it rewrote a requirement. */
  predicate CoveringNoted(covering: CoveringStep)
  {
    !covering.success || covering.updatedReqs != []
  }

  /**
   * The `update_status` of `UACCHandler` and `SACCHandler`: index, content
   * and covering tests; a covering-test failure is noted but never makes
   * the update fail.
   */
  function CoveringUpdate(index: Step, content: Step, covering: CoveringStep): (r: Report)
    ensures r.success == content.success
    ensures r.message.None? && r.filePath.None?
    ensures |r.updates| == (if CoveringNoted(covering) then 3 else 2)
    ensures r.updates[..2] == [IndexUpdate(index), ContentUpdate(content)]
  {
    var base := [IndexUpdate(index), ContentUpdate(content)];
    var coveringNote :=
      if !covering.success then ["Covering tests error: " + Shown(covering.message)]
      else if covering.updatedReqs != [] then ["Covering tests: " + Shown(covering.message)]
      else [];
    Report(content.success, None, base + coveringNote, None)
  }

  /** The outcomes of the steps that touch files or the index, as a status update meets them. */
  datatype Outcomes = Outcomes(rootSet: bool, indexFound: bool, content: Step, moved: Step, covering: CoveringStep)

  /** `handler.update_status` for each handler class. */
  function UpdateStatus(reg: Registry, k: Kind, id: string, status: string, o: Outcomes): (r: Report)
    ensures r.success ==> o.content.success
  {
    var index := IndexStep(o.rootSet, o.indexFound, id, status);
    match k
    case TaskPrd => MoveUpdate(index, o.content, MoveStep(reg, id, status, o.moved))
    case Prd => MoveUpdate(index, o.content, MoveStep(reg, id, status, o.moved))
    case Uacc => CoveringUpdate(index, o.content, o.covering)
    case Sacc => CoveringUpdate(index, o.content, o.covering)
    case Req => CombineUpdateResults(index, o.content, id)
    case Task => CombineUpdateResults(index, o.content, id)
  }

  /**
   * The index update decides nothing: whatever the index answers, a status
   * update succeeds or fails alike.
   */
  lemma IndexNeverDecides(reg: Registry, k: Kind, id: string, status: string, o: Outcomes, rootSet: bool, found: bool)
    ensures UpdateStatus(reg, k, id, status, o).success
         == UpdateStatus(reg, k, id, status, o.(rootSet := rootSet, indexFound := found)).success
  {
  }

  /**
   * A status outside the type's move list moves nothing: the TASKPRD and
   * PRD updates then succeed exactly when the content update does, with no
   * move note.
   */
  lemma NoMoveStatus(reg: Registry, k: Kind, id: string, status: string, o: Outcomes)
    requires k == TaskPrd || k == Prd
    requires TypeFromId(reg, id).Success? && status !in MoveStatuses(reg, TypeFromId(reg, id).value)
    ensures UpdateStatus(reg, k, id, status, o).success == o.content.success
    ensures |UpdateStatus(reg, k, id, status, o).updates| == 2
  {
    NoMoveUnnoted();
  }

  /** The answer for a status that moves nothing adds no note. */
  lemma NoMoveUnnoted()
    ensures !MoveNoted(Step(true, Some(NoMoveMessage), None))
  {
    assert StartsWith(NoMoveMessage, "No file move required");
  }

  /** `handle_artifact_status_update`: the ID's handler's update, or nothing without one. */
  function HandleStatusUpdate(reg: Registry, id: string, status: string, o: Outcomes): (r: Option<Report>)
    ensures '-' !in id ==> r.None?
    ensures r.Some? <==> HandlerForId(id).Some?
    ensures r.Some? ==> r.value == UpdateStatus(reg, HandlerForId(id).value, id, status, o)
  {
    match HandlerForId(id)
    case None => None
    case Some(k) => Some(UpdateStatus(reg, k, id, status, o))
  }

  /** A handled update of a supported type needs its content update to succeed. */
  lemma HandledNeedsContent(reg: Registry, id: string, status: string, o: Outcomes)
    requires '-' in id && Upper(Split(id, '-')[0]) in SupportedTypes
    ensures HandleStatusUpdate(reg, id, status, o).Some?
    ensures HandleStatusUpdate(reg, id, status, o).value.success ==> o.content.success
  {
    GetHandlerIff(Split(id, '-')[0]);
  }

  // ------------------------------------------------------------ finalize and steps

  /** A finalisation report: `handler_type`, `artifact_id`, `status`, `message`, `actions_performed`. */
  datatype FinalReport = FinalReport(handlerType: string, artifactId: string, status: string, message: string, actions: seq<string>)

  /** The classes that override `finalize` with their own post-processing. */
  predicate FinalizesItself(k: Kind)
  {
    k == TaskPrd || k == Prd
  }

  /** The default `finalize`: nothing to do, reported under the class's own type. */
  function DefaultFinalize(k: Kind, id: string): (r: FinalReport)
    ensures r.handlerType == KindCode(k) && r.artifactId == id && r.status == "completed"
  {
    var code := KindCode(k);
    FinalReport(code, id, "completed", code + " handler processed " + id + " (no post-processing needed)",
                ["No post-processing required for this artifact type"])
  }

  /**
   * `handle_artifact_finalization`: the type's handler finalises, the
   * overriding classes with their own report (`custom`), the others with
   * the default; without a handler, nothing.
   */
  function HandleFinalization(t: string, id: string, custom: Kind -> FinalReport): (r: Option<FinalReport>)
    ensures r.Some? <==> Upper(t) in SupportedTypes
    ensures r.Some? && !FinalizesItself(GetHandler(t).value) ==>
      r.value.handlerType == Upper(t) && r.value.artifactId == id && r.value.status == "completed"
  {
    GetHandlerIff(t);
    match GetHandler(t)
    case None => None
    case Some(k) => Some(if FinalizesItself(k) then custom(k) else DefaultFinalize(k, id))
  }

  /** The classes that override `mark_step_done`. */
  predicate MarksSteps(k: Kind)
  {
    k == Task || k == Uacc || k == Sacc
  }

  /** The default `mark_step_done`: a refusal naming the class's type. */
  function DefaultMarkStep(k: Kind): (r: Step)
    ensures !r.success && r.message == Some("Artifact type " + KindCode(k) + " does not support step marking")
  {
    Step(false, Some("Artifact type " + KindCode(k) + " does not support step marking"), None)
  }

  /**
   * `mark_step_done` on the type's handler: the overriding classes check off
   * the step their own way (`custom`), the others refuse under the type's
   * own code; without a handler, nothing.
   */
  function MarkStepDone(t: string, custom: Kind -> Step): (r: Option<Step>)
    ensures r.Some? <==> Upper(t) in SupportedTypes
    ensures r.Some? && !MarksSteps(GetHandler(t).value) ==>
      !r.value.success && r.value.message == Some("Artifact type " + Upper(t) + " does not support step marking")
    ensures r.Some? && MarksSteps(GetHandler(t).value) ==> Upper(t) in {"TASK", "UACC", "SACC"}
  {
    GetHandlerIff(t);
    match GetHandler(t)
    case None => None
    case Some(k) => Some(if MarksSteps(k) then custom(k) else DefaultMarkStep(k))
  }

  // ------------------------------------------------------------ add_reference

  /** Why `add_reference` refuses. */
  datatype RefError =
    | TargetTypeUnknown(te: TypeError)              // the target ID names no configured type
    | NoReferences(targetType: string)              // the target type lists no `reference_types`
    | RefTypeUnknown(re: TypeError)                 // the referencing ID names no configured type
    | RefNotAllowed(refType: string, targetType: string, allowed: seq<string>)
    | Unreadable(id: string, message: Option<string>) // `get_artifact` failed
    | HeaderFailed(he: HeaderCodec.HeaderError)     // `update_managed_header` raised
    | NoFilePath(id: string)                        // no file path, or an empty one, came with the artifact

  /** A loaded artifact: its content and the file it was read from, when it has one. */
  datatype Loaded = Loaded(content: string, filePath: Option<string>)

  /** The `reference_types` of type `t`. */
  function ReferenceTypes(reg: Registry, t: string): seq<string>
  {
    match GetTypeInfo(reg, t)
    case Success(info) => info.referenceTypes
    case Failure(_) => []
  }

  /** The header update `add_reference` makes. */
  function ReferenceUpdate(ref: string): seq<(string, string)>
  {
    [("REFERENCED_BY", ref)]
  }

  /** What a successful `add_reference` took: every check passed and the header update is what is written. */
  predicate ReferenceAccepted(reg: Registry, items: seq<HeaderCodec.HeaderItem>, target: string, ref: string,
                              loaded: Result<Loaded, Option<string>>, path: string, written: string)
  {
    && TypeFromId(reg, target).Success? && TypeFromId(reg, ref).Success?
    && TypeFromId(reg, ref).value in ReferenceTypes(reg, TypeFromId(reg, target).value)
    && loaded.Success? && loaded.value.filePath == Some(path) && path != ""
    && HeaderCodec.Update(reg, items, loaded.value.content, ReferenceUpdate(ref)) == Success(written)
  }

  /**
   * `add_reference`: the target's type must list the referencing ID's type
   * among its `reference_types`; the target is loaded, its managed header
   * gets the reference, and the new content is written to its file. The
   * result is the file written and what is written to it.
   */
  function AddReference(reg: Registry, items: seq<HeaderCodec.HeaderItem>, target: string, ref: string,
                        loaded: Result<Loaded, Option<string>>): (r: Result<(string, string), RefError>)
    ensures r.Success? ==> ReferenceAccepted(reg, items, target, ref, loaded, r.value.0, r.value.1)
  {
    match TypeFromId(reg, target)
    case Failure(e) => Failure(TargetTypeUnknown(e))
    case Success(targetType) =>
      var allowed := ReferenceTypes(reg, targetType);
      if allowed == [] then Failure(NoReferences(targetType))
      else match TypeFromId(reg, ref)
        case Failure(e) => Failure(RefTypeUnknown(e))
        case Success(refType) =>
          if refType !in allowed then Failure(RefNotAllowed(refType, targetType, allowed))
          else match loaded
            case Failure(m) => Failure(Unreadable(target, m))
            case Success(a) =>
              match HeaderCodec.Update(reg, items, a.content, ReferenceUpdate(ref))
              case Failure(e) => Failure(HeaderFailed(e))
              case Success(updated) =>
                if a.filePath.None? || a.filePath.value == "" then Failure(NoFilePath(target))
                else Success((a.filePath.value, updated))
  }

  /** `add_reference` succeeds exactly when every check passes, and then writes the header update. */
  lemma AddReferenceIff(reg: Registry, items: seq<HeaderCodec.HeaderItem>, target: string, ref: string,
                        loaded: Result<Loaded, Option<string>>, path: string, written: string)
    ensures AddReference(reg, items, target, ref, loaded) == Success((path, written))
        <==> ReferenceAccepted(reg, items, target, ref, loaded, path, written)
  {
  }

  /** A target type without `reference_types` refuses every reference, before looking at it. */
  lemma NoReferenceTypesRefuse(reg: Registry, items: seq<HeaderCodec.HeaderItem>, target: string, ref: string,
                               loaded: Result<Loaded, Option<string>>)
    requires TypeFromId(reg, target).Success? && ReferenceTypes(reg, TypeFromId(reg, target).value) == []
    ensures AddReference(reg, items, target, ref, loaded) == Failure(NoReferences(TypeFromId(reg, target).value))
  {
  }
}
