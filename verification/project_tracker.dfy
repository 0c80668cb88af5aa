/** The project tracker tool: the three modes `capture`, `retrieve` and
    `status` layered on the project store. The tool calls no model, so every
    decision is a pure function of the request, the store, a fresh id, the
    clock readings and the directory scan order, all passed in. Only the
    structure of the replies is modelled; their markdown wording is not. */
module ProjectTracker {
  import opened Basics
  import opened ProjectStorage

  /** The `mode` argument. Any other string fails request validation. */
  datatype Mode = Capture | Retrieve | Status | Unknown(name: string)

  /** The tool arguments (`ProjectTrackerRequest`); absent fields are `None`. */
  datatype Request = Request(
    mode: Mode,
    projectName: Option<string>,
    context: Option<string>,
    decisions: Option<seq<string>>,
    blockers: Option<seq<string>>,
    nextSteps: Option<seq<string>>,
    focusAreas: Option<seq<string>>,
    persist: Option<bool>,
    continuationId: Option<string>)

  /** What the tool would otherwise take from the process: the id `uuid4()`
      would produce, the construction time of a new record and the time
      `save` stamps on it. */
  datatype Env = Env(freshId: string, createdAt: string, savedAt: string)

  /** The reply's `status`. */
  datatype ToolStatus = Success | Error | ContinuationAvailable

  /** The reply's `continuation_offer`. */
  datatype ContinuationOffer = ContinuationOffer(continuationId: string, remainingTurns: nat)

  /** What the reply's content reports. */
  datatype Body =
    | Message(text: string)
      /** a capture: the record as saved, and whether it went to a file */
    | Captured(project: ProjectContext, persisted: bool)
      /** a retrieve hit: the whole record */
    | Restored(project: ProjectContext)
      /** a miss: the projects shown as available */
    | Listing(shown: seq<ListEntry>)
      /** a status hit: the quick overview */
    | Overview(projectId: string, projectName: string, summary: string,
               blockerCount: nat, nextUp: string, updatedAt: string)

  datatype ToolOutput = ToolOutput(status: ToolStatus, body: Body, offer: Option<ContinuationOffer>)

  const RemainingTurns: nat := 50
  const MaxListed: nat := 10
  const SummaryLimit: nat := 100
  const Ellipsis: string := "..."
  const NoSummary: string := "No summary"
  const NoNextSteps: string := "No next steps defined"
  const NameRequired: string := "project_name is required for capture mode"

  /** Python truthiness of an optional string: present and not empty. */
  predicate Given(o: Option<string>)
  {
    o.Some? && o.value != ""
  }

  /** Python's `value or default` for an optional string. */
  function TextOr(o: Option<string>, default: string): (r: string)
    ensures Given(o) ==> r == o.value
    ensures !Given(o) ==> r == default
  {
    if Given(o) then o.value else default
  }

  /** Python's `value or []` for an optional list. */
  function ListOr(o: Option<seq<string>>): (r: seq<string>)
    ensures o.Some? ==> r == o.value
    ensures o.None? ==> r == []
  {
    if o.Some? && o.value != [] then o.value else []
  }

  // ---------------------------------------------------------------------
  // capture
  // ---------------------------------------------------------------------

  /** The record a capture builds, before `save` stamps it. */
  function NewProject(req: Request, id: string, env: Env): (p: ProjectContext)
    requires Given(req.projectName)
    ensures p.projectId == id && p.projectName == req.projectName.value
    ensures p.context == TextOr(req.context, "") && p.summary == ""
    ensures p.decisions == ListOr(req.decisions) && p.blockers == ListOr(req.blockers)
    ensures p.nextSteps == ListOr(req.nextSteps) && p.focusAreas == ListOr(req.focusAreas)
    ensures p.metadata == map[]
  {
    ProjectContext(
      id, req.projectName.value, "", TextOr(req.context, ""),
      ListOr(req.decisions), ListOr(req.blockers), ListOr(req.nextSteps), ListOr(req.focusAreas),
      env.createdAt, env.createdAt, map[])
  }

  /** `_handle_capture`: needs a project name; files the record under the
      continuation id if one is given, else under the fresh id; offers that
      id back for 50 more turns. */
  function CaptureMode(s: Store, req: Request, env: Env): (r: (ToolOutput, Store))
    ensures !Given(req.projectName) ==> r.0 == ToolOutput(Error, Message(NameRequired), None) && r.1 == s
    ensures Given(req.projectName) ==>
              var id := if Given(req.continuationId) then req.continuationId.value else env.freshId;
              && r.0.status == ContinuationAvailable
              && r.0.offer == Some(ContinuationOffer(id, RemainingTurns))
              && r.0.body.Captured?
              && r.0.body.persisted == (req.persist == Some(true))
              && r.0.body.project == NewProject(req, id, env).(updatedAt := env.savedAt)
              && r.1 == Save(s, NewProject(req, id, env), req.persist == Some(true), env.savedAt).1
    ensures Valid(s) ==> Valid(r.1)
  {
    if !Given(req.projectName) then
      (ToolOutput(Error, Message(NameRequired), None), s)
    else
      var id := TextOr(req.continuationId, env.freshId);
      var persist := req.persist == Some(true);
      var p := NewProject(req, id, env);
      var (_, t) := Save(s, p, persist, env.savedAt);
      (ToolOutput(ContinuationAvailable, Captured(p.(updatedAt := env.savedAt), persist),
                  Some(ContinuationOffer(id, RemainingTurns))), t)
  }

  // ---------------------------------------------------------------------
  // retrieve / status
  // ---------------------------------------------------------------------

  /** The lookup `retrieve` and `status` share: by continuation id first
      (which may cache a file hit), then by name if that found nothing. */
  function Lookup(s: Store, req: Request, glob: seq<string>): (r: (Option<ProjectContext>, Store))
    requires Valid(s) && Enumerates(glob, s.files)
    ensures Valid(r.1) && r.1.files == s.files
    ensures Given(req.continuationId) && Get(s, req.continuationId.value).0.Some? ==>
              r == Get(s, req.continuationId.value)
    ensures (!Given(req.continuationId) || Get(s, req.continuationId.value).0.None?) ==>
              r.1 == s
              && (Given(req.projectName) ==> r.0 == GetByName(s, req.projectName.value, glob))
              && (!Given(req.projectName) ==> r.0 == None)
    ensures r.0.None? ==> r.1 == s
  {
    var (byId, t) := if Given(req.continuationId) then Get(s, req.continuationId.value) else (None, s);
    if byId.None? && Given(req.projectName) then (GetByName(t, req.projectName.value, glob), t)
    else (byId, t)
  }

  /** What a miss shows: the first ten projects the store lists. */
  function Available(s: Store, glob: seq<string>): (shown: seq<ListEntry>)
    requires Valid(s) && Enumerates(glob, s.files)
    ensures |shown| <= MaxListed && |shown| <= |ListProjects(s, glob)|
    ensures shown == ListProjects(s, glob)[..|shown|]
    ensures |shown| < MaxListed ==> shown == ListProjects(s, glob)
  {
    Take(ListProjects(s, glob), MaxListed)
  }

  /** `_handle_retrieve`: the whole record on a hit, an error listing the
      available projects on a miss. */
  function RetrieveMode(s: Store, req: Request, glob: seq<string>): (r: (ToolOutput, Store))
    requires Valid(s) && Enumerates(glob, s.files)
    ensures Valid(r.1) && r.1.files == s.files
    ensures r.1 == Lookup(s, req, glob).1
    ensures Lookup(s, req, glob).0.Some? ==>
              var p := Lookup(s, req, glob).0.value;
              r.0 == ToolOutput(ContinuationAvailable, Restored(p), Some(ContinuationOffer(p.projectId, RemainingTurns)))
    ensures Lookup(s, req, glob).0.None? ==>
              r.1 == s && r.0.status == Error && r.0.offer == None
              && r.0.body == Listing(Available(s, glob))
  {
    var (found, t) := Lookup(s, req, glob);
    match found
    case None => (ToolOutput(Error, Listing(Available(t, glob)), None), t)
    case Some(p) =>
      (ToolOutput(ContinuationAvailable, Restored(p), Some(ContinuationOffer(p.projectId, RemainingTurns))), t)
  }

  /** The summary line of a status overview: the context itself up to 100
      characters, else its first 100 characters and an ellipsis. */
  function Summary(context: string): (r: string)
    ensures context == "" ==> r == NoSummary
    ensures context != "" && |context| <= SummaryLimit ==> r == context
    ensures |context| > SummaryLimit ==>
              |r| == SummaryLimit + |Ellipsis| && r[..SummaryLimit] == context[..SummaryLimit]
              && r[SummaryLimit..] == Ellipsis
  {
    if context != "" && |context| > SummaryLimit then context[..SummaryLimit] + Ellipsis
    else if context != "" then context
    else NoSummary
  }

  /** The "Next Up" line: the first pending step. */
  function NextUp(nextSteps: seq<string>): (r: string)
    ensures nextSteps != [] ==> r == nextSteps[0]
    ensures nextSteps == [] ==> r == NoNextSteps
  {
    if nextSteps != [] then nextSteps[0] else NoNextSteps
  }

  /** The quick overview of one project. */
  function OverviewOf(p: ProjectContext): (b: Body)
    ensures b.Overview? && b.projectId == p.projectId && b.projectName == p.projectName
    ensures b.blockerCount == |p.blockers| && b.updatedAt == p.updatedAt
    ensures b.summary == Summary(p.context) && b.nextUp == NextUp(p.nextSteps)
  {
    Overview(p.projectId, p.projectName, Summary(p.context), |p.blockers|, NextUp(p.nextSteps), p.updatedAt)
  }

  /** `_handle_status`: an overview on a hit, the listing on a miss; never
      an error. */
  function StatusMode(s: Store, req: Request, glob: seq<string>): (r: (ToolOutput, Store))
    requires Valid(s) && Enumerates(glob, s.files)
    ensures Valid(r.1) && r.1.files == s.files
    ensures r.0.status == Success && r.0.offer == None
    ensures r.1 == Lookup(s, req, glob).1
    ensures Lookup(s, req, glob).0.Some? ==>
              var p := Lookup(s, req, glob).0.value;
              && r.0.body.Overview?
              && r.0.body.projectId == p.projectId && r.0.body.projectName == p.projectName
              && r.0.body.summary == Summary(p.context)
              && r.0.body.blockerCount == |p.blockers|
              && (p.nextSteps != [] ==> r.0.body.nextUp == p.nextSteps[0])
              && (p.nextSteps == [] ==> r.0.body.nextUp == NoNextSteps)
              && r.0.body.updatedAt == p.updatedAt
    ensures Lookup(s, req, glob).0.None? ==> r.1 == s && r.0.body == Listing(Available(s, glob))
  {
    var (found, t) := Lookup(s, req, glob);
    match found
    case None => (ToolOutput(Success, Listing(Available(t, glob)), None), t)
    case Some(p) => (ToolOutput(Success, OverviewOf(p), None), t)
  }

  // ---------------------------------------------------------------------
  // dispatch
  // ---------------------------------------------------------------------

  /** The record under `key` is the same before and after. */
  predicate Kept(s: Store, t: Store, key: string)
    requires key in s.memory
  {
    key in t.memory && t.memory[key] == s.memory[key]
  }

  /** `execute`: dispatch on the mode. Only a capture writes; a retrieve or
      a status at most caches a file record in memory; an unknown mode is an
      error that touches nothing. */
  function Execute(s: Store, req: Request, env: Env, glob: seq<string>): (r: (ToolOutput, Store))
    requires Valid(s) && Enumerates(glob, s.files)
    ensures Valid(r.1)
    ensures req.mode.Unknown? ==> r.0.status == Error && r.1 == s
    ensures req.mode == Status ==> r.0.status == Success
    ensures r.0.status == Error <==>
              || req.mode.Unknown?
              || (req.mode == Capture && !Given(req.projectName))
              || (req.mode == Retrieve && Lookup(s, req, glob).0.None?)
    ensures !(req.mode == Capture && req.persist == Some(true)) ==> r.1.files == s.files
    ensures req.mode != Capture ==> forall k :: k in s.memory ==> Kept(s, r.1, k)
    ensures req.mode != Capture ==>
              forall k :: k in r.1.memory && k !in s.memory ==> req.continuationId == Some(k)
  {
    match req.mode
    case Capture => CaptureMode(s, req, env)
    case Retrieve => RetrieveMode(s, req, glob)
    case Status => StatusMode(s, req, glob)
    case Unknown(m) =>
      (ToolOutput(Error, Message("Unknown mode: " + m + ". Valid modes: capture, retrieve, status"), None), s)
  }
}
