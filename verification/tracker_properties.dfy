/** Properties of the tracker that span several tool calls or compare two
    modes: a capture read back by id and by name, the id-before-name
    lookup order, and the different verdicts of retrieve and status on a
    miss. */
module TrackerProperties {
  import opened Basics
  import opened ProjectStorage
  import opened ProjectTracker
  import StorageProperties

  /** A request that only looks something up. */
  function LookupRequest(mode: Mode, name: Option<string>, id: Option<string>): Request
  {
    Request(mode, name, None, None, None, None, None, None, id)
  }

  /** Capturing and then retrieving by the id the capture offers restores
      the captured record: the same decisions, blockers and next steps, in
      the same order. */
  lemma CaptureThenRetrieveById(s: Store, req: Request, env: Env, glob: seq<string>)
    requires Valid(s) && Given(req.projectName)
    requires Given(req.continuationId) || env.freshId != ""
    requires Enumerates(glob, CaptureMode(s, req, env).1.files)
    ensures var (out, t) := CaptureMode(s, req, env);
            var back := RetrieveMode(t, LookupRequest(Retrieve, None, Some(out.offer.value.continuationId)), glob).0;
            && back.status == ContinuationAvailable
            && back.body == Restored(out.body.project)
            && back.body.project.decisions == ListOr(req.decisions)
            && back.body.project.blockers == ListOr(req.blockers)
            && back.body.project.nextSteps == ListOr(req.nextSteps)
            && back.offer == out.offer
  {
  }

  /** Capturing and then retrieving by the same project name finds a record
      of that name; it is the captured one unless another memory entry
      carries the same name. */
  lemma CaptureThenRetrieveByName(s: Store, req: Request, env: Env, glob: seq<string>)
    requires Valid(s) && Given(req.projectName)
    requires Enumerates(glob, CaptureMode(s, req, env).1.files)
    ensures var (out, t) := CaptureMode(s, req, env);
            var back := RetrieveMode(t, LookupRequest(Retrieve, req.projectName, None), glob).0;
            && back.status == ContinuationAvailable
            && back.body.Restored?
            && back.body.project.projectName == req.projectName.value
            && ((forall k :: k in s.memory && k != out.offer.value.continuationId ==>
                   s.memory[k].projectName != req.projectName.value)
                ==> back.body == Restored(out.body.project))
  {
    var id := if Given(req.continuationId) then req.continuationId.value else env.freshId;
    var p := NewProject(req, id, env);
    var persist := req.persist == Some(true);
    StorageProperties.SaveThenGetByName(s, p, persist, env.savedAt, glob);
  }

  /** Status after a capture reports the captured record's overview: its
      summary line, blocker count and first next step. */
  lemma CaptureThenStatus(s: Store, req: Request, env: Env, glob: seq<string>)
    requires Valid(s) && Given(req.projectName)
    requires Given(req.continuationId) || env.freshId != ""
    requires Enumerates(glob, CaptureMode(s, req, env).1.files)
    ensures var (out, t) := CaptureMode(s, req, env);
            var st := StatusMode(t, LookupRequest(Status, None, Some(out.offer.value.continuationId)), glob).0;
            && st.status == Success
            && st.body.Overview?
            && st.body.summary == Summary(TextOr(req.context, ""))
            && st.body.blockerCount == |ListOr(req.blockers)|
            && st.body.nextUp == NextUp(ListOr(req.nextSteps))
  {
  }

  /** When the continuation id finds a record the project name is never
      consulted: any other name gives the same reply and store. */
  lemma IdHitIgnoresName(s: Store, req: Request, glob: seq<string>, otherName: Option<string>)
    requires Valid(s) && Enumerates(glob, s.files)
    requires Given(req.continuationId) && Get(s, req.continuationId.value).0.Some?
    ensures RetrieveMode(s, req, glob) == RetrieveMode(s, req.(projectName := otherName), glob)
    ensures StatusMode(s, req, glob) == StatusMode(s, req.(projectName := otherName), glob)
  {
  }

  /** When the continuation id misses, the lookup is exactly the lookup by
      name alone, and the store is unchanged. */
  lemma IdMissFallsBackToName(s: Store, req: Request, glob: seq<string>)
    requires Valid(s) && Enumerates(glob, s.files)
    requires Given(req.continuationId) && Get(s, req.continuationId.value).0.None?
    ensures Lookup(s, req, glob) == Lookup(s, req.(continuationId := None), glob)
    ensures Lookup(s, req, glob).1 == s
  {
  }

  /** On a miss both modes show the same listing of at most ten projects and
      leave the store alone, but retrieve calls it an error and status a
      success. */
  lemma MissVerdicts(s: Store, req: Request, glob: seq<string>)
    requires Valid(s) && Enumerates(glob, s.files)
    requires Lookup(s, req, glob).0.None?
    ensures var (r, rs) := RetrieveMode(s, req, glob);
            var (t, ts) := StatusMode(s, req, glob);
            && r.status == Error && t.status == Success
            && r.body == t.body && r.body.Listing?
            && |r.body.shown| <= MaxListed
            && r.body.shown == ListProjects(s, glob)[..|r.body.shown|]
            && rs == s && ts == s
  {
  }

  /** A capture without a name refuses, whatever else is asked, and leaves
      the store untouched; so does an unknown mode. */
  lemma RefusalsChangeNothing(s: Store, req: Request, env: Env, glob: seq<string>)
    requires Valid(s) && Enumerates(glob, s.files)
    requires (req.mode == Capture && !Given(req.projectName)) || req.mode.Unknown?
    ensures Execute(s, req, env, glob).0.status == Error
    ensures Execute(s, req, env, glob).1 == s
  {
  }

  /** The simulator's hand-off scenario: a persisted capture in one process
      is restored, by the offered id, in a fresh process, with its decisions,
      blockers, next steps and focus areas; by name too. */
  lemma DarkModeHandOff()
    ensures
      var decisions := ["Use CSS variables for theming", "Toggle in settings page",
                        "Support system preference detection"];
      var blockers := ["Need design for toggle icon", "Color palette not finalized"];
      var nextSteps := ["Create theme context provider", "Add toggle component",
                        "Define color palette", "Test with prefers-color-scheme"];
      var focusAreas := ["Accessibility", "Performance"];
      var req := Request(Capture, Some("test-dark-mode-feature"),
                         Some("Implementing dark mode using CSS variables for theming"),
                         Some(decisions), Some(blockers), Some(nextSteps), Some(focusAreas),
                         Some(true), None);
      var env := Env("3f2b1c9e-0000-4000-8000-000000000001", "t0", "t1");
      var (out, t) := CaptureMode(Empty, req, env);
      var later := Restart(t);
      var id := out.offer.value.continuationId;
      var glob := [Sanitize(id)];
      var back := RetrieveMode(later, LookupRequest(Retrieve, None, Some(id)), glob).0;
      var byName := RetrieveMode(later, LookupRequest(Retrieve, Some("test-dark-mode-feature"), None), glob).0;
      && id == env.freshId
      && back.status == ContinuationAvailable
      && back.body.Restored?
      && back.body.project.decisions == decisions
      && back.body.project.blockers == blockers
      && back.body.project.nextSteps == nextSteps
      && back.body.project.focusAreas == focusAreas
      && byName == back
  {
  }
}
