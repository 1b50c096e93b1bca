/**
 * The pipeline session and the helpers that change it (src/core/pipeline/stateMachine.ts).
 * Times are not part of the model, so a session is equal to another one "timestamps aside".
 */
module PipelineSession {
  import opened Options
  import opened Text

  datatype RunStatus =
    Queued | Planning | Coding | Verifying | Repairing | AwaitingReview | Completed | Failed | Cancelled

  datatype StageId = Planner | Coder | Verifier | Repair | Complete

  datatype StageStatus = Pending | Running | Succeeded | Broken | Skipped

  datatype Routing = Routing(provider: string, model: string)

  /** The fixed summary texts a stage can carry, one constructor for each. */
  datatype Note =
    | Blank
    | PlanReady(text: string)
    | PlannerFailed
    | CoderFailed
    | ProposalsReady(fileCount: int)
    | VerificationPassed
    | VerificationFailed
    | NotNeeded
    | RepairCancelled
    | RepairFailed
    | RepairApplied
    | PassedAfterRepair
    | PipelineCompleted

  /** The error texts a stage or a session can carry. */
  datatype Fault =
    | Reported(text: string)
    | NoPlan
    | ProposeFailed
    | VerificationFault
    | RepairApprovalCancelled
    | RepairFault

  datatype StageRecord = StageRecord(
    status: StageStatus,
    routing: Routing,
    summary: Note,
    error: Option<Fault>,
    contextSnapshotId: Option<string>)

  /** A session always holds these five stages; no helper adds or drops one. */
  datatype Stages = Stages(
    planner: StageRecord,
    coder: StageRecord,
    verifier: StageRecord,
    repair: StageRecord,
    complete: StageRecord)

  datatype PlannerOutput = PlannerOutput(
    goal: string,
    summary: string,
    files: seq<(string, string)>,
    risks: seq<string>)

  /** The verification result is opaque to the pipeline: it only stores it and passes it on. */
  datatype Verification = Verification(typecheckOk: bool, buildOk: bool, tag: int)

  datatype Session = Session(
    runId: string,
    prompt: string,
    status: RunStatus,
    stages: Stages,
    plannerOutput: Option<PlannerOutput>,
    verification: Option<Verification>,
    repairAttempts: nat,
    error: Option<Fault>)

  const Gemini := Routing("gemini", "")
  const Local := Routing("local", "local")
  const Ollama := Routing("ollama", "")

  function EmptyStage(id: StageId): StageRecord {
    StageRecord(Pending, if id.Verifier? then Local else Gemini, Blank, None, None)
  }

  /** A session no stage of which has started. */
  function Fresh(runId: string, prompt: string): Session {
    Session(runId, prompt, Queued,
            Stages(EmptyStage(Planner), EmptyStage(Coder), EmptyStage(Verifier), EmptyStage(Repair),
                   EmptyStage(Complete)),
            None, None, 0, None)
  }

  /** `createPipelineSession`; the run id is a parameter. */
  function Create(runId: string, prompt: string): Session {
    Fresh(runId, Trim(prompt))
  }

  /** `getPipelineStage`. */
  function Get(s: Session, id: StageId): StageRecord {
    match id
    case Planner => s.stages.planner
    case Coder => s.stages.coder
    case Verifier => s.stages.verifier
    case Repair => s.stages.repair
    case Complete => s.stages.complete
  }

  /** `patchPipelineStage`: replaces one stage record. */
  function Patch(s: Session, id: StageId, record: StageRecord): Session {
    s.(stages := match id
                 case Planner => s.stages.(planner := record)
                 case Coder => s.stages.(coder := record)
                 case Verifier => s.stages.(verifier := record)
                 case Repair => s.stages.(repair := record)
                 case Complete => s.stages.(complete := record))
  }

  /** `startPipelineStage`: the stage runs and the session takes the stage's own status, if it has one. */
  function Start(s: Session, id: StageId, routing: Routing): Session {
    var next := Patch(s, id, Get(s, id).(status := Running, routing := routing, error := None));
    match id
    case Planner => next.(status := Planning)
    case Coder => next.(status := Coding)
    case Verifier => next.(status := Verifying)
    case Repair => next.(status := Repairing)
    case Complete => next
  }

  /** An id that JavaScript counts as true: present and not empty. */
  predicate Truthy(id: Option<string>) {
    id.Some? && id.value != ""
  }

  /** `finishPipelineStage(.., true, ..)`. */
  function Finish(s: Session, id: StageId, summary: Note, snapshotId: Option<string>): Session {
    var stage := Get(s, id).(status := Succeeded, summary := summary, error := None);
    Patch(s, id, if Truthy(snapshotId) then stage.(contextSnapshotId := snapshotId) else stage)
  }

  /** `finishPipelineStage(.., false, ..)`: a broken stage also fails the session and records the error. */
  function Break(s: Session, id: StageId, summary: Note, error: Fault): Session {
    var next := Patch(s, id, Get(s, id).(status := Broken, summary := summary, error := Some(error)));
    next.(status := Failed, error := Some(error))
  }

  /** `skipPipelineStage`. */
  function Skip(s: Session, id: StageId, reason: Note): Session {
    Patch(s, id, Get(s, id).(status := Skipped, summary := reason))
  }

  /** `completePipelineSession`. */
  function Close(s: Session, ok: bool): Session {
    s.(status := if ok then Completed else Failed)
  }

  /** `cancelPipelineSession`. */
  function Cancel(s: Session): Session {
    s.(status := Cancelled)
  }

  /** `patchRouting` of src/app/multiAgentPipeline.ts. */
  function Route(s: Session, id: StageId, routing: Routing): Session {
    Patch(s, id, Get(s, id).(routing := routing))
  }
}
