/**
 * What a run of src/app/multiAgentPipeline.ts does, as a function of the session it starts from and
 * of the answers its dependencies give.
 *
 * The answers arrive in one list. A call takes the head of the list when the head is an answer of
 * that dependency; otherwise the call is never answered and the run hangs there. A list that is too
 * short therefore stands for a process that is killed, or a dependency that throws, at that call.
 */
module PipelineRun {
  import opened Options
  import opened PipelineSession
  datatype AiPlan = AiPlan(summary: string, files: seq<(string, string)>, risks: seq<string>)

  datatype AiResult = AiResult(ok: bool, plan: Option<AiPlan>, error: Option<string>, parseError: Option<string>)

  datatype Reply =
    | PlannerReply(result: Option<AiResult>, plannerSnapshot: Option<string>, plannerRouting: Routing)
    | CoderReply(coderOk: bool, coderError: Option<string>, coderSnapshot: Option<string>, coderRouting: Routing,
                 fileCount: int)
    | ReviewReply(approved: bool)
    | ApplyReply(applyOk: bool, applyVerification: Option<Verification>, applied: seq<string>,
                 applyError: Option<string>)
    | RepairReply(repairOk: bool, repairError: Option<string>, repairVerification: Option<Verification>,
                  awaitingApproval: bool, repairRouting: Routing)
    | RepairApprovalReply(repairApproved: bool)

  datatype Ask =
    | AskPlanner(prompt: string)
    | AskCoder(prompt: string)
    | AskReview
    | AskApply
    | AskRepair(verification: Option<Verification>, applied: seq<string>, prompt: string, planSummary: string)
    | AskRepairApproval

  /** The answers a call accepts. */
  predicate Answers(ask: Ask, reply: Reply) {
    match ask
    case AskPlanner(_) => reply.PlannerReply?
    case AskCoder(_) => reply.CoderReply?
    case AskReview => reply.ReviewReply?
    case AskApply => reply.ApplyReply?
    case AskRepair(_, _, _, _) => reply.RepairReply?
    case AskRepairApproval => reply.RepairApprovalReply?
  }

  /** One observable step: a session handed to `onSessionUpdate`, a dependency call, or its answer. */
  datatype Event = Emit(session: Session) | Call(ask: Ask) | Got(reply: Reply)

  /** How one phase ends: it returns ok, it returns not ok, it goes round the loop again, or it hangs. */
  datatype End = Passed(session: Session) | Stopped(session: Session) | Again(session: Session) | Hung

  datatype Phase = Phase(events: seq<Event>, end: End, rest: seq<Reply>)

  /** A whole run: `result` is absent when the run hung. */
  datatype Run = Run(events: seq<Event>, result: Option<Session>, rest: seq<Reply>)

  datatype ResumePhase = PlannerPhase | CoderPhase | ReviewPhase | VerifyLoop | Finished

  /** `resolvePipelineResumePhase`. */
  function Resolve(s: Session): ResumePhase {
    if s.status.Completed? then Finished
    else if s.status.AwaitingReview? then ReviewPhase
    else if s.status.Verifying? || s.status.Repairing? then VerifyLoop
    else if s.stages.coder.status.Succeeded? then
      if s.status.Coding? then ReviewPhase else VerifyLoop
    else if s.status.Coding? || s.stages.coder.status.Running? then CoderPhase
    else if s.stages.planner.status.Succeeded? && s.plannerOutput.Some? then CoderPhase
    else PlannerPhase
  }

  /** `planner.result?.ok && planner.result.plan`. */
  predicate HasPlan(result: Option<AiResult>) {
    result.Some? && result.value.ok && result.value.plan.Some?
  }

  /** `planner.result?.error ?? planner.result?.parseError ?? "No plan"`. */
  function PlannerFault(result: Option<AiResult>): Fault {
    if result.None? then NoPlan
    else if result.value.error.Some? then Reported(result.value.error.value)
    else if result.value.parseError.Some? then Reported(result.value.parseError.value)
    else NoPlan
  }

  function FaultOr(error: Option<string>, default: Fault): Fault {
    if error.Some? then Reported(error.value) else default
  }

  /** `plannerOutputFromAiPlan`, for a result that has a plan; prompt and summary arrive trimmed. */
  function OutputOf(prompt: string, plan: AiPlan): PlannerOutput {
    PlannerOutput(prompt, plan.summary, plan.files, plan.risks)
  }

  function PlanSummary(s: Session): string {
    if s.plannerOutput.Some? then s.plannerOutput.value.summary else ""
  }

  // ---- The four phases ----

  function RunPlanner(s: Session, script: seq<Reply>): Phase {
    var started := Start(s, Planner, Gemini);
    var opening := [Emit(started), Call(AskPlanner(s.prompt))];
    if script == [] || !script[0].PlannerReply? then Phase(opening, Hung, script)
    else
      var r := script[0];
      var routed := Route(started, Planner, r.plannerRouting);
      if !HasPlan(r.result) then
        var failed := Break(routed, Planner, PlannerFailed, PlannerFault(r.result));
        Phase(opening + [Got(r), Emit(routed), Emit(failed), Emit(Close(failed, false))],
              Stopped(Close(failed, false)), script[1..])
      else
        var output := OutputOf(s.prompt, r.result.value.plan.value);
        var done := Finish(routed, Planner, PlanReady(output.summary),
                           r.plannerSnapshot).(plannerOutput := Some(output));
        Phase(opening + [Got(r), Emit(routed), Emit(done)], Passed(done), script[1..])
  }

  function RunCoder(s: Session, script: seq<Reply>): Phase {
    var started := Start(s, Coder, Gemini);
    var opening := [Emit(started), Call(AskCoder(s.prompt))];
    if script == [] || !script[0].CoderReply? then Phase(opening, Hung, script)
    else
      var r := script[0];
      var routed := Route(started, Coder, r.coderRouting);
      if !r.coderOk then
        var failed := Break(routed, Coder, CoderFailed, FaultOr(r.coderError, ProposeFailed));
        Phase(opening + [Got(r), Emit(routed), Emit(failed), Emit(Close(failed, false))],
              Stopped(Close(failed, false)), script[1..])
      else
        var done := Finish(routed, Coder, ProposalsReady(r.fileCount), r.coderSnapshot);
        Phase(opening + [Got(r), Emit(routed), Emit(done)], Passed(done), script[1..])
  }

  function RunReview(s: Session, script: seq<Reply>): Phase {
    var waiting := s.(status := AwaitingReview);
    var opening := [Emit(waiting), Call(AskReview)];
    if script == [] || !script[0].ReviewReply? then Phase(opening, Hung, script)
    else if !script[0].approved then
      Phase(opening + [Got(script[0]), Emit(Cancel(waiting))], Stopped(Cancel(waiting)), script[1..])
    else Phase(opening + [Got(script[0])], Passed(waiting), script[1..])
  }

  /** One turn of the verify/repair loop up to the point where a repair is asked for. */
  function RunApply(s: Session, maxRepairs: int, script: seq<Reply>): Phase {
    var started := Start(s, Verifier, Local);
    var opening := [Emit(started), Call(AskApply)];
    if script == [] || !script[0].ApplyReply? then Phase(opening, Hung, script)
    else
      var r := script[0];
      if r.applyOk && r.applyVerification.Some? then
        var passed := Finish(started, Verifier, VerificationPassed, None);
        var stored := passed.(verification := r.applyVerification);
        if s.repairAttempts == 0 then
          var skipped := Skip(stored, Repair, NotNeeded);
          Phase(opening + [Got(r), Emit(passed), Emit(stored), Emit(skipped)], Passed(skipped), script[1..])
        else
          Phase(opening + [Got(r), Emit(passed), Emit(stored)], Passed(stored), script[1..])
      else
        var failed := Break(started, Verifier, VerificationFailed, FaultOr(r.applyError, VerificationFault));
        if s.repairAttempts >= maxRepairs then
          Phase(opening + [Got(r), Emit(failed), Emit(Close(failed, false))], Stopped(Close(failed, false)),
                script[1..])
        else
          Phase(opening + [Got(r), Emit(failed)], Again(failed), script[1..])
  }

  /** The repair half of a turn, after `apply` failed. */
  function RunRepair(s: Session, apply: Reply, planSummary: string, script: seq<Reply>): Phase
    requires apply.ApplyReply?
  {
    var started := Start(s, Repair, Ollama);
    var opening := [Emit(started), Call(AskRepair(apply.applyVerification, apply.applied, s.prompt, planSummary))];
    if script == [] || !script[0].RepairReply? then Phase(opening, Hung, script)
    else
      var r := script[0];
      var counted := Route(started, Repair, r.repairRouting).(repairAttempts := s.repairAttempts + 1);
      var answered := opening + [Got(r), Emit(counted)];
      if r.awaitingApproval then
        var asked := answered + [Call(AskRepairApproval)];
        if |script| < 2 || !script[1].RepairApprovalReply? then Phase(asked, Hung, script[1..])
        else if !script[1].repairApproved then
          var cancelled := Break(counted, Repair, RepairCancelled, RepairApprovalCancelled);
          Phase(asked + [Got(script[1]), Emit(cancelled), Emit(Cancel(cancelled))], Stopped(Cancel(cancelled)),
                script[2..])
        else
          SettleRepair(counted, r, asked + [Got(script[1])], script[2..])
      else
        SettleRepair(counted, r, answered, script[1..])
  }

  /** The end of a repair that was not refused. */
  function SettleRepair(counted: Session, r: Reply, before: seq<Event>, rest: seq<Reply>): Phase
    requires r.RepairReply?
  {
    if !r.repairOk then
      var failed := Break(counted, Repair, RepairFailed, FaultOr(r.repairError, RepairFault));
      Phase(before + [Emit(failed), Emit(Close(failed, false))], Stopped(Close(failed, false)), rest)
    else
      var repaired := Finish(counted, Repair, RepairApplied, None);
      if r.repairVerification.Some? then
        var passed := Finish(repaired, Verifier, PassedAfterRepair, None);
        var stored := passed.(verification := r.repairVerification);
        Phase(before + [Emit(repaired), Emit(passed), Emit(stored)], Passed(stored), rest)
      else
        Phase(before + [Emit(repaired)], Again(repaired), rest)
  }

  /** The two emissions after the loop breaks. */
  function Conclude(s: Session): (Session, seq<Event>) {
    var closed := Finish(s, Complete, PipelineCompleted, None);
    (Close(closed, true), [Emit(closed), Emit(Close(closed, true))])
  }

  // ---- Whole runs ----

  function Prefixed(events: seq<Event>, run: Run): Run {
    Run(events + run.events, run.result, run.rest)
  }

  /** What follows a phase: its `Stopped` and `Hung` ends end the run. */
  function Concluded(p: Phase): Run {
    match p.end
    case Passed(s) => var (final, tail) := Conclude(s); Run(p.events + tail, Some(final), p.rest)
    case Stopped(s) => Run(p.events, Some(s), p.rest)
    case Again(_) => Run(p.events, None, p.rest)
    case Hung => Run(p.events, None, p.rest)
  }

  /** `runVerifyRepairLoop`. */
  function RunLoop(s: Session, planSummary: string, maxRepairs: int, script: seq<Reply>): Run
    decreases maxRepairs - s.repairAttempts
  {
    var apply := RunApply(s, maxRepairs, script);
    if !apply.end.Again? then Concluded(apply)
    else
      var repair := RunRepair(apply.end.session, script[0], planSummary, apply.rest);
      if !repair.end.Again? then Prefixed(apply.events, Concluded(repair))
      else
        Prefixed(apply.events + repair.events,
                 RunLoop(repair.end.session, planSummary, maxRepairs, repair.rest))
  }

  /** How many phases come after this one. */
  function Remaining(phase: ResumePhase): nat {
    match phase
    case PlannerPhase => 3
    case CoderPhase => 2
    case ReviewPhase => 1
    case VerifyLoop => 0
    case Finished => 0
  }

  /** `runPipelineFromPhase`. */
  function RunFrom(s: Session, phase: ResumePhase, maxRepairs: int, script: seq<Reply>): Run
    decreases Remaining(phase), 0
  {
    match phase
    case Finished => Run([], Some(s), script)
    case PlannerPhase => Then(RunPlanner(s, script), CoderPhase, maxRepairs)
    case CoderPhase => Then(RunCoder(s, script), ReviewPhase, maxRepairs)
    case ReviewPhase => Then(RunReview(s, script), VerifyLoop, maxRepairs)
    case VerifyLoop => RunLoop(s, PlanSummary(s), maxRepairs, script)
  }

  /** A phase that passed hands its session to the next one; any other end ends the run. */
  function Then(p: Phase, next: ResumePhase, maxRepairs: int): Run
    decreases Remaining(next), 1
  {
    match p.end
    case Passed(s) => Prefixed(p.events, RunFrom(s, next, maxRepairs, p.rest))
    case Stopped(s) => Run(p.events, Some(s), p.rest)
    case Again(_) => Run(p.events, None, p.rest)
    case Hung => Run(p.events, None, p.rest)
  }

  /** `resumeMultiAgentPipeline`. */
  function Resume(s: Session, maxRepairs: int, script: seq<Reply>): Run {
    RunFrom(s, Resolve(s), maxRepairs, script)
  }

  /** `executeMultiAgentPipeline`: emits the new session and starts at the planner. */
  function Execute(runId: string, prompt: string, maxRepairs: int, script: seq<Reply>): Run {
    var s := Create(runId, prompt);
    Prefixed([Emit(s)], RunFrom(s, PlannerPhase, maxRepairs, script))
  }
}
