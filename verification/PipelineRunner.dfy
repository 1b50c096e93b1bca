/**
 * The runner as it is written: methods that reassign the current session, emit it, await their
 * dependencies and loop. Each is proved to do exactly what the functions of PipelineRun say.
 */
module PipelineRunner {
  import opened Options
  import opened PipelineSession
  import opened PipelineRun
  import opened Text
  import R = PipelineResume
  import A = PipelineAnswers

  /** The repair half of a turn, joined to the events before it. */
  lemma {:induction false} RepairTaken(before: seq<Event>, repair: Phase, planSummary: string, maxRepairs: int)
    ensures Prefixed(before, R.AfterApply(repair, planSummary, maxRepairs)) ==
            if repair.end.Again? then
              Prefixed(before + repair.events, RunLoop(repair.end.session, planSummary, maxRepairs, repair.rest))
            else Concluded(Phase(before + repair.events, repair.end, repair.rest))
  {
    hide RunLoop;
    if repair.end.Again? {
      var loop := RunLoop(repair.end.session, planSummary, maxRepairs, repair.rest);
      assert before + (repair.events + loop.events) == before + repair.events + loop.events;
    } else if repair.end.Passed? {
      var tail := Conclude(repair.end.session).1;
      assert before + (repair.events + tail) == before + repair.events + tail;
    }
  }

  /** A turn moves its events from the rest of the loop to what is done. */
  lemma {:induction false} TurnBehind(total: seq<Event>, before: seq<Event>, shown: seq<Event>, todo: Run, next: Run)
    requires total == before + todo.events && todo == Prefixed(shown, next)
    ensures total == before + shown + next.events && todo.result == next.result && todo.rest == next.rest
  {
    assert before + (shown + next.events) == before + shown + next.events;
  }

  /** A phase moves its events from the rest of the run to what is done. */
  lemma {:induction false} PhaseDone(before: seq<Event>, s: Session, phase: ResumePhase, maxRepairs: int,
                                     script: seq<Reply>)
    requires phase.PlannerPhase? || phase.CoderPhase? || phase.ReviewPhase?
    ensures var run, p := RunFrom(s, phase, maxRepairs, script), R.First(s, phase, script);
            var tail := R.Following(p, R.Next(phase), maxRepairs);
            && before + run.events == before + p.events + tail.events
            && run.result == tail.result && run.rest == tail.rest
  {
    hide RunPlanner, RunCoder, RunReview, RunLoop;
    R.RunUnrolled(s, phase, maxRepairs, script);
  }

  lemma {:induction false} FinishedRun(s: Session, maxRepairs: int, script: seq<Reply>)
    ensures RunFrom(s, Finished, maxRepairs, script) == Run([], Some(s), script)
  {
  }

  lemma {:induction false} ConcludedLater(shown: seq<Event>, end: End, rest: seq<Reply>)
    ensures Concluded(Phase(shown, end, rest)) == Prefixed(shown, Concluded(Phase([], end, rest)))
    ensures Concluded(Phase([], end, rest)).rest == rest
  {
  }

  lemma {:induction false} SettleBehind(counted: Session, r: Reply, shown: seq<Event>, before: seq<Event>,
                                        rest: seq<Reply>)
    requires r.RepairReply?
    ensures var p := SettleRepair(counted, r, before, rest); var q := SettleRepair(counted, r, shown + before, rest);
            q.events == shown + p.events && q.end == p.end && q.rest == p.rest == rest
  {
  }

  class Runner {
    const maxRepairs: int
    /** The answers that are still to come. */
    var script: seq<Reply>
    /** What the host has seen so far. */
    var events: seq<Event>

    constructor (maxRepairs: int, script: seq<Reply>)
      ensures this.maxRepairs == maxRepairs && this.script == script && events == []
    {
      this.maxRepairs, this.script, events := maxRepairs, script, [];
    }

    method EmitSession(session: Session) returns (current: Session)
      modifies this`events
      ensures current == session && events == old(events) + [Emit(session)]
    {
      events := events + [Emit(session)];
      current := session;
    }

    /** Calls a dependency. `None` means that the call is never answered. */
    method Await(ask: Ask) returns (reply: Option<Reply>)
      modifies this
      ensures if old(script) != [] && Answers(ask, old(script)[0]) then
                && reply == Some(old(script)[0]) && script == old(script)[1..]
                && events == old(events) + [Call(ask), Got(old(script)[0])]
              else
                reply == None && script == old(script) && events == old(events) + [Call(ask)]
    {
      events := events + [Call(ask)];
      if script == [] || !Answers(ask, script[0]) {
        return None;
      }
      reply := Some(script[0]);
      events := events + [Got(script[0])];
      script := script[1..];
    }

    /** This call did what phase `p` says. */
    twostate predicate Did(p: Phase, end: End)
      reads this
    {
      events == old(events) + p.events && script == p.rest && end == p.end
    }

    method PlannerPhase(session: Session) returns (end: End)
      modifies this
      ensures Did(RunPlanner(session, old(script)), end)
    {
      hide Start, Finish, Break, Close, Route, OutputOf, PlannerFault;
      var current := EmitSession(Start(session, Planner, Gemini));
      var reply := Await(AskPlanner(session.prompt));
      if reply.None? {
        return Hung;
      }
      var planner := reply.value;
      current := EmitSession(Route(current, Planner, planner.plannerRouting));
      if !HasPlan(planner.result) {
        current := EmitSession(Break(current, Planner, PlannerFailed, PlannerFault(planner.result)));
        current := EmitSession(Close(current, false));
        return Stopped(current);
      }
      var output := OutputOf(session.prompt, planner.result.value.plan.value);
      current := EmitSession(
        Finish(current, Planner, PlanReady(output.summary), planner.plannerSnapshot).(plannerOutput := Some(output)));
      return Passed(current);
    }

    method CoderPhase(session: Session) returns (end: End)
      modifies this
      ensures Did(RunCoder(session, old(script)), end)
    {
      hide Start, Finish, Break, Close, Route, FaultOr;
      var current := EmitSession(Start(session, Coder, Gemini));
      var reply := Await(AskCoder(session.prompt));
      if reply.None? {
        return Hung;
      }
      var coder := reply.value;
      current := EmitSession(Route(current, Coder, coder.coderRouting));
      if !coder.coderOk {
        current := EmitSession(Break(current, Coder, CoderFailed, FaultOr(coder.coderError, ProposeFailed)));
        current := EmitSession(Close(current, false));
        return Stopped(current);
      }
      current := EmitSession(Finish(current, Coder, ProposalsReady(coder.fileCount), coder.coderSnapshot));
      return Passed(current);
    }

    method ReviewPhase(session: Session) returns (end: End)
      modifies this
      ensures Did(RunReview(session, old(script)), end)
    {
      var current := EmitSession(session.(status := AwaitingReview));
      var reply := Await(AskReview);
      if reply.None? {
        return Hung;
      }
      if !reply.value.approved {
        current := EmitSession(Cancel(current));
        return Stopped(current);
      }
      return Passed(current);
    }

    /** The first half of a turn of the loop; also returns the answer, which the repair needs. */
    method ApplyTurn(session: Session, repairAttempts: nat) returns (end: End, apply: Option<Reply>)
      requires repairAttempts == session.repairAttempts
      modifies this
      ensures Did(RunApply(session, maxRepairs, old(script)), end)
      ensures end.Again? ==> old(script) != [] && apply == Some(old(script)[0]) && apply.value.ApplyReply?
    {
      hide Start, Finish, Break, Close, PipelineSession.Skip, FaultOr;
      var current := EmitSession(Start(session, Verifier, Local));
      apply := Await(AskApply);
      if apply.None? {
        end := Hung;
        return;
      }
      if apply.value.applyOk && apply.value.applyVerification.Some? {
        current := EmitSession(Finish(current, Verifier, VerificationPassed, None));
        current := EmitSession(current.(verification := apply.value.applyVerification));
        if repairAttempts == 0 {
          current := EmitSession(Skip(current, Repair, NotNeeded));
        }
        end := Passed(current);
        return;
      }
      current := EmitSession(Break(current, Verifier, VerificationFailed,
                                   FaultOr(apply.value.applyError, VerificationFault)));
      if repairAttempts >= maxRepairs {
        current := EmitSession(Close(current, false));
        end := Stopped(current);
        return;
      }
      end := Again(current);
    }

    /** The second half of a turn: the repair and, when it asks for one, its approval. */
    method RepairTurn(session: Session, apply: Reply, planSummary: string) returns (end: End)
      requires apply.ApplyReply?
      modifies this
      ensures Did(RunRepair(session, apply, planSummary, old(script)), end)
    {
      hide SettleRepair, Finish, Break, Close, Cancel;
      var current := EmitSession(Start(session, Repair, Ollama));
      var ask := AskRepair(apply.applyVerification, apply.applied, session.prompt, planSummary);
      ghost var shown := [Emit(current), Call(ask)];
      var reply := Await(ask);
      if reply.None? {
        return Hung;
      }
      var repair := reply.value;
      current := EmitSession(Route(current, Repair,
                                   repair.repairRouting).(repairAttempts := current.repairAttempts + 1));
      shown := shown + [Got(repair), Emit(current)];
      assert events == old(events) + shown;
      if repair.awaitingApproval {
        var approval := Await(AskRepairApproval);
        if approval.None? {
          return Hung;
        }
        shown := shown + [Call(AskRepairApproval)] + [Got(approval.value)];
        assert events == old(events) + shown;
        if !approval.value.repairApproved {
          current := EmitSession(Break(current, Repair, RepairCancelled, RepairApprovalCancelled));
          current := EmitSession(Cancel(current));
          return Stopped(current);
        }
      }
      SettleBehind(current, repair, old(events), shown, script);
      end := Settle(current, repair);
    }

    method Settle(session: Session, repair: Reply) returns (end: End)
      requires repair.RepairReply?
      modifies this`events
      ensures var p := SettleRepair(session, repair, old(events), script); events == p.events && end == p.end
    {
      var current := session;
      if !repair.repairOk {
        current := EmitSession(Break(current, Repair, RepairFailed, FaultOr(repair.repairError, RepairFault)));
        current := EmitSession(Close(current, false));
        return Stopped(current);
      }
      current := EmitSession(Finish(current, Repair, RepairApplied, None));
      if repair.repairVerification.Some? {
        current := EmitSession(Finish(current, Verifier, PassedAfterRepair, None));
        current := EmitSession(current.(verification := repair.repairVerification));
        return Passed(current);
      }
      return Again(current);
    }

    /** One turn of the loop; `shown` is what it emitted and called. */
    method Turn(session: Session, repairAttempts: nat, planSummary: string) returns (end: End, ghost shown: seq<Event>)
      requires repairAttempts == session.repairAttempts
      modifies this
      ensures events == old(events) + shown
      ensures end.Again? ==> end.session.repairAttempts == repairAttempts + 1 <= maxRepairs
      ensures RunLoop(session, planSummary, maxRepairs, old(script)) ==
              if end.Again? then Prefixed(shown, RunLoop(end.session, planSummary, maxRepairs, script))
              else Concluded(Phase(shown, end, script))
    {
      hide RunApply, RunRepair, RunLoop, Concluded, Prefixed, R.AfterApply;
      R.LoopUnrolled(session, planSummary, maxRepairs, script);
      R.ApplyCounts(session, maxRepairs, script);
      shown := RunApply(session, maxRepairs, script).events;
      var answer;
      end, answer := ApplyTurn(session, repairAttempts);
      if end.Again? {
        ghost var repair := RunRepair(end.session, answer.value, planSummary, script);
        R.RepairCounts(end.session, answer.value, planSummary, script);
        RepairTaken(shown, repair, planSummary, maxRepairs);
        shown := shown + repair.events;
        end := RepairTurn(end.session, answer.value, planSummary);
      }
    }

    method VerifyRepairLoop(session: Session) returns (result: Option<Session>)
      modifies this
      ensures var run := RunLoop(session, PlanSummary(session), maxRepairs, old(script));
              events == old(events) + run.events && script == run.rest && result == run.result
    {
      hide RunLoop, Concluded, PlanSummary, Prefixed;
      var current := session;
      var repairAttempts := session.repairAttempts;
      var planSummary := PlanSummary(session);
      ghost var todo := RunLoop(session, planSummary, maxRepairs, script);
      ghost var total, run := events + todo.events, todo;
      var end;
      while true
        invariant repairAttempts == current.repairAttempts
        invariant todo == RunLoop(current, planSummary, maxRepairs, script)
        invariant total == events + todo.events && run.result == todo.result && run.rest == todo.rest
        decreases maxRepairs - repairAttempts
      {
        ghost var shown, before := [], events;
        end, shown := Turn(current, repairAttempts, planSummary);
        ConcludedLater(shown, end, script);
        ghost var next := if end.Again? then RunLoop(end.session, planSummary, maxRepairs, script)
                          else Concluded(Phase([], end, script));
        TurnBehind(total, before, shown, todo, next);
        todo := next;
        if !end.Again? {
          break;
        }
        current := end.session;
        repairAttempts := current.repairAttempts;
      }
      result := Leave(end);
    }

    /** Leaves the loop: a passed end concludes the run, a stopped one returns its session. */
    method Leave(end: End) returns (result: Option<Session>)
      requires !end.Again?
      modifies this`events
      ensures var run := Concluded(Phase([], end, script)); events == old(events) + run.events && result == run.result
    {
      match end
      case Passed(session) =>
        var current := EmitSession(Finish(session, Complete, PipelineCompleted, None));
        current := EmitSession(Close(current, true));
        result := Some(current);
      case Stopped(session) =>
        result := Some(session);
      case Hung =>
        result := None;
    }

    /** `runPipelineFromPhase`. */
    method RunFromPhase(session: Session, startPhase: ResumePhase) returns (result: Option<Session>)
      modifies this
      ensures var run := RunFrom(session, startPhase, maxRepairs, old(script));
              events == old(events) + run.events && script == run.rest && result == run.result
    {
      hide RunPlanner, RunCoder, RunReview, RunLoop, RunFrom, Prefixed;
      var current, phase := session, startPhase;
      ghost var run := RunFrom(session, startPhase, maxRepairs, script);
      if phase.Finished? {
        FinishedRun(session, maxRepairs, script);
        return Some(current);
      }
      if phase.PlannerPhase? {
        PhaseDone(events, current, phase, maxRepairs, script);
        var end := PlannerPhase(current);
        if !end.Passed? {
          return if end.Stopped? then Some(end.session) else None;
        }
        current, phase := end.session, PipelineRun.CoderPhase;
      }
      if phase.CoderPhase? {
        PhaseDone(events, current, phase, maxRepairs, script);
        var end := CoderPhase(current);
        if !end.Passed? {
          return if end.Stopped? then Some(end.session) else None;
        }
        current, phase := end.session, PipelineRun.ReviewPhase;
      }
      if phase.ReviewPhase? {
        PhaseDone(events, current, phase, maxRepairs, script);
        var end := ReviewPhase(current);
        if !end.Passed? {
          return if end.Stopped? then Some(end.session) else None;
        }
        current, phase := end.session, VerifyLoop;
      }
      R.LoopRuns(current, maxRepairs, script);
      result := VerifyRepairLoop(current);
    }

    /** `resumeMultiAgentPipeline`. */
    method ResumePipeline(session: Session) returns (result: Option<Session>)
      modifies this
      ensures var run := Resume(session, maxRepairs, old(script));
              events == old(events) + run.events && script == run.rest && result == run.result
      ensures A.Obeys(session, A.FirstAsk(session, Resolve(session)), maxRepairs, old(script),
                      Run(events[|old(events)|..], result, script))
    {
      hide RunFrom, A.Obeys, Resolve;
      A.ResumedRunObeys(session, maxRepairs, script);
      result := RunFromPhase(session, Resolve(session));
    }

    /** `executeMultiAgentPipeline`. */
    method ExecutePipeline(runId: string, prompt: string) returns (result: Option<Session>)
      modifies this
      ensures var run := Execute(runId, prompt, maxRepairs, old(script));
              events == old(events) + run.events && script == run.rest && result == run.result
      ensures A.Obeys(A.Blank(runId, Trim(prompt)), Some(AskPlanner(Trim(prompt))), maxRepairs, old(script),
                      Run(events[|old(events)|..], result, script))
    {
      hide RunFrom, Create, A.Obeys, A.Blank, Trim;
      A.ExecutedRunObeys(runId, prompt, maxRepairs, script);
      var session := EmitSession(Create(runId, prompt));
      result := RunFromPhase(session, PipelineRun.PlannerPhase);
    }
  }
}
