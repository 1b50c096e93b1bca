/**
 * The repair limit, the repair count and the way a verify/repair loop ends.
 */
module PipelineBudget {
  import opened Options
  import opened PipelineSession
  import opened PipelineRun
  import R = PipelineResume

  function Applies(events: seq<Event>): nat {
    if events == [] then 0 else (if events[0] == Call(AskApply) then 1 else 0) + Applies(events[1..])
  }

  function Repairs(events: seq<Event>): nat {
    if events == [] then 0 else (if events[0].Call? && events[0].ask.AskRepair? then 1 else 0) + Repairs(events[1..])
  }

  function Max0(n: int): nat {
    if n < 0 then 0 else n
  }

  lemma {:induction false} CountsOfSum(a: seq<Event>, b: seq<Event>)
    ensures Applies(a + b) == Applies(a) + Applies(b)
    ensures Repairs(a + b) == Repairs(a) + Repairs(b)
  {
    if a == [] {
      assert a + b == b;
    } else {
      assert (a + b)[0] == a[0] && (a + b)[1..] == a[1..] + b;
      CountsOfSum(a[1..], b);
    }
  }

  /** A list whose only apply or repair call is its second event. */
  lemma {:induction false} CountsOfPhase(events: seq<Event>)
    requires |events| >= 2 && !events[0].Call?
    requires forall i | 2 <= i < |events| :: events[i].Call? ==> events[i].ask.AskRepairApproval?
    ensures Applies(events) == (if events[1] == Call(AskApply) then 1 else 0)
    ensures Repairs(events) == (if events[1].Call? && events[1].ask.AskRepair? then 1 else 0)
  {
    assert events[1..][0] == events[1] && events[1..][1..] == events[2..];
    NoCounts(events[2..]);
  }

  lemma {:induction false} NoCounts(events: seq<Event>)
    requires forall i | 0 <= i < |events| :: events[i].Call? ==> !events[i].ask.AskApply? && !events[i].ask.AskRepair?
    ensures Applies(events) == 0 && Repairs(events) == 0
  {
    if events != [] {
      NoCounts(events[1..]);
    }
  }

  /** How a loop that ended must have ended, given its answers. */
  function Verdict(replies: seq<Reply>): RunStatus {
    if replies == [] then Failed
    else
      match replies[|replies| - 1]
      case ApplyReply(ok, verification, _, _) => if ok && verification.Some? then Completed else Failed
      case RepairReply(ok, _, verification, _, _) => if ok && verification.Some? then Completed else Failed
      case RepairApprovalReply(approved) =>
        if !approved then Cancelled
        else if |replies| >= 2 && Repaired(replies[|replies| - 2]) then Completed
        else Failed
      case _ => Failed
  }

  predicate Repaired(r: Reply) {
    r.RepairReply? && r.repairOk && r.repairVerification.Some?
  }

  /** The answers of one repair: enough to give the verdict by themselves. */
  predicate Decisive(replies: seq<Reply>) {
    && replies != []
    && (replies[|replies| - 1].RepairApprovalReply? ==> |replies| >= 2)
  }

  lemma {:induction false} ApplyCalls(s: Session, maxRepairs: int, script: seq<Reply>)
    ensures var p := RunApply(s, maxRepairs, script); Applies(p.events) == 1 && Repairs(p.events) == 0
  {
    hide Applies, Repairs, Start, Finish, Break, Close, PipelineSession.Skip, FaultOr;
    CountsOfPhase(RunApply(s, maxRepairs, script).events);
  }

  lemma {:induction false} ApplyBudget(s: Session, maxRepairs: int, script: seq<Reply>)
    ensures var p := RunApply(s, maxRepairs, script);
            && Applies(p.events) == 1 && Repairs(p.events) == 0
            && (p.end.Hung? || (script != [] && script[0].ApplyReply? && R.Replies(p.events) == [script[0]]))
            && (p.end.Passed? ==> p.end.session.repairAttempts == s.repairAttempts && Verdict([script[0]]) == Completed)
            && (p.end.Stopped? ==> p.end.session.repairAttempts == s.repairAttempts
                                   && p.end.session.status == Failed == Verdict([script[0]]))
            && (p.end.Again? ==> p.end.session.repairAttempts == s.repairAttempts < maxRepairs)
  {
    hide Applies, Repairs, R.Replies;
    var p := RunApply(s, maxRepairs, script);
    ApplyCalls(s, maxRepairs, script);
    R.ApplyShaped(s, maxRepairs, script);
    if !p.end.Hung? {
      assert R.Replies(p.events) == [script[0]] by { assert script == [script[0]] + script[1..]; }
    }
  }

  lemma {:induction false} SettleBudget(counted: Session, r: Reply, before: seq<Event>, rest: seq<Reply>)
    requires r.RepairReply?
    ensures var p := SettleRepair(counted, r, before, rest);
            && Applies(p.events) == Applies(before) && Repairs(p.events) == Repairs(before)
            && !p.end.Hung?
            && (p.end.Passed? ==> p.end.session.repairAttempts == counted.repairAttempts && Repaired(r))
            && (p.end.Stopped? ==>
                  p.end.session.repairAttempts == counted.repairAttempts
                  && p.end.session.status.Failed? && !Repaired(r))
            && (p.end.Again? ==> p.end.session.repairAttempts == counted.repairAttempts)
  {
    var p := SettleRepair(counted, r, before, rest);
    assert p.events == before + p.events[|before|..];
    CountsOfSum(before, p.events[|before|..]);
    NoCounts(p.events[|before|..]);
  }

  lemma {:induction false} RepairCalls(s: Session, apply: Reply, planSummary: string, script: seq<Reply>)
    requires apply.ApplyReply?
    ensures var p := RunRepair(s, apply, planSummary, script); Applies(p.events) == 0 && Repairs(p.events) == 1
  {
    hide Applies, Repairs, Start, Finish, Break, Close, Cancel, Route, FaultOr;
    CountsOfPhase(RunRepair(s, apply, planSummary, script).events);
  }

  /** The answers a repair used, and how it ended, given that it did not hang. */
  lemma {:induction false} RepairEnds(s: Session, apply: Reply, planSummary: string, script: seq<Reply>)
    requires apply.ApplyReply?
    ensures var p := RunRepair(s, apply, planSummary, script);
            !p.end.Hung? ==>
              && script != [] && script[0].RepairReply?
              && (script[0].awaitingApproval ==> |script| >= 2 && script[1].RepairApprovalReply?)
              && p.rest == (if script[0].awaitingApproval then script[2..] else script[1..])
              && (p.end.Passed? ==> p.end.session.repairAttempts == s.repairAttempts + 1)
              && (p.end.Again? ==> p.end.session.repairAttempts == s.repairAttempts + 1)
              && (p.end.Stopped? ==> p.end.session.repairAttempts == s.repairAttempts + 1)
              && (if script[0].awaitingApproval && !script[1].repairApproved then
                    p.end.Stopped? && p.end.session.status.Cancelled?
                  else
                    && (p.end.Passed? ==> Repaired(script[0]))
                    && (p.end.Stopped? ==> !Repaired(script[0]) && p.end.session.status.Failed?))
  {
    hide SettleRepair, Applies, Repairs;
    if script != [] && script[0].RepairReply? {
      var started := Start(s, Repair, Ollama);
      var counted := Route(started, Repair, script[0].repairRouting).(repairAttempts := s.repairAttempts + 1);
      var opening := [Emit(started), Call(AskRepair(apply.applyVerification, apply.applied, s.prompt, planSummary))];
      var before := opening + [Got(script[0]), Emit(counted)];
      if script[0].awaitingApproval {
        if |script| >= 2 && script[1].RepairApprovalReply? && script[1].repairApproved {
          R.SettleUses(counted, script[0], before + [Call(AskRepairApproval)] + [Got(script[1])], script[2..]);
          SettleBudget(counted, script[0], before + [Call(AskRepairApproval)] + [Got(script[1])], script[2..]);
        }
      } else {
        R.SettleUses(counted, script[0], before, script[1..]);
        SettleBudget(counted, script[0], before, script[1..]);
      }
    }
  }

  lemma {:induction false} RepairBudget(s: Session, apply: Reply, planSummary: string, script: seq<Reply>)
    requires apply.ApplyReply?
    ensures var p := RunRepair(s, apply, planSummary, script);
            && Applies(p.events) == 0 && Repairs(p.events) == 1
            && (!p.end.Hung? ==> Decisive(R.Replies(p.events)))
            && (p.end.Passed? ==>
                  p.end.session.repairAttempts == s.repairAttempts + 1
                  && Verdict(R.Replies(p.events)) == Completed)
            && (p.end.Stopped? ==> p.end.session.repairAttempts == s.repairAttempts + 1
                                   && p.end.session.status == Verdict(R.Replies(p.events)))
            && (p.end.Again? ==> p.end.session.repairAttempts == s.repairAttempts + 1)
  {
    hide RunRepair, Applies, Repairs, R.Replies;
    RepairCalls(s, apply, planSummary, script);
    RepairEnds(s, apply, planSummary, script);
    R.RepairUses(s, apply, planSummary, script);
    var p := RunRepair(s, apply, planSummary, script);
    if !p.end.Hung? {
      var used := if script[0].awaitingApproval then script[..2] else script[..1];
      assert script == used + p.rest;
      assert R.Replies(p.events) == used;
    }
  }

  /** What the budget says of a loop, or of the rest of one, that starts with `attempts` repairs recorded. */
  ghost predicate WithinBudget(run: Run, attempts: nat, maxRepairs: int, applies: nat, repairs: nat) {
    && Repairs(run.events) <= Max0(maxRepairs - attempts)
    && Applies(run.events) + applies <= Repairs(run.events) + repairs
    && (run.result.Some? ==>
          && run.result.value.repairAttempts == attempts + Repairs(run.events)
          && run.result.value.status == Verdict(R.Replies(run.events))
          && Decisive(R.Replies(run.events)))
  }

  lemma {:induction false} ConcludedBudget(p: Phase)
    requires !p.end.Again?
    ensures Applies(Concluded(p).events) == Applies(p.events)
    ensures Repairs(Concluded(p).events) == Repairs(p.events)
    ensures R.Replies(Concluded(p).events) == R.Replies(p.events)
    ensures p.end.Hung? ==> Concluded(p).result.None?
    ensures p.end.Passed? ==> Concluded(p).result.Some? && Concluded(p).result.value.status.Completed?
                              && Concluded(p).result.value.repairAttempts == p.end.session.repairAttempts
    ensures p.end.Stopped? ==> Concluded(p).result == Some(p.end.session)
  {
    if p.end.Passed? {
      var tail := Conclude(p.end.session).1;
      NoCounts(tail);
      R.NoReplies(tail);
      CountsOfSum(p.events, tail);
      R.RepliesOfSum(p.events, tail);
    }
  }

  lemma {:induction false} AfterApplyBudget(s: Session, apply: Reply, planSummary: string, maxRepairs: int,
                                            script: seq<Reply>)
    requires apply.ApplyReply? && s.repairAttempts < maxRepairs
    requires var repair := RunRepair(s, apply, planSummary, script);
             repair.end.Again? ==>
               WithinBudget(RunLoop(repair.end.session, planSummary, maxRepairs, repair.rest),
                            repair.end.session.repairAttempts, maxRepairs, 0, 1)
    ensures WithinBudget(R.AfterApply(RunRepair(s, apply, planSummary, script), planSummary, maxRepairs),
                         s.repairAttempts, maxRepairs, 0, 0)
  {
    RepairBudget(s, apply, planSummary, script);
    var repair := RunRepair(s, apply, planSummary, script);
    if repair.end.Again? {
      var loop := RunLoop(repair.end.session, planSummary, maxRepairs, repair.rest);
      CountsOfSum(repair.events, loop.events);
      R.RepliesOfSum(repair.events, loop.events);
      VerdictOrEmpty(R.Replies(repair.events), R.Replies(loop.events));
    } else {
      ConcludedBudget(repair);
    }
  }

  lemma {:induction false} LoopWithinBudget(s: Session, planSummary: string, maxRepairs: int, script: seq<Reply>)
    ensures WithinBudget(RunLoop(s, planSummary, maxRepairs, script), s.repairAttempts, maxRepairs, 0, 1)
    decreases maxRepairs - s.repairAttempts
  {
    R.LoopUnrolled(s, planSummary, maxRepairs, script);
    ApplyBudget(s, maxRepairs, script);
    var apply := RunApply(s, maxRepairs, script);
    if apply.end.Again? {
      var repair := RunRepair(apply.end.session, script[0], planSummary, apply.rest);
      RepairBudget(apply.end.session, script[0], planSummary, apply.rest);
      if repair.end.Again? {
        LoopWithinBudget(repair.end.session, planSummary, maxRepairs, repair.rest);
      }
      AfterApplyBudget(apply.end.session, script[0], planSummary, maxRepairs, apply.rest);
      TurnBudget(apply.events, R.AfterApply(repair, planSummary, maxRepairs), s.repairAttempts, maxRepairs);
    } else {
      ConcludedBudget(apply);
    }
  }

  lemma {:induction false} TurnBudget(prefix: seq<Event>, tail: Run, attempts: nat, maxRepairs: int)
    requires Applies(prefix) == 1 && Repairs(prefix) == 0
    requires WithinBudget(tail, attempts, maxRepairs, 0, 0)
    ensures WithinBudget(Prefixed(prefix, tail), attempts, maxRepairs, 0, 1)
  {
    CountsOfSum(prefix, tail.events);
    R.RepliesOfSum(prefix, tail.events);
    VerdictOrEmpty(R.Replies(prefix), R.Replies(tail.events));
  }

  lemma {:induction false} VerdictOrEmpty(a: seq<Reply>, b: seq<Reply>)
    ensures Decisive(b) ==> Verdict(a + b) == Verdict(b) && Decisive(a + b)
  {
  }

  /**
   * MAIN RESULT. From a session with `a` recorded repairs and limit `m`, the loop asks for at most
   * max(0, m - a) repairs and at most one apply more than repairs. When it ends, the recorded count
   * is `a` plus the repairs asked for, and its status is what the last answers say: completed
   * exactly after an apply that is ok and verified or a repair that is ok, verified and not refused;
   * cancelled exactly after a refused repair; failed otherwise.
   */
  lemma {:induction false} LoopBudget(s: Session, planSummary: string, maxRepairs: int, script: seq<Reply>)
    ensures var run := RunLoop(s, planSummary, maxRepairs, script);
            && Repairs(run.events) <= Max0(maxRepairs - s.repairAttempts)
            && Applies(run.events) <= Max0(maxRepairs - s.repairAttempts) + 1
            && (run.result.Some? ==>
                  && run.result.value.repairAttempts == s.repairAttempts + Repairs(run.events)
                  && run.result.value.status == Verdict(R.Replies(run.events)))
  {
    LoopWithinBudget(s, planSummary, maxRepairs, script);
  }
}
