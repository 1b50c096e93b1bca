/**
 * A run interrupted at a phase boundary and resumed does what the uninterrupted run would have done.
 */
module PipelineResume {
  import opened Options
  import opened PipelineSession
  import opened PipelineRun

  /** The answers received, in order. */
  function Replies(events: seq<Event>): seq<Reply> {
    if events == [] then []
    else (if events[0].Got? then [events[0].reply] else []) + Replies(events[1..])
  }

  /** The dependency calls made, in order. */
  function Asks(events: seq<Event>): seq<Ask> {
    if events == [] then []
    else (if events[0].Call? then [events[0].ask] else []) + Asks(events[1..])
  }

  lemma {:induction false} RepliesOfSum(a: seq<Event>, b: seq<Event>)
    ensures Replies(a + b) == Replies(a) + Replies(b)
  {
    if a == [] {
      assert a + b == b;
    } else {
      assert (a + b)[0] == a[0] && (a + b)[1..] == a[1..] + b;
      RepliesOfSum(a[1..], b);
    }
  }

  /**
   * The phase-boundary checkpoints: the new session, the emission just before the planner, coder,
   * review or apply call, a finished planner or coder, and a completed run.
   */
  predicate Checkpoint(events: seq<Event>, k: nat)
    requires k < |events|
  {
    && events[k].Emit?
    && var e := events[k].session;
       || e.status.Queued?
       || e.status.Completed?
       || (k + 1 < |events| && events[k + 1].Call? && StartsPhase(events[k + 1].ask))
       || (e.status.Planning? && e.stages.planner.status.Succeeded?)
       || (e.status.Coding? && e.stages.coder.status.Succeeded?)
  }

  predicate StartsPhase(ask: Ask) {
    ask.AskPlanner? || ask.AskCoder? || ask.AskReview? || ask.AskApply?
  }

  /** How many answers the run used up to and including event `k`. */
  function Used(run: Run, k: nat): nat
    requires k < |run.events|
  {
    |Replies(run.events[..k + 1])|
  }

  /** `again` ends like `run`, uses the same answers, and shows `run` from event `k` on, with or without `k` itself. */
  predicate Continues(again: Run, run: Run, k: nat)
    requires k < |run.events|
  {
    && again.result == run.result
    && again.rest == run.rest
    && (again.events == run.events[k..] || again.events == run.events[k + 1..])
  }

  /** How a session is resumed with the answers that are left. */
  type Resumer = (Session, seq<Reply>) -> Run

  function Resuming(maxRepairs: int): Resumer {
    (s: Session, script: seq<Reply>) => Resume(s, maxRepairs, script)
  }

  /** Resuming from emission `k` with the answers not yet used continues the run. */
  ghost predicate Replays(run: Run, resume: Resumer, script: seq<Reply>, k: nat)
    requires k < |run.events| && run.events[k].Emit?
  {
    && Used(run, k) <= |script|
    && Continues(resume(run.events[k].session, script[Used(run, k)..]), run, k)
  }

  /** A prefix that used exactly the answers missing from `rest` can be put in front. */
  lemma {:induction false} ReplaysBehind(prefix: seq<Event>, run: Run, resume: Resumer, script: seq<Reply>,
                                         rest: seq<Reply>, k: nat)
    requires script == Replies(prefix) + rest
    requires k < |run.events| && run.events[k].Emit? && Replays(run, resume, rest, k)
    ensures Replays(Prefixed(prefix, run), resume, script, |prefix| + k)
  {
    UsedBehind(prefix, run, k);
    ContinuesBehind(prefix, resume(run.events[k].session, rest[Used(run, k)..]), run, k);
    assert script[|Replies(prefix)| + Used(run, k)..] == rest[Used(run, k)..];
  }

  lemma {:induction false} UsedBehind(prefix: seq<Event>, run: Run, k: nat)
    requires k < |run.events|
    ensures Used(Prefixed(prefix, run), |prefix| + k) == |Replies(prefix)| + Used(run, k)
  {
    assert (prefix + run.events)[..|prefix| + k + 1] == prefix + run.events[..k + 1];
    RepliesOfSum(prefix, run.events[..k + 1]);
  }

  lemma {:induction false} ContinuesBehind(prefix: seq<Event>, again: Run, run: Run, k: nat)
    requires k < |run.events| && Continues(again, run, k)
    ensures Continues(again, Prefixed(prefix, run), |prefix| + k)
  {
    assert (prefix + run.events)[|prefix| + k..] == run.events[k..];
    assert (prefix + run.events)[|prefix| + k + 1..] == run.events[k + 1..];
  }

  /** A phase takes its one answer from the head of the list. */
  lemma {:induction false} UsesOf(p: Phase, script: seq<Reply>)
    requires 2 <= |p.events| && !p.events[0].Got? && !p.events[1].Got?
    requires |p.events| == 2 ==> p.rest == script
    requires |p.events| > 2 ==> |script| > 0 && p.events[2] == Got(script[0]) && p.rest == script[1..]
    requires forall i :: 3 <= i < |p.events| ==> !p.events[i].Got?
    ensures script == Replies(p.events) + p.rest
  {
    assert p.events == p.events[..2] + p.events[2..];
    RepliesOfSum(p.events[..2], p.events[2..]);
    NoReplies(p.events[..2]);
    if |p.events| > 2 {
      assert p.events[2..] == [p.events[2]] + p.events[3..];
      RepliesOfSum([p.events[2]], p.events[3..]);
      NoReplies(p.events[3..]);
    }
  }

  lemma {:induction false} NoReplies(events: seq<Event>)
    requires forall i :: 0 <= i < |events| ==> !events[i].Got?
    ensures Replies(events) == []
  {
    if events != [] {
      NoReplies(events[1..]);
    }
  }

  // ---- One phase at a time ----

  /** Starting a phase a second time changes nothing. */
  lemma {:induction false} ApplyTwice(s: Session, maxRepairs: int, script: seq<Reply>)
    ensures RunApply(Start(s, Verifier, Local), maxRepairs, script) == RunApply(s, maxRepairs, script)
  {
  }

  /** A run resumed at its own first emission. */
  lemma {:induction false} ReplaysAtOpening(run: Run, resume: Resumer, script: seq<Reply>)
    requires run.events != [] && run.events[0].Emit?
    requires resume(run.events[0].session, script) == run
    ensures Replays(run, resume, script, 0)
  {
    assert run.events[..1] == [run.events[0]];
    NoReplies(run.events[..1]);
    assert run.events[0..] == run.events;
    assert script[0..] == script;
  }

  /** A phase and what follows, resumed at the emission that ends the phase. */
  lemma {:induction false} ReplaysAtClosing(events: seq<Event>, tail: Run, resume: Resumer, script: seq<Reply>,
                                            rest: seq<Reply>)
    requires events != [] && events[|events| - 1].Emit?
    requires script == Replies(events) + rest
    requires resume(events[|events| - 1].session, rest) == tail
    ensures Replays(Prefixed(events, tail), resume, script, |events| - 1)
  {
    var whole := events + tail.events;
    assert whole[..|events|] == events;
    assert script[|Replies(events)|..] == rest;
    assert whole[|events|..] == tail.events;
  }

  /** A finished run, resumed at its last emission. */
  lemma {:induction false} ReplaysAtEnd(events: seq<Event>, resume: Resumer, script: seq<Reply>, rest: seq<Reply>)
    requires events != [] && events[|events| - 1].Emit?
    requires script == Replies(events) + rest
    requires var s := events[|events| - 1].session; resume(s, rest) == Run([], Some(s), rest)
    ensures Replays(Run(events, Some(events[|events| - 1].session), rest), resume, script, |events| - 1)
  {
    assert events[..|events|] == events;
    assert script[|Replies(events)|..] == rest;
  }

  /** Before the verify loop: the phase that runs is the one the session resolves to. */
  predicate EntersAt(s: Session, phase: ResumePhase) {
    && !phase.Finished?
    && (phase.PlannerPhase? ==> !s.stages.coder.status.Succeeded? && !s.stages.coder.status.Running?)
  }

  /** What the proof needs to know of one phase `p` that ran on `script`. */
  ghost predicate Shaped(p: Phase, here: ResumePhase, next: ResumePhase, script: seq<Reply>) {
    && |p.events| >= 2
    && p.events[0].Emit? && Resolve(p.events[0].session) == here
    && script == Replies(p.events) + p.rest
    && (forall k | 1 <= k < |p.events| ::
          Checkpoint(p.events, k) ==> k == |p.events| - 1 && p.end.Passed?)
    && (p.end.Passed? ==> EntersAt(p.end.session, next))
    && (p.end.Passed? && Checkpoint(p.events, |p.events| - 1)
        ==> p.events[|p.events| - 1].session == p.end.session && Resolve(p.end.session) == next)
  }

  lemma {:induction false} PlannerUses(s: Session, script: seq<Reply>)
    ensures script == Replies(RunPlanner(s, script).events) + RunPlanner(s, script).rest
  {
    UsesOf(RunPlanner(s, script), script);
  }

  /** The only checkpoint after its first emission is the finished phase. */
  lemma {:induction false} PlannerMarks(s: Session, script: seq<Reply>)
    ensures var p := RunPlanner(s, script);
            forall k | 1 <= k < |p.events| :: Checkpoint(p.events, k) ==> k == |p.events| - 1 && p.end.Passed?
  {
    hide OutputOf, PlannerFault, FaultOr, Replies;
  }

  lemma {:induction false} PlannerShaped(s: Session, script: seq<Reply>)
    requires EntersAt(s, PlannerPhase)
    ensures Shaped(RunPlanner(s, script), PlannerPhase, CoderPhase, script)
  {
    hide Replies, Checkpoint;
    PlannerUses(s, script);
    PlannerMarks(s, script);
  }

  lemma {:induction false} CoderUses(s: Session, script: seq<Reply>)
    ensures script == Replies(RunCoder(s, script).events) + RunCoder(s, script).rest
  {
    UsesOf(RunCoder(s, script), script);
  }

  /** The only checkpoint after its first emission is the finished phase. */
  lemma {:induction false} CoderMarks(s: Session, script: seq<Reply>)
    ensures var p := RunCoder(s, script);
            forall k | 1 <= k < |p.events| :: Checkpoint(p.events, k) ==> k == |p.events| - 1 && p.end.Passed?
  {
    hide OutputOf, PlannerFault, FaultOr, Replies;
  }

  lemma {:induction false} CoderShaped(s: Session, script: seq<Reply>)
    ensures Shaped(RunCoder(s, script), CoderPhase, ReviewPhase, script)
  {
    hide Replies, Checkpoint;
    CoderUses(s, script);
    CoderMarks(s, script);
  }

  lemma {:induction false} ReviewUses(s: Session, script: seq<Reply>)
    ensures script == Replies(RunReview(s, script).events) + RunReview(s, script).rest
  {
    UsesOf(RunReview(s, script), script);
  }

  lemma {:induction false} ReviewShaped(s: Session, script: seq<Reply>)
    ensures Shaped(RunReview(s, script), ReviewPhase, VerifyLoop, script)
  {
    hide Replies;
    ReviewUses(s, script);
  }

  /** Resumption for a phase `p` followed by `tail`, given resumption for the tail. */
  lemma {:induction false} PhaseReplays(p: Phase, tail: Run, resume: Resumer, here: ResumePhase, next: ResumePhase,
                                        script: seq<Reply>, k: nat)
    requires Shaped(p, here, next, script)
    requires resume(p.events[0].session, script) == Prefixed(p.events, tail)
    requires p.end.Passed? && Checkpoint(p.events, |p.events| - 1) ==> resume(p.end.session, p.rest) == tail
    requires k < |p.events + tail.events| && Checkpoint(p.events + tail.events, k)
    requires p.end.Passed? || tail.events == []
    requires |p.events| <= k && Checkpoint(tail.events, k - |p.events|) ==>
             Replays(tail, resume, p.rest, k - |p.events|)
    requires tail.events != [] ==> tail.events[0].Emit?
    ensures Replays(Prefixed(p.events, tail), resume, script, k)
  {
    var run := Prefixed(p.events, tail);
    if k == 0 {
      ReplaysAtOpening(run, resume, script);
    } else if k < |p.events| {
      CheckpointInside(p.events, tail.events, k);
      ReplaysAtClosing(p.events, tail, resume, script, p.rest);
    } else {
      CheckpointBehind(p.events, tail.events, k - |p.events|);
      ReplaysBehind(p.events, tail, resume, script, p.rest, k - |p.events|);
    }
  }

  lemma {:induction false} CheckpointInside(events: seq<Event>, tail: seq<Event>, k: nat)
    requires k < |events| && Checkpoint(events + tail, k)
    requires tail != [] ==> tail[0].Emit?
    ensures Checkpoint(events, k)
  {
  }

  lemma {:induction false} CheckpointBehind(prefix: seq<Event>, events: seq<Event>, k: nat)
    requires k < |events| && Checkpoint(prefix + events, |prefix| + k)
    ensures Checkpoint(events, k)
  {
    assert (prefix + events)[|prefix| + k] == events[k];
    if k + 1 < |events| {
      assert (prefix + events)[|prefix| + k + 1] == events[k + 1];
    }
  }

  // ---- The verify/repair loop ----

  /** No event from `first` on is a checkpoint. */
  ghost predicate Quiet(events: seq<Event>, first: nat) {
    forall k | first <= k < |events| :: !Checkpoint(events, k)
  }

  lemma {:induction false} ApplyUses(s: Session, maxRepairs: int, script: seq<Reply>)
    ensures script == Replies(RunApply(s, maxRepairs, script).events) + RunApply(s, maxRepairs, script).rest
  {
    UsesOf(RunApply(s, maxRepairs, script), script);
  }

  lemma {:induction false} ApplyShaped(s: Session, maxRepairs: int, script: seq<Reply>)
    ensures var p := RunApply(s, maxRepairs, script);
            && |p.events| >= 2 && p.events[0] == Emit(Start(s, Verifier, Local))
            && script == Replies(p.events) + p.rest
            && Quiet(p.events, 1)
            && (p.end.Passed? ==> p.end.session.status.Verifying?)
            && (p.end.Again? ==> KeepsPlan(s, p.end.session) && script != [] && script[0].ApplyReply?)
  {
    hide Replies;
    ApplyUses(s, maxRepairs, script);
  }

  predicate KeepsPlan(s: Session, next: Session) {
    next.plannerOutput == s.plannerOutput && next.prompt == s.prompt
  }

  /** Events of a repair: no session that ended a phase, no call that starts one. */
  ghost predicate Repairs(events: seq<Event>) {
    forall k | 0 <= k < |events| ::
      && (events[k].Emit? ==>
            var status := events[k].session.status; status.Repairing? || status.Failed? || status.Cancelled?)
      && (events[k].Call? ==> !StartsPhase(events[k].ask))
  }

  lemma {:induction false} RepairsAreQuiet(events: seq<Event>)
    requires Repairs(events)
    ensures Quiet(events, 0)
  {
  }

  lemma {:induction false} SettleShaped(counted: Session, r: Reply, before: seq<Event>, rest: seq<Reply>)
    requires r.RepairReply? && counted.status.Repairing? && Repairs(before)
    ensures var p := SettleRepair(counted, r, before, rest);
            && before <= p.events && Repairs(p.events)
            && (p.end.Passed? ==> p.end.session.status.Repairing?)
            && (p.end.Again? ==>
                  KeepsPlan(counted, p.end.session)
                  && p.end.session.repairAttempts == counted.repairAttempts)
  {
  }

  lemma {:induction false} SettleUses(counted: Session, r: Reply, before: seq<Event>, rest: seq<Reply>)
    requires r.RepairReply?
    ensures var p := SettleRepair(counted, r, before, rest); Replies(p.events) == Replies(before) && p.rest == rest
  {
    var p := SettleRepair(counted, r, before, rest);
    assert p.events == before + p.events[|before|..];
    RepliesOfSum(before, p.events[|before|..]);
    NoReplies(p.events[|before|..]);
  }

  lemma {:induction false} RepairShaped(s: Session, apply: Reply, planSummary: string, script: seq<Reply>)
    requires apply.ApplyReply?
    ensures var p := RunRepair(s, apply, planSummary, script);
            && p.events != [] && p.events[0].Emit?
            && Quiet(p.events, 0)
            && (p.end.Passed? ==> p.end.session.status.Repairing?)
            && (p.end.Again? ==> KeepsPlan(s, p.end.session))
  {
    hide SettleRepair, Checkpoint;
    AfterRepairShaped(s, apply, planSummary, script);
    RepairsAreQuiet(RunRepair(s, apply, planSummary, script).events);
  }

  lemma {:induction false} AfterRepairShaped(s: Session, apply: Reply, planSummary: string, script: seq<Reply>)
    requires apply.ApplyReply?
    ensures var p := RunRepair(s, apply, planSummary, script);
            && p.events != [] && p.events[0].Emit?
            && Repairs(p.events)
            && (p.end.Passed? ==> p.end.session.status.Repairing?)
            && (p.end.Again? ==> KeepsPlan(s, p.end.session) && p.end.session.repairAttempts == s.repairAttempts + 1)
  {
    hide SettleRepair;
    if script != [] && script[0].RepairReply? {
      var started := Start(s, Repair, Ollama);
      var counted := Route(started, Repair, script[0].repairRouting).(repairAttempts := s.repairAttempts + 1);
      var opening := [Emit(started), Call(AskRepair(apply.applyVerification, apply.applied, s.prompt, planSummary))];
      var before := opening + [Got(script[0]), Emit(counted)];
      if script[0].awaitingApproval {
        if |script| >= 2 && script[1].RepairApprovalReply? && script[1].repairApproved {
          SettleShaped(counted, script[0], before + [Call(AskRepairApproval)] + [Got(script[1])], script[2..]);
        }
      } else {
        SettleShaped(counted, script[0], before, script[1..]);
        assert before[0] == RunRepair(s, apply, planSummary, script).events[0];
      }
    }
  }

  lemma {:induction false} RepairUses(s: Session, apply: Reply, planSummary: string, script: seq<Reply>)
    requires apply.ApplyReply?
    ensures var p := RunRepair(s, apply, planSummary, script); script == Replies(p.events) + p.rest
  {
    hide SettleRepair, Replies, Start, Route, Break, Cancel;
    var p := RunRepair(s, apply, planSummary, script);
    if script != [] && script[0].RepairReply? {
      var started := Start(s, Repair, Ollama);
      var counted := Route(started, Repair, script[0].repairRouting).(repairAttempts := s.repairAttempts + 1);
      var opening := [Emit(started), Call(AskRepair(apply.applyVerification, apply.applied, s.prompt, planSummary))];
      var before := opening + [Got(script[0]), Emit(counted)];
      if script[0].awaitingApproval {
        var asked := before + [Call(AskRepairApproval)];
        UsesOne(asked, script[0]);
        if |script| >= 2 && script[1].RepairApprovalReply? {
          assert script == [script[0], script[1]] + script[2..];
          if script[1].repairApproved {
            UsesTwo(asked + [Got(script[1])], script[0], script[1]);
            SettleUses(counted, script[0], asked + [Got(script[1])], script[2..]);
          } else {
            UsesTwo(p.events, script[0], script[1]);
          }
        }
      } else {
        assert script == [script[0]] + script[1..];
        SettleUses(counted, script[0], before, script[1..]);
        UsesOne(before, script[0]);
      }
    } else {
      NoReplies(p.events);
    }
  }

  lemma {:induction false} UsesOne(events: seq<Event>, first: Reply)
    requires |events| >= 3 && events[2] == Got(first)
    requires forall i | 0 <= i < |events| && i != 2 :: !events[i].Got?
    ensures Replies(events) == [first]
  {
    assert events == events[..2] + [events[2]] + events[3..];
    RepliesOfSum(events[..2] + [events[2]], events[3..]);
    RepliesOfSum(events[..2], [events[2]]);
    NoReplies(events[..2]);
    NoReplies(events[3..]);
  }

  lemma {:induction false} UsesTwo(events: seq<Event>, first: Reply, second: Reply)
    requires |events| >= 6 && events[2] == Got(first) && events[5] == Got(second)
    requires forall i | 0 <= i < |events| && i != 2 && i != 5 :: !events[i].Got?
    ensures Replies(events) == [first, second]
  {
    assert events == events[..5] + ([events[5]] + events[6..]);
    RepliesOfSum(events[..5], [events[5]] + events[6..]);
    RepliesOfSum([events[5]], events[6..]);
    UsesOne(events[..5], first);
    NoReplies(events[6..]);
  }

  /** Resumption behind a prefix that holds no checkpoint. */
  lemma {:induction false} QuietReplays(prefix: seq<Event>, tail: Run, resume: Resumer, script: seq<Reply>,
                                        rest: seq<Reply>, k: nat)
    requires Quiet(prefix, 0) || (k > 0 && Quiet(prefix, 1))
    requires script == Replies(prefix) + rest
    requires tail.events != [] ==> tail.events[0].Emit?
    requires k < |prefix + tail.events| && Checkpoint(prefix + tail.events, k)
    requires |prefix| <= k && Checkpoint(tail.events, k - |prefix|) ==> Replays(tail, resume, rest, k - |prefix|)
    ensures Replays(Prefixed(prefix, tail), resume, script, k)
  {
    if k < |prefix| {
      CheckpointInside(prefix, tail.events, k);
      assert false;
    } else {
      CheckpointBehind(prefix, tail.events, k - |prefix|);
      ReplaysBehind(prefix, tail, resume, script, rest, k - |prefix|);
    }
  }

  /** The end of a successful run, after the loop. */
  function Conclusion(s: Session, rest: seq<Reply>): Run {
    Run(Conclude(s).1, Some(Conclude(s).0), rest)
  }

  lemma {:induction false} ConclusionReplays(s: Session, maxRepairs: int, rest: seq<Reply>, k: nat)
    requires s.status.Verifying? || s.status.Repairing?
    requires k < |Conclusion(s, rest).events| && Checkpoint(Conclusion(s, rest).events, k)
    ensures Replays(Conclusion(s, rest), Resuming(maxRepairs), rest, k)
  {
    var run := Conclusion(s, rest);
    assert k == 1;
    NoReplies(run.events);
    ReplaysAtEnd(run.events, Resuming(maxRepairs), rest, rest);
  }

  lemma {:induction false} LoopOpens(s: Session, maxRepairs: int, script: seq<Reply>)
    ensures var run := RunLoop(s, PlanSummary(s), maxRepairs, script);
            && run.events != [] && run.events[0] == Emit(Start(s, Verifier, Local))
            && Resume(Start(s, Verifier, Local), maxRepairs, script) == run
  {
    hide RunRepair, RunPlanner, RunCoder, RunReview;
    ApplyTwice(s, maxRepairs, script);
  }

  /** The rest of a turn whose apply failed. */
  function AfterApply(repair: Phase, planSummary: string, maxRepairs: int): Run {
    if repair.end.Again? then
      Prefixed(repair.events, RunLoop(repair.end.session, planSummary, maxRepairs, repair.rest))
    else Concluded(repair)
  }

  lemma {:induction false} LoopUnrolled(s: Session, planSummary: string, maxRepairs: int, script: seq<Reply>)
    ensures var apply := RunApply(s, maxRepairs, script);
            && (!apply.end.Again? ==> RunLoop(s, planSummary, maxRepairs, script) == Concluded(apply))
            && (apply.end.Again? ==>
                  RunLoop(s, planSummary, maxRepairs, script) ==
                  Prefixed(apply.events, AfterApply(RunRepair(apply.end.session, script[0], planSummary, apply.rest),
                                                    planSummary, maxRepairs)))
  {
    var apply := RunApply(s, maxRepairs, script);
    if apply.end.Again? {
      var repair := RunRepair(apply.end.session, script[0], planSummary, apply.rest);
      if repair.end.Again? {
        var loop := RunLoop(repair.end.session, planSummary, maxRepairs, repair.rest);
        assert apply.events + repair.events + loop.events == apply.events + (repair.events + loop.events);
      }
    }
  }

  lemma {:induction false} LoopReplays(s: Session, maxRepairs: int, script: seq<Reply>, k: nat)
    requires var run := RunLoop(s, PlanSummary(s), maxRepairs, script); k < |run.events| && Checkpoint(run.events, k)
    ensures Replays(RunLoop(s, PlanSummary(s), maxRepairs, script), Resuming(maxRepairs), script, k)
    decreases maxRepairs - s.repairAttempts
  {
    hide RunApply, RunRepair, SettleRepair;
    LoopOpens(s, maxRepairs, script);
    LoopUnrolled(s, PlanSummary(s), maxRepairs, script);
    if k == 0 {
      ReplaysAtOpening(RunLoop(s, PlanSummary(s), maxRepairs, script), Resuming(maxRepairs), script);
    } else {
      ApplyShaped(s, maxRepairs, script);
      var apply := RunApply(s, maxRepairs, script);
      if apply.end.Again? {
        ApplyCounts(s, maxRepairs, script);
        var repair := RunRepair(apply.end.session, script[0], PlanSummary(s), apply.rest);
        RepairShaped(apply.end.session, script[0], PlanSummary(s), apply.rest);
        RepairUses(apply.end.session, script[0], PlanSummary(s), apply.rest);
        RepairCounts(apply.end.session, script[0], PlanSummary(s), apply.rest);
        var tail := AfterApply(repair, PlanSummary(s), maxRepairs);
        if |apply.events| <= k && Checkpoint(tail.events, k - |apply.events|) {
          var j := k - |apply.events|;
          if repair.end.Again? && |repair.events| <= j {
            var loop := RunLoop(repair.end.session, PlanSummary(s), maxRepairs, repair.rest);
            if Checkpoint(loop.events, j - |repair.events|) {
              LoopReplays(repair.end.session, maxRepairs, repair.rest, j - |repair.events|);
            }
          }
          AfterApplyReplays(repair, PlanSummary(s), maxRepairs, apply.rest, j);
        }
        AfterApplyOpens(repair, PlanSummary(s), maxRepairs);
        QuietReplays(apply.events, tail, Resuming(maxRepairs), script, apply.rest, k);
      } else {
        ConcludedReplays(apply, maxRepairs, script, k);
      }
    }
  }

  lemma {:induction false} ApplyCounts(s: Session, maxRepairs: int, script: seq<Reply>)
    ensures var p := RunApply(s, maxRepairs, script);
            p.end.Again? ==> p.end.session.repairAttempts == s.repairAttempts < maxRepairs
  {
  }

  lemma {:induction false} RepairCounts(s: Session, apply: Reply, planSummary: string, script: seq<Reply>)
    requires apply.ApplyReply?
    ensures var p := RunRepair(s, apply, planSummary, script);
            p.end.Again? ==> p.end.session.repairAttempts == s.repairAttempts + 1
  {
    hide RunRepair;
    AfterRepairShaped(s, apply, planSummary, script);
  }

  lemma {:induction false} AfterApplyOpens(repair: Phase, planSummary: string, maxRepairs: int)
    requires repair.events != [] && repair.events[0].Emit?
    ensures var tail := AfterApply(repair, planSummary, maxRepairs); tail.events != [] && tail.events[0].Emit?
  {
  }

  /** A phase that leaves the loop: its run has no checkpoint but the completed session. */
  lemma {:induction false} ConcludedReplays(p: Phase, maxRepairs: int, script: seq<Reply>, k: nat)
    requires !p.end.Again?
    requires p.end.Passed? ==> p.end.session.status.Verifying? || p.end.session.status.Repairing?
    requires script == Replies(p.events) + p.rest
    requires Quiet(p.events, 0) || (k > 0 && Quiet(p.events, 1))
    requires k < |Concluded(p).events| && Checkpoint(Concluded(p).events, k)
    ensures Replays(Concluded(p), Resuming(maxRepairs), script, k)
  {
    if p.end.Passed? {
      var tail := Conclusion(p.end.session, p.rest);
      assert Concluded(p) == Prefixed(p.events, tail);
      if |p.events| <= k && Checkpoint(tail.events, k - |p.events|) {
        ConclusionReplays(p.end.session, maxRepairs, p.rest, k - |p.events|);
      }
      QuietReplays(p.events, tail, Resuming(maxRepairs), script, p.rest, k);
    } else {
      assert false;
    }
  }

  lemma {:induction false} AfterApplyReplays(repair: Phase, planSummary: string, maxRepairs: int, script: seq<Reply>,
                                             k: nat)
    requires repair.events != [] && Quiet(repair.events, 0)
    requires repair.end.Passed? ==> repair.end.session.status.Repairing?
    requires repair.end.Again? ==> PlanSummary(repair.end.session) == planSummary
    requires script == Replies(repair.events) + repair.rest
    requires var run := AfterApply(repair, planSummary, maxRepairs); k < |run.events| && Checkpoint(run.events, k)
    requires repair.end.Again? && |repair.events| <= k ==>
               var loop := RunLoop(repair.end.session, planSummary, maxRepairs, repair.rest);
               Checkpoint(loop.events, k - |repair.events|) ==>
                 Replays(loop, Resuming(maxRepairs), repair.rest, k - |repair.events|)
    ensures Replays(AfterApply(repair, planSummary, maxRepairs), Resuming(maxRepairs), script, k)
  {
    if repair.end.Again? {
      LoopOpens(repair.end.session, maxRepairs, repair.rest);
      QuietReplays(repair.events, RunLoop(repair.end.session, planSummary, maxRepairs, repair.rest),
                   Resuming(maxRepairs), script, repair.rest, k);
    } else {
      ConcludedReplays(repair, maxRepairs, script, k);
    }
  }

  // ---- Whole runs ----

  /** `Then`, as a phase in front of what follows it. */
  function Following(p: Phase, next: ResumePhase, maxRepairs: int): Run {
    match p.end
    case Passed(s) => RunFrom(s, next, maxRepairs, p.rest)
    case Stopped(s) => Run([], Some(s), p.rest)
    case Again(_) => Run([], None, p.rest)
    case Hung => Run([], None, p.rest)
  }

  /** The phase that runs first. */
  function First(s: Session, phase: ResumePhase, script: seq<Reply>): Phase
    requires phase.PlannerPhase? || phase.CoderPhase? || phase.ReviewPhase?
  {
    match phase
    case PlannerPhase => RunPlanner(s, script)
    case CoderPhase => RunCoder(s, script)
    case ReviewPhase => RunReview(s, script)
  }

  function Next(phase: ResumePhase): ResumePhase {
    match phase
    case PlannerPhase => CoderPhase
    case CoderPhase => ReviewPhase
    case ReviewPhase => VerifyLoop
    case VerifyLoop => Finished
    case Finished => Finished
  }

  /** The session as the phase first emits it. */
  function Opening(s: Session, phase: ResumePhase): Session {
    match phase
    case PlannerPhase => Start(s, Planner, Gemini)
    case CoderPhase => Start(s, Coder, Gemini)
    case ReviewPhase => s.(status := AwaitingReview)
    case VerifyLoop => Start(s, Verifier, Local)
    case Finished => s
  }

  lemma {:induction false} RunUnrolled(s: Session, phase: ResumePhase, maxRepairs: int, script: seq<Reply>)
    requires phase.PlannerPhase? || phase.CoderPhase? || phase.ReviewPhase?
    ensures var p := First(s, phase, script);
            RunFrom(s, phase, maxRepairs, script) == Prefixed(p.events, Following(p, Next(phase), maxRepairs))
  {
  }

  lemma {:induction false} FirstTwice(s: Session, phase: ResumePhase, script: seq<Reply>)
    requires phase.PlannerPhase? || phase.CoderPhase? || phase.ReviewPhase?
    ensures First(Opening(s, phase), phase, script) == First(s, phase, script)
    ensures var p := First(s, phase, script); |p.events| >= 2 && p.events[0] == Emit(Opening(s, phase))
  {
  }

  lemma {:induction false} OpeningResolves(s: Session, phase: ResumePhase)
    requires EntersAt(s, phase)
    ensures Resolve(Opening(s, phase)) == phase
  {
  }

  lemma {:induction false} RunOpens(s: Session, phase: ResumePhase, maxRepairs: int, script: seq<Reply>)
    requires EntersAt(s, phase)
    ensures var run := RunFrom(s, phase, maxRepairs, script);
            && run.events != [] && run.events[0] == Emit(Opening(s, phase))
            && RunFrom(Opening(s, phase), phase, maxRepairs, script) == run
  {
    hide RunPlanner, RunCoder, RunReview, RunLoop;
    if phase.VerifyLoop? {
      LoopOpens(s, maxRepairs, script);
    } else {
      RunUnrolled(s, phase, maxRepairs, script);
      RunUnrolled(Opening(s, phase), phase, maxRepairs, script);
      FirstTwice(s, phase, script);
    }
  }

  lemma {:induction false} FirstShaped(s: Session, phase: ResumePhase, script: seq<Reply>)
    requires EntersAt(s, phase) && !phase.VerifyLoop?
    ensures Shaped(First(s, phase, script), phase, Next(phase), script)
    ensures !First(s, phase, script).end.Again?
  {
    match phase
    case PlannerPhase => PlannerShaped(s, script);
    case CoderPhase => CoderShaped(s, script);
    case ReviewPhase => ReviewShaped(s, script);
  }

  lemma {:induction false} Resumes(s: Session, phase: ResumePhase, maxRepairs: int, script: seq<Reply>)
    requires Resolve(s) == phase
    ensures Resuming(maxRepairs)(s, script) == RunFrom(s, phase, maxRepairs, script)
  {
  }

  lemma {:induction false} CheckpointEmits(events: seq<Event>, k: nat)
    requires k < |events| && Checkpoint(events, k)
    ensures events[k].Emit?
  {
  }

  lemma {:induction false} LoopRuns(s: Session, maxRepairs: int, script: seq<Reply>)
    ensures RunFrom(s, VerifyLoop, maxRepairs, script) == RunLoop(s, PlanSummary(s), maxRepairs, script)
  {
  }

  lemma {:induction false} ShapedEnds(p: Phase, here: ResumePhase, next: ResumePhase, script: seq<Reply>)
    requires Shaped(p, here, next, script)
    ensures p.events != []
    ensures p.end.Passed? ==> EntersAt(p.end.session, next)
    ensures p.end.Passed? && Checkpoint(p.events, |p.events| - 1) ==> Resolve(p.end.session) == next
  {
  }

  lemma {:induction false} RunReplays(s: Session, phase: ResumePhase, maxRepairs: int, script: seq<Reply>, k: nat)
    requires EntersAt(s, phase)
    requires var run := RunFrom(s, phase, maxRepairs, script); k < |run.events| && Checkpoint(run.events, k)
    ensures Replays(RunFrom(s, phase, maxRepairs, script), Resuming(maxRepairs), script, k)
    decreases Remaining(phase)
  {
    hide RunPlanner, RunCoder, RunReview, RunLoop, Resolve, Checkpoint, Replays, Shaped, Opening;
    CheckpointEmits(RunFrom(s, phase, maxRepairs, script).events, k);
    if phase.VerifyLoop? {
      LoopRuns(s, maxRepairs, script);
      LoopReplays(s, maxRepairs, script, k);
    } else {
      var p := First(s, phase, script);
      var tail := Following(p, Next(phase), maxRepairs);
      RunUnrolled(s, phase, maxRepairs, script);
      FirstShaped(s, phase, script);
      ShapedEnds(p, phase, Next(phase), script);
      RunOpens(s, phase, maxRepairs, script);
      OpeningResolves(s, phase);
      Resumes(Opening(s, phase), phase, maxRepairs, script);
      FirstTwice(s, phase, script);
      if p.end.Passed? {
        RunOpens(p.end.session, Next(phase), maxRepairs, p.rest);
        if |p.events| <= k && Checkpoint(tail.events, k - |p.events|) {
          CheckpointEmits(tail.events, k - |p.events|);
          RunReplays(p.end.session, Next(phase), maxRepairs, p.rest, k - |p.events|);
        }
        if Checkpoint(p.events, |p.events| - 1) {
          Resumes(p.end.session, Next(phase), maxRepairs, p.rest);
        }
      }
      PhaseReplays(p, tail, Resuming(maxRepairs), phase, Next(phase), script, k);
    }
  }

  lemma {:induction false} AsksOfTail(events: seq<Event>, k: nat)
    requires k < |events| && events[k].Emit?
    ensures Asks(events[k..]) == Asks(events[k + 1..])
  {
    assert events[k..][0] == events[k] && events[k..][1..] == events[k + 1..];
  }

  /**
   * MAIN RESULT. Take any run, of a fresh session or of a resumed one, interrupt it at any
   * phase-boundary checkpoint, and resume there with the answers not yet used: the resumed run makes
   * the remaining dependency calls in the same order and ends in the same session.
   */
  lemma {:induction false} ResumedRunContinues(s: Session, maxRepairs: int, script: seq<Reply>, k: nat)
    requires var run := Resume(s, maxRepairs, script); k < |run.events| && Checkpoint(run.events, k)
    ensures var run := Resume(s, maxRepairs, script);
            && Used(run, k) <= |script|
            && var again := Resume(run.events[k].session, maxRepairs, script[Used(run, k)..]);
               && Asks(again.events) == Asks(run.events[k + 1..])
               && again.result == run.result
               && again.rest == run.rest
  {
    RunReplays(s, Resolve(s), maxRepairs, script, k);
    AsksOfTail(Resume(s, maxRepairs, script).events, k);
  }

  /** The same for the run of a new session, whose first emission is the queued session. */
  lemma {:induction false} ExecutedRunContinues(runId: string, prompt: string, maxRepairs: int, script: seq<Reply>,
                                                k: nat)
    requires var run := Execute(runId, prompt, maxRepairs, script); k < |run.events| && Checkpoint(run.events, k)
    ensures var run := Execute(runId, prompt, maxRepairs, script);
            && Used(run, k) <= |script|
            && var again := Resume(run.events[k].session, maxRepairs, script[Used(run, k)..]);
               && Asks(again.events) == Asks(run.events[k + 1..])
               && again.result == run.result
               && again.rest == run.rest
  {
    hide RunFrom, Create;
    CreatedResolves(runId, prompt);
    LaunchReplays(Create(runId, prompt), maxRepairs, script, k);
    AsksOfTail(Execute(runId, prompt, maxRepairs, script).events, k);
  }

  lemma {:induction false} CreatedResolves(runId: string, prompt: string)
    ensures Resolve(Create(runId, prompt)).PlannerPhase?
  {
  }

  lemma {:induction false} LaunchReplays(s: Session, maxRepairs: int, script: seq<Reply>, k: nat)
    requires Resolve(s).PlannerPhase?
    requires var run := Prefixed([Emit(s)], RunFrom(s, PlannerPhase, maxRepairs, script));
             k < |run.events| && Checkpoint(run.events, k)
    ensures Replays(Prefixed([Emit(s)], RunFrom(s, PlannerPhase, maxRepairs, script)), Resuming(maxRepairs), script, k)
  {
    hide RunFrom, Resolve, EntersAt, Replays, Checkpoint, Resuming;
    var inner := RunFrom(s, PlannerPhase, maxRepairs, script);
    Resumes(s, PlannerPhase, maxRepairs, script);
    EntersThePlanner(s);
    if k > 0 {
      assert ([Emit(s)] + inner.events)[k] == inner.events[k - 1];
      CheckpointEmits([Emit(s)] + inner.events, k);
      CheckpointBehind([Emit(s)], inner.events, k - 1);
      RunReplays(s, PlannerPhase, maxRepairs, script, k - 1);
    }
    EmittedReplays(s, inner, Resuming(maxRepairs), script, k);
  }

  lemma {:induction false} EntersThePlanner(s: Session)
    requires Resolve(s).PlannerPhase?
    ensures EntersAt(s, PlannerPhase)
  {
  }

  lemma {:induction false} EmittedReplays(s: Session, inner: Run, resume: Resumer, script: seq<Reply>, k: nat)
    requires resume(s, script) == inner && k <= |inner.events|
    requires k > 0 ==> inner.events[k - 1].Emit? && Replays(inner, resume, script, k - 1)
    ensures Replays(Prefixed([Emit(s)], inner), resume, script, k)
  {
    NoReplies([Emit(s)]);
    if k == 0 {
      ReplaysAtClosing([Emit(s)], inner, resume, script, script);
    } else {
      ReplaysBehind([Emit(s)], inner, resume, script, script, k - 1);
    }
  }

  /**
   * Why a session that is repairing is not such a checkpoint: whatever the answers, the resumed run
   * applies again before anything else, where the run itself was waiting for the repair.
   */
  lemma {:induction false} RepairingSessionAppliesAgain(s: Session, maxRepairs: int, script: seq<Reply>)
    requires s.status.Repairing?
    ensures |Resume(s, maxRepairs, script).events| >= 2
    ensures Resume(s, maxRepairs, script).events[..2] == [Emit(Start(s, Verifier, Local)), Call(AskApply)]
  {
    hide RunRepair;
    LoopUnrolled(s, PlanSummary(s), maxRepairs, script);
  }
}
