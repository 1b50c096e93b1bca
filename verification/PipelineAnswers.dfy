/**
 * A run is its answers: which call comes next, what it is given, the session shown at it and the session
 * at the end follow from the session a run is entered with and the answers it has had.
 */
module PipelineAnswers {
  import opened Options
  import opened PipelineSession
  import opened PipelineRun
  import R = PipelineResume
  import Text

  // ---- What the answers make of a session ----

  /** `id ? id : had`. */
  function Kept(had: Option<string>, id: Option<string>): Option<string> {
    if id.Some? && id.value != "" then id else had
  }

  function TextOr(text: Option<string>, default: Fault): Fault {
    match text
    case Some(t) => Reported(t)
    case None => default
  }

  predicate Planned(result: Option<AiResult>) {
    result.Some? && result.value.ok && result.value.plan.Some?
  }

  /** What a planner without a plan is blamed for: its error, else its parse error, else the missing plan. */
  function Blame(result: Option<AiResult>): Fault {
    match result
    case None => NoPlan
    case Some(AiResult(_, _, Some(error), _)) => Reported(error)
    case Some(AiResult(_, _, None, Some(parseError))) => Reported(parseError)
    case Some(AiResult(_, _, None, None)) => NoPlan
  }

  /** The session once an answer is dealt with; `before` is the answer before it. */
  function Tell(s: Session, r: Reply, before: Option<Reply>): Session {
    var t := s.stages;
    match r
    case PlannerReply(result, snapshot, routing) =>
      var id := t.planner.contextSnapshotId;
      if Planned(result) then
        var plan := result.value.plan.value;
        var stage := StageRecord(Succeeded, routing, PlanReady(plan.summary), None, Kept(id, snapshot));
        s.(status := Planning, stages := t.(planner := stage),
           plannerOutput := Some(PlannerOutput(s.prompt, plan.summary, plan.files, plan.risks)))
      else
        var fault := Blame(result);
        s.(status := Failed, error := Some(fault),
           stages := t.(planner := StageRecord(Broken, routing, PlannerFailed, Some(fault), id)))
    case CoderReply(ok, error, snapshot, routing, files) =>
      var id := t.coder.contextSnapshotId;
      if ok then
        s.(status := Coding,
           stages := t.(coder := StageRecord(Succeeded, routing, ProposalsReady(files), None, Kept(id, snapshot))))
      else
        var fault := TextOr(error, ProposeFailed);
        s.(status := Failed, error := Some(fault),
           stages := t.(coder := StageRecord(Broken, routing, CoderFailed, Some(fault), id)))
    case ReviewReply(approved) => s.(status := if approved then AwaitingReview else Cancelled)
    case ApplyReply(ok, verification, _, error) =>
      var id := t.verifier.contextSnapshotId;
      if ok && verification.Some? then
        var verifier := StageRecord(Succeeded, Local, VerificationPassed, None, id);
        var repair := if s.repairAttempts > 0 then t.repair else t.repair.(status := Skipped, summary := NotNeeded);
        s.(status := Completed, verification := verification,
           stages := t.(verifier := verifier, repair := repair, complete := Done(t.complete)))
      else
        var fault := TextOr(error, VerificationFault);
        s.(status := Failed, error := Some(fault),
           stages := t.(verifier := StageRecord(Broken, Local, VerificationFailed, Some(fault), id)))
    case RepairReply(_, _, _, awaiting, routing) =>
      var stage := t.repair.(status := Running, routing := routing, error := None);
      var counted := s.(status := Repairing, repairAttempts := s.repairAttempts + 1,
                        stages := t.(repair := stage));
      if awaiting then counted else Settled(counted, r)
    case RepairApprovalReply(approved) =>
      if approved then (if before.Some? && before.value.RepairReply? then Settled(s, before.value) else s)
      else
        var stage := t.repair.(status := Broken, summary := RepairCancelled, error := Some(RepairApprovalCancelled));
        s.(status := Cancelled, error := Some(RepairApprovalCancelled), stages := t.(repair := stage))
  }

  function Done(stage: StageRecord): StageRecord {
    stage.(status := Succeeded, summary := PipelineCompleted, error := None)
  }

  /** A repair that needs no approval, or has it. */
  function Settled(s: Session, r: Reply): Session
    requires r.RepairReply?
  {
    var t := s.stages;
    if r.repairOk then
      var repair := t.repair.(status := Succeeded, summary := RepairApplied, error := None);
      if r.repairVerification.None? then s.(stages := t.(repair := repair))
      else
        var verifier := t.verifier.(status := Succeeded, summary := PassedAfterRepair, error := None);
        s.(status := Completed, verification := r.repairVerification,
           stages := t.(repair := repair, verifier := verifier, complete := Done(t.complete)))
    else
      var fault := TextOr(r.repairError, RepairFault);
      s.(status := Failed, error := Some(fault),
         stages := t.(repair := t.repair.(status := Broken, summary := RepairFailed, error := Some(fault))))
  }

  /** The session once all of the answers are dealt with. */
  function Told(s: Session, replies: seq<Reply>): Session
    decreases |replies|
  {
    if replies == [] then s
    else
      var n := |replies| - 1;
      Tell(Told(s, replies[..n]), replies[n], if n > 0 then Some(replies[n - 1]) else None)
  }

  // ---- What is asked next ----

  function SummaryOf(s: Session): string {
    match s.plannerOutput
    case Some(output) => output.summary
    case None => ""
  }

  /** A repair that was done and still has to be verified by an apply. */
  predicate Unverified(r: Reply) {
    r.RepairReply? && r.repairOk && r.repairVerification.None?
  }

  /**
   * The call that comes after the answers, `first` when there are none yet, and none when the run is over.
   * A repair is given what the failed apply just answered, the prompt, and the summary of the plan in force.
   */
  function NextAsk(s: Session, first: Option<Ask>, maxRepairs: int, replies: seq<Reply>): Option<Ask> {
    if replies == [] then first
    else
      var n := |replies| - 1;
      var told := Told(s, replies);
      match replies[n]
      case PlannerReply(result, _, _) => if Planned(result) then Some(AskCoder(s.prompt)) else None
      case CoderReply(ok, _, _, _, _) => if ok then Some(AskReview) else None
      case ReviewReply(approved) => if approved then Some(AskApply) else None
      case ApplyReply(ok, verification, applied, _) =>
        if (ok && verification.Some?) || told.repairAttempts >= maxRepairs then None
        else Some(AskRepair(verification, applied, s.prompt, SummaryOf(told)))
      case RepairReply(_, _, _, awaiting, _) =>
        if awaiting then Some(AskRepairApproval) else if Unverified(replies[n]) then Some(AskApply) else None
      case RepairApprovalReply(approved) =>
        if approved && n > 0 && Unverified(replies[n - 1]) then Some(AskApply) else None
  }

  /** The first call of a run that enters at a phase. */
  function FirstAsk(s: Session, phase: ResumePhase): Option<Ask> {
    match phase
    case PlannerPhase => Some(AskPlanner(s.prompt))
    case CoderPhase => Some(AskCoder(s.prompt))
    case ReviewPhase => Some(AskReview)
    case VerifyLoop => Some(AskApply)
    case Finished => None
  }

  /** The session as it is shown when a call is made: the stage that is asked runs. */
  function Opened(s: Session, ask: Ask): Session {
    var t := s.stages;
    match ask
    case AskPlanner(_) => s.(status := Planning, stages := t.(planner := Begun(t.planner, Routing("gemini", ""))))
    case AskCoder(_) => s.(status := Coding, stages := t.(coder := Begun(t.coder, Routing("gemini", ""))))
    case AskReview => s.(status := AwaitingReview)
    case AskApply => s.(status := Verifying, stages := t.(verifier := Begun(t.verifier, Routing("local", "local"))))
    case AskRepair(_, _, _, _) =>
      s.(status := Repairing, stages := t.(repair := Begun(t.repair, Routing("ollama", ""))))
    case AskRepairApproval => s
  }

  function Begun(stage: StageRecord, routing: Routing): StageRecord {
    stage.(status := Running, routing := routing, error := None)
  }

  // ---- A run that does what its answers say ----

  /** Each call is the one the answers before it lead to, and the session shown just before is theirs too. */
  ghost predicate Asked(s: Session, first: Option<Ask>, maxRepairs: int, events: seq<Event>) {
    forall i | 0 <= i < |events| && events[i].Call? :: AskedAt(s, first, maxRepairs, events, i)
  }

  predicate AskedAt(s: Session, first: Option<Ask>, maxRepairs: int, events: seq<Event>, i: nat)
    requires i < |events| && events[i].Call?
  {
    var replies := R.Replies(events[..i]);
    && NextAsk(s, first, maxRepairs, replies) == Some(events[i].ask)
    && i > 0 && events[i - 1] == Emit(Opened(Told(s, replies), events[i].ask))
  }

  /** Answers come right behind their calls. */
  predicate Paired(events: seq<Event>) {
    forall i | 0 <= i < |events| ::
      && (events[i].Call? && i + 1 < |events| ==> events[i + 1].Got? && Answers(events[i].ask, events[i + 1].reply))
      && (events[i].Got? ==> i > 0 && events[i - 1].Call?)
  }

  /** The last call has no answer to come. */
  predicate Unanswered(events: seq<Event>, rest: seq<Reply>) {
    && events != [] && events[|events| - 1].Call?
    && (rest == [] || !Answers(events[|events| - 1].ask, rest[0]))
  }

  /**
   * The run makes the calls its answers lead to. It is over exactly when they lead to none, and ends in the
   * session they make, which it has shown; otherwise it waits for an answer that does not come.
   */
  ghost predicate Obeys(s: Session, first: Option<Ask>, maxRepairs: int, script: seq<Reply>, run: Run) {
    var replies := R.Replies(run.events);
    && Asked(s, first, maxRepairs, run.events) && Paired(run.events)
    && script == replies + run.rest
    && match run.result
       case Some(final) =>
         && NextAsk(s, first, maxRepairs, replies).None? && final == Told(s, replies)
         && (run.events != [] ==> run.events[|run.events| - 1] == Emit(final))
       case None => Unanswered(run.events, run.rest)
  }

  // ---- Putting runs together ----

  /** The answers do not begin with one that looks back. */
  predicate Fresh(replies: seq<Reply>) {
    replies == [] || !replies[0].RepairApprovalReply?
  }

  lemma {:induction false} ToldSum(s: Session, a: seq<Reply>, b: seq<Reply>)
    requires Fresh(b)
    ensures Told(s, a + b) == Told(Told(s, a), b)
    decreases |b|
  {
    hide Tell;
    if b == [] {
      assert a + b == a;
    } else {
      var n := |b| - 1;
      assert (a + b)[..|a| + n] == a + b[..n];
      ToldSum(s, a, b[..n]);
      if n == 0 {
        LooksNotBack(Told(s, a), b[0], if a == [] then None else Some(a[|a| - 1]));
      }
    }
  }

  lemma {:induction false} LooksNotBack(s: Session, r: Reply, before: Option<Reply>)
    requires !r.RepairApprovalReply?
    ensures Tell(s, r, before) == Tell(s, r, None)
  {
  }

  lemma {:induction false} ToldOne(s: Session, r: Reply)
    ensures Told(s, [r]) == Tell(s, r, None)
  {
    hide Tell;
    assert [r][..0] == [];
  }

  lemma {:induction false} ToldTwo(s: Session, r: Reply, q: Reply)
    ensures Told(s, [r, q]) == Tell(Tell(s, r, None), q, Some(r))
  {
    hide Tell;
    assert [r, q][..1] == [r];
    ToldOne(s, r);
  }

  lemma {:induction false} NextAskSum(s: Session, first: Option<Ask>, maxRepairs: int, a: seq<Reply>, b: seq<Reply>)
    requires Fresh(b) && Told(s, a).prompt == s.prompt
    ensures NextAsk(s, first, maxRepairs, a + b) ==
            NextAsk(Told(s, a), NextAsk(s, first, maxRepairs, a), maxRepairs, b)
  {
    hide Told;
    ToldSum(s, a, b);
    if b == [] {
      assert a + b == a;
    }
  }

  lemma {:induction false} AskedSum(s: Session, first: Option<Ask>, maxRepairs: int, a: seq<Event>, b: seq<Event>)
    requires Asked(s, first, maxRepairs, a) && Fresh(R.Replies(b)) && Told(s, R.Replies(a)).prompt == s.prompt
    requires Asked(Told(s, R.Replies(a)), NextAsk(s, first, maxRepairs, R.Replies(a)), maxRepairs, b)
    ensures Asked(s, first, maxRepairs, a + b)
  {
    hide Told, NextAsk, R.Replies;
    forall i | 0 <= i < |a + b| && (a + b)[i].Call?
      ensures AskedAt(s, first, maxRepairs, a + b, i)
    {
      if i < |a| {
        assert (a + b)[..i] == a[..i];
        assert AskedAt(s, first, maxRepairs, a, i);
      } else {
        var j := i - |a|;
        assert (a + b)[..i] == a + b[..j];
        R.RepliesOfSum(a, b[..j]);
        R.RepliesOfSum(b[..j], b[j..]);
        assert b == b[..j] + b[j..];
        assert AskedAt(Told(s, R.Replies(a)), NextAsk(s, first, maxRepairs, R.Replies(a)), maxRepairs, b, j);
        NextAskSum(s, first, maxRepairs, R.Replies(a), R.Replies(b[..j]));
        ToldSum(s, R.Replies(a), R.Replies(b[..j]));
      }
    }
  }

  lemma {:induction false} PairedSum(a: seq<Event>, b: seq<Event>)
    requires Paired(a) && Paired(b) && a != [] && !a[|a| - 1].Call? && b != [] && b[0].Emit?
    ensures Paired(a + b)
  {
  }

  /** What a phase does, up to its end. */
  ghost predicate Runs(s: Session, first: Option<Ask>, maxRepairs: int, script: seq<Reply>, p: Phase) {
    var replies := R.Replies(p.events);
    && p.events != [] && p.events[0].Emit? && Fresh(replies)
    && Asked(s, first, maxRepairs, p.events) && Paired(p.events)
    && script == replies + p.rest
    && match p.end
       case Hung => Unanswered(p.events, p.rest)
       case Stopped(t) =>
         && NextAsk(s, first, maxRepairs, replies).None? && t == Told(s, replies)
         && p.events[|p.events| - 1] == Emit(t)
       case _ => !p.events[|p.events| - 1].Call?
  }

  /** A phase that hands its session on leads to the call `next`. */
  ghost predicate LeadsTo(s: Session, first: Option<Ask>, maxRepairs: int, p: Phase, t: Session, next: Option<Ask>) {
    var replies := R.Replies(p.events);
    t == Told(s, replies) && t.prompt == s.prompt && NextAsk(s, first, maxRepairs, replies) == next
  }

  lemma {:induction false} ObeysBehind(s: Session, first: Option<Ask>, maxRepairs: int, script: seq<Reply>, p: Phase,
                                       t: Session, next: Option<Ask>, tail: Run)
    requires Runs(s, first, maxRepairs, script, p) && !p.end.Hung? && !p.end.Stopped?
    requires LeadsTo(s, first, maxRepairs, p, t, next) && Obeys(t, next, maxRepairs, p.rest, tail)
    requires tail.events != [] && tail.events[0].Emit? && Fresh(R.Replies(tail.events))
    ensures Obeys(s, first, maxRepairs, script, Prefixed(p.events, tail))
    ensures Fresh(R.Replies(Prefixed(p.events, tail).events))
  {
    hide Told, NextAsk, R.Replies, Asked, Paired;
    var a, b := R.Replies(p.events), R.Replies(tail.events);
    R.RepliesOfSum(p.events, tail.events);
    AskedSum(s, first, maxRepairs, p.events, tail.events);
    PairedSum(p.events, tail.events);
    ToldSum(s, a, b);
    NextAskSum(s, first, maxRepairs, a, b);
  }

  /** A phase after which the run is over. */
  lemma {:induction false} ConcludedObeys(s: Session, first: Option<Ask>, maxRepairs: int, script: seq<Reply>, p: Phase)
    requires Runs(s, first, maxRepairs, script, p) && !p.end.Again?
    requires p.end.Passed? ==> LeadsTo(s, first, maxRepairs, p, Conclude(p.end.session).0, None)
    ensures Obeys(s, first, maxRepairs, script, Concluded(p)) && Fresh(R.Replies(Concluded(p).events))
    ensures Concluded(p).events != [] && Concluded(p).events[0].Emit?
  {
    hide Told, NextAsk, R.Replies, Asked, Finish, Close;
    if p.end.Passed? {
      var tail := Conclude(p.end.session).1;
      R.NoReplies(tail);
      R.RepliesOfSum(p.events, tail);
      assert R.Replies(p.events) + [] == R.Replies(p.events);
      NoCalls(Told(s, R.Replies(p.events)), NextAsk(s, first, maxRepairs, R.Replies(p.events)), maxRepairs, tail);
      AskedSum(s, first, maxRepairs, p.events, tail);
      PairedSum(p.events, tail);
    }
  }

  lemma {:induction false} NoCalls(s: Session, first: Option<Ask>, maxRepairs: int, events: seq<Event>)
    requires forall i | 0 <= i < |events| :: events[i].Emit?
    ensures Asked(s, first, maxRepairs, events) && Paired(events)
  {
  }

  // ---- The phases ----

  /** A list of events whose only call is its second event. */
  lemma {:induction false} AskedOnce(s: Session, ask: Ask, maxRepairs: int, events: seq<Event>)
    requires |events| >= 2 && events[0] == Emit(Opened(s, ask)) && events[1] == Call(ask)
    requires forall i | 2 <= i < |events| :: !events[i].Call?
    ensures Asked(s, Some(ask), maxRepairs, events)
  {
    hide Opened;
    assert events[..1] == [events[0]];
    R.NoReplies(events[..1]);
    assert AskedAt(s, Some(ask), maxRepairs, events, 1);
  }

  /** A phase of one call. */
  ghost predicate OneCall(s: Session, ask: Ask, script: seq<Reply>, p: Phase) {
    && !ask.AskRepairApproval?
    && |p.events| >= 2 && p.events[0] == Emit(Opened(s, ask)) && p.events[1] == Call(ask)
    && (forall i | 2 <= i < |p.events| :: !p.events[i].Call?)
    && (if script != [] && Answers(ask, script[0]) then
          && |p.events| > 2 && p.events[2] == Got(script[0]) && p.rest == script[1..]
          && (forall i | 3 <= i < |p.events| :: !p.events[i].Got?)
          && !p.end.Hung?
        else |p.events| == 2 && p.end.Hung? && p.rest == script)
  }

  lemma {:induction false} OneCallRuns(s: Session, ask: Ask, maxRepairs: int, script: seq<Reply>, p: Phase)
    requires OneCall(s, ask, script, p)
    requires p.end.Stopped? ==>
               && p.events[|p.events| - 1] == Emit(p.end.session) && p.end.session == Tell(s, script[0], None)
               && NextAsk(s, Some(ask), maxRepairs, [script[0]]).None?
    ensures Runs(s, Some(ask), maxRepairs, script, p)
    ensures !p.end.Hung? ==> script != [] && Answers(ask, script[0]) && R.Replies(p.events) == [script[0]]
  {
    hide NextAsk, R.Replies, Tell, Opened, Asked;
    AskedOnce(s, ask, maxRepairs, p.events);
    if script != [] && Answers(ask, script[0]) {
      R.UsesOne(p.events, script[0]);
      ToldOne(s, script[0]);
      assert script == [script[0]] + script[1..];
    } else {
      R.NoReplies(p.events);
    }
  }

  lemma {:induction false} PlannerRuns(s: Session, maxRepairs: int, script: seq<Reply>)
    ensures var ask, p := AskPlanner(s.prompt), RunPlanner(s, script);
            && Runs(s, Some(ask), maxRepairs, script, p) && !p.end.Again?
            && (p.end.Passed? ==> LeadsTo(s, Some(ask), maxRepairs, p, p.end.session, Some(AskCoder(s.prompt))))
  {
    hide Runs, Told, Tell;
    var ask, p := AskPlanner(s.prompt), RunPlanner(s, script);
    PlannerTells(s, script);
    OneCallRuns(s, ask, maxRepairs, script, p);
    if p.end.Passed? {
      ToldOne(s, script[0]);
    }
  }

  lemma {:induction false} PlannerCalls(s: Session, script: seq<Reply>)
    ensures OneCall(s, AskPlanner(s.prompt), script, RunPlanner(s, script))
  {
    hide Tell, Finish, Break, Close, Route, PlannerFault, OutputOf, Opened;
    assert Opened(s, AskPlanner(s.prompt)) == Start(s, Planner, Gemini) by {
      PlannerOpens(s);
    }
  }

  lemma {:induction false} PlannerOpens(s: Session)
    ensures Opened(s, AskPlanner(s.prompt)) == Start(s, Planner, Gemini)
  {
  }

  lemma {:induction false} PlannerTells(s: Session, script: seq<Reply>)
    ensures var p := RunPlanner(s, script);
            && OneCall(s, AskPlanner(s.prompt), script, p) && !p.end.Again?
            && (p.end.Passed? ==>
                  p.end.session == Tell(s, script[0], None) && p.end.session.prompt == s.prompt
                  && Planned(script[0].result))
            && (p.end.Stopped? ==>
                  && p.end.session == Tell(s, script[0], None) && p.events[|p.events| - 1] == Emit(p.end.session)
                  && !Planned(script[0].result))
  {
    hide OneCall;
    PlannerCalls(s, script);
  }

  lemma {:induction false} CoderRuns(s: Session, maxRepairs: int, script: seq<Reply>)
    ensures var ask, p := AskCoder(s.prompt), RunCoder(s, script);
            && Runs(s, Some(ask), maxRepairs, script, p) && !p.end.Again?
            && (p.end.Passed? ==> LeadsTo(s, Some(ask), maxRepairs, p, p.end.session, Some(AskReview)))
  {
    hide Runs, Told, Tell;
    var ask, p := AskCoder(s.prompt), RunCoder(s, script);
    CoderTells(s, script);
    OneCallRuns(s, ask, maxRepairs, script, p);
    if p.end.Passed? {
      ToldOne(s, script[0]);
    }
  }

  lemma {:induction false} CoderCalls(s: Session, script: seq<Reply>)
    ensures OneCall(s, AskCoder(s.prompt), script, RunCoder(s, script))
  {
    hide Tell, Finish, Break, Close, Route, FaultOr, Opened;
    assert Opened(s, AskCoder(s.prompt)) == Start(s, Coder, Gemini) by {
      CoderOpens(s);
    }
  }

  lemma {:induction false} CoderOpens(s: Session)
    ensures Opened(s, AskCoder(s.prompt)) == Start(s, Coder, Gemini)
  {
  }

  lemma {:induction false} CoderTells(s: Session, script: seq<Reply>)
    ensures var p := RunCoder(s, script);
            && OneCall(s, AskCoder(s.prompt), script, p) && !p.end.Again?
            && (p.end.Passed? ==>
                  p.end.session == Tell(s, script[0], None) && p.end.session.prompt == s.prompt && script[0].coderOk)
            && (p.end.Stopped? ==>
                  && p.end.session == Tell(s, script[0], None) && p.events[|p.events| - 1] == Emit(p.end.session)
                  && !script[0].coderOk)
  {
    hide OneCall;
    CoderCalls(s, script);
  }

  lemma {:induction false} ReviewRuns(s: Session, maxRepairs: int, script: seq<Reply>)
    ensures var p := RunReview(s, script);
            && Runs(s, Some(AskReview), maxRepairs, script, p) && !p.end.Again?
            && (p.end.Passed? ==> LeadsTo(s, Some(AskReview), maxRepairs, p, p.end.session, Some(AskApply)))
  {
    hide Runs, Told, Tell;
    var p := RunReview(s, script);
    ReviewTells(s, script);
    OneCallRuns(s, AskReview, maxRepairs, script, p);
    if p.end.Passed? {
      ToldOne(s, script[0]);
    }
  }

  lemma {:induction false} ReviewTells(s: Session, script: seq<Reply>)
    ensures var p := RunReview(s, script);
            && OneCall(s, AskReview, script, p) && !p.end.Again?
            && (p.end.Passed? ==>
                  p.end.session == Tell(s, script[0], None) && p.end.session.prompt == s.prompt && script[0].approved)
            && (p.end.Stopped? ==>
                  && p.end.session == Tell(s, script[0], None) && p.events[|p.events| - 1] == Emit(p.end.session)
                  && !script[0].approved)
  {
  }

  // ---- The verify/repair loop ----

  /** An apply that failed with a repair left leads to the repair of what it answered. */
  lemma {:induction false} ApplyRuns(s: Session, maxRepairs: int, script: seq<Reply>)
    ensures var p := RunApply(s, maxRepairs, script);
            && Runs(s, Some(AskApply), maxRepairs, script, p)
            && (p.end.Passed? ==> LeadsTo(s, Some(AskApply), maxRepairs, p, Conclude(p.end.session).0, None))
            && (p.end.Again? ==>
                  && script != [] && script[0].ApplyReply? && p.end.session.repairAttempts == s.repairAttempts
                  && s.repairAttempts < maxRepairs && SummaryOf(p.end.session) == SummaryOf(s)
                  && p.end.session.prompt == s.prompt
                  && LeadsTo(s, Some(AskApply), maxRepairs, p, p.end.session,
                             Some(AskRepair(script[0].applyVerification, script[0].applied, s.prompt, SummaryOf(s)))))
  {
    hide Runs, Told, Tell, Conclude;
    var p := RunApply(s, maxRepairs, script);
    ApplyTells(s, maxRepairs, script);
    if script != [] {
      ToldOne(s, script[0]);
    }
    OneCallRuns(s, AskApply, maxRepairs, script, p);
  }

  predicate Verified(r: Reply) {
    r.ApplyReply? && r.applyOk && r.applyVerification.Some?
  }

  lemma {:induction false} ApplyCalls(s: Session, maxRepairs: int, script: seq<Reply>)
    ensures OneCall(s, AskApply, script, RunApply(s, maxRepairs, script))
  {
    hide Tell, Finish, Break, Close, PipelineSession.Skip, FaultOr, Opened;
    assert Opened(s, AskApply) == Start(s, Verifier, Local) by {
      ApplyOpens(s);
    }
  }

  lemma {:induction false} ApplyOpens(s: Session)
    ensures Opened(s, AskApply) == Start(s, Verifier, Local)
  {
  }

  lemma {:induction false} ApplyTells(s: Session, maxRepairs: int, script: seq<Reply>)
    ensures var p := RunApply(s, maxRepairs, script);
            && OneCall(s, AskApply, script, p)
            && (p.end.Passed? ==>
                  Conclude(p.end.session).0 == Tell(s, script[0], None) && p.end.session.prompt == s.prompt
                  && Conclude(p.end.session).0.prompt == s.prompt && Verified(script[0]))
            && (p.end.Stopped? ==>
                  && p.end.session == Tell(s, script[0], None) && p.events[|p.events| - 1] == Emit(p.end.session)
                  && p.end.session.repairAttempts == s.repairAttempts >= maxRepairs && !Verified(script[0]))
            && (p.end.Again? ==>
                  && script != [] && script[0].ApplyReply?
                  && p.end.session == Tell(s, script[0], None) && p.end.session.prompt == s.prompt
                  && p.end.session.plannerOutput == s.plannerOutput
                  && p.end.session.repairAttempts == s.repairAttempts < maxRepairs && !Verified(script[0]))
  {
    hide OneCall;
    ApplyCalls(s, maxRepairs, script);
  }

  /** How a repair ends: it stops, passes or goes round again by what was answered. */
  predicate SettledEnd(p: Phase, counted: Session, r: Reply)
    requires r.RepairReply?
  {
    && (p.end.Again? <==> Unverified(r)) && (p.end.Stopped? <==> !r.repairOk) && !p.end.Hung?
    && (p.end.Passed? ==> Conclude(p.end.session).0 == Settled(counted, r))
    && (!p.end.Passed? ==> p.end.session == Settled(counted, r))
    && (p.end.Stopped? ==> p.events != [] && p.events[|p.events| - 1] == Emit(p.end.session))
    && p.end.session.plannerOutput == counted.plannerOutput && p.end.session.repairAttempts == counted.repairAttempts
  }

  lemma {:induction false} SettleTells(counted: Session, r: Reply, before: seq<Event>, rest: seq<Reply>)
    requires r.RepairReply? && counted.status.Repairing?
    ensures var p := SettleRepair(counted, r, before, rest);
            && SettledEnd(p, counted, r) && p.rest == rest && before < p.events
            && forall i | |before| <= i < |p.events| :: p.events[i].Emit?
  {
  }

  /** The session that counts the repair. */
  function Counted(s: Session, routing: Routing): Session {
    Route(Start(s, Repair, Ollama), Repair, routing).(repairAttempts := s.repairAttempts + 1)
  }

  lemma {:induction false} CountedTells(s: Session, r: Reply)
    requires r.RepairReply?
    ensures var counted := Counted(s, r.repairRouting);
            && Tell(s, r, None) == (if r.awaitingApproval then counted else Settled(counted, r))
            && (forall ask: Ask | ask.AskRepair? :: Opened(s, ask) == Start(s, Repair, Ollama))
            && counted.status.Repairing? && counted.plannerOutput == s.plannerOutput && counted.prompt == s.prompt
  {
  }

  lemma {:induction false} SettledKeeps(s: Session, r: Reply)
    requires r.RepairReply?
    ensures Settled(s, r).prompt == s.prompt && Settled(s, r).plannerOutput == s.plannerOutput
    ensures Settled(s, r).repairAttempts == s.repairAttempts
  {
  }

  /** A repair that needs an approval: two calls. */
  ghost predicate TwoCalls(s: Session, ask: Ask, script: seq<Reply>, p: Phase) {
    && ask.AskRepair? && script != [] && script[0].RepairReply? && script[0].awaitingApproval
    && |p.events| >= 5 && p.events[0] == Emit(Opened(s, ask)) && p.events[1] == Call(ask)
    && p.events[2] == Got(script[0]) && p.events[3] == Emit(Tell(s, script[0], None))
    && p.events[4] == Call(AskRepairApproval)
    && (forall i | 5 <= i < |p.events| :: !p.events[i].Call?)
    && (if |script| > 1 && script[1].RepairApprovalReply? then
          && |p.events| > 5 && p.events[5] == Got(script[1]) && p.rest == script[2..]
          && (forall i | 6 <= i < |p.events| :: !p.events[i].Got?)
          && !p.end.Hung?
        else |p.events| == 5 && p.end.Hung? && p.rest == script[1..])
  }

  lemma {:induction false} TwoCallsAsked(s: Session, ask: Ask, maxRepairs: int, script: seq<Reply>, p: Phase)
    requires TwoCalls(s, ask, script, p)
    ensures Asked(s, Some(ask), maxRepairs, p.events)
  {
    hide Opened, Tell, R.Replies, Told;
    assert p.events[..1] == [p.events[0]];
    R.NoReplies(p.events[..1]);
    assert Told(s, []) == s by {
      ToldNone(s);
    }
    assert AskedAt(s, Some(ask), maxRepairs, p.events, 1);
    assert p.events[..4][2] == Got(script[0]);
    R.UsesOne(p.events[..4], script[0]);
    ToldOne(s, script[0]);
    ApprovalShown(Tell(s, script[0], None));
    assert AskedAt(s, Some(ask), maxRepairs, p.events, 4);
  }

  lemma {:induction false} ToldNone(s: Session)
    ensures Told(s, []) == s
  {
  }

  lemma {:induction false} ApprovalShown(s: Session)
    ensures Opened(s, AskRepairApproval) == s
  {
  }

  lemma {:induction false} TwoCallsRun(s: Session, ask: Ask, maxRepairs: int, script: seq<Reply>, p: Phase)
    requires TwoCalls(s, ask, script, p)
    requires p.end.Stopped? ==>
               && p.events[|p.events| - 1] == Emit(p.end.session)
               && p.end.session == Tell(Tell(s, script[0], None), script[1], Some(script[0]))
               && NextAsk(s, Some(ask), maxRepairs, [script[0], script[1]]).None?
    ensures Runs(s, Some(ask), maxRepairs, script, p)
    ensures !p.end.Hung? ==> |script| > 1 && script[1].RepairApprovalReply?
                             && R.Replies(p.events) == [script[0], script[1]]
  {
    hide NextAsk, R.Replies, Tell, Opened, Asked;
    TwoCallsAsked(s, ask, maxRepairs, script, p);
    if |script| > 1 && script[1].RepairApprovalReply? {
      R.UsesTwo(p.events, script[0], script[1]);
      ToldTwo(s, script[0], script[1]);
      assert script == [script[0], script[1]] + script[2..];
    } else {
      R.UsesOne(p.events, script[0]);
      assert script == [script[0]] + script[1..];
    }
  }

  /** What a repair leads to, however it is answered. */
  ghost predicate RepairLeads(s: Session, ask: Ask, maxRepairs: int, p: Phase) {
    && (p.end.Passed? ==> LeadsTo(s, Some(ask), maxRepairs, p, Conclude(p.end.session).0, None))
    && (p.end.Again? ==>
          && LeadsTo(s, Some(ask), maxRepairs, p, p.end.session, Some(AskApply))
          && SummaryOf(p.end.session) == SummaryOf(s) && p.end.session.repairAttempts == s.repairAttempts + 1)
  }

  /** A repair that needs no approval. */
  lemma {:induction false} RepairAlone(s: Session, ask: Ask, maxRepairs: int, script: seq<Reply>, p: Phase)
    requires ask.AskRepair? && script != [] && script[0].RepairReply? && !script[0].awaitingApproval
    requires SettledEnd(p, Counted(s, script[0].repairRouting), script[0]) && OneCall(s, ask, script, p)
    ensures Runs(s, Some(ask), maxRepairs, script, p) && RepairLeads(s, ask, maxRepairs, p)
  {
    hide Runs, Tell, Counted, Settled, Conclude, OneCall, Opened;
    CountedTells(s, script[0]);
    SettledKeeps(Counted(s, script[0].repairRouting), script[0]);
    ToldOne(s, script[0]);
    CountedKeeps(s, script[0].repairRouting);
    OneCallRuns(s, ask, maxRepairs, script, p);
  }

  lemma {:induction false} CountedKeeps(s: Session, routing: Routing)
    ensures Counted(s, routing).repairAttempts == s.repairAttempts + 1
  {
  }

  /** A repair that waited for its approval. */
  lemma {:induction false} RepairApproved(s: Session, ask: Ask, maxRepairs: int, script: seq<Reply>, p: Phase)
    requires TwoCalls(s, ask, script, p)
    requires |script| > 1 && script[1] == RepairApprovalReply(true)
    requires SettledEnd(p, Counted(s, script[0].repairRouting), script[0])
    ensures Runs(s, Some(ask), maxRepairs, script, p) && RepairLeads(s, ask, maxRepairs, p)
  {
    hide Runs, Tell, Counted, Settled, Conclude, Opened;
    CountedTells(s, script[0]);
    SettledKeeps(Counted(s, script[0].repairRouting), script[0]);
    ToldTwo(s, script[0], script[1]);
    ApprovalTells(Counted(s, script[0].repairRouting), script[0]);
    CountedKeeps(s, script[0].repairRouting);
    TwoCallsRun(s, ask, maxRepairs, script, p);
  }

  lemma {:induction false} ApprovalTells(counted: Session, r: Reply)
    requires r.RepairReply?
    ensures Tell(counted, RepairApprovalReply(true), Some(r)) == Settled(counted, r)
    ensures Tell(counted, RepairApprovalReply(false), Some(r)) ==
            Cancel(Break(counted, Repair, RepairCancelled, RepairApprovalCancelled))
  {
  }

  /** The events of a repair up to the point where it is settled. */
  function Opening(s: Session, ask: Ask, r: Reply): seq<Event>
    requires r.RepairReply?
  {
    [Emit(Start(s, Repair, Ollama)), Call(ask), Got(r), Emit(Counted(s, r.repairRouting))]
  }

  /** The five ways a repair can go. */
  lemma {:induction false} RepairIs(s: Session, apply: Reply, planSummary: string, script: seq<Reply>)
    requires apply.ApplyReply?
    ensures var ask := AskRepair(apply.applyVerification, apply.applied, s.prompt, planSummary);
            var p := RunRepair(s, apply, planSummary, script);
            if script == [] || !script[0].RepairReply? then
              p == Phase([Emit(Start(s, Repair, Ollama)), Call(ask)], Hung, script)
            else
              var counted, opening := Counted(s, script[0].repairRouting), Opening(s, ask, script[0]);
              if !script[0].awaitingApproval then p == SettleRepair(counted, script[0], opening, script[1..])
              else if |script| < 2 || !script[1].RepairApprovalReply? then
                p == Phase(opening + [Call(AskRepairApproval)], Hung, script[1..])
              else if script[1].repairApproved then
                p == SettleRepair(counted, script[0], opening + [Call(AskRepairApproval), Got(script[1])], script[2..])
              else
                var broken := Break(counted, Repair, RepairCancelled, RepairApprovalCancelled);
                p == Phase(opening + [Call(AskRepairApproval), Got(script[1]), Emit(broken), Emit(Cancel(broken))],
                           Stopped(Cancel(broken)), script[2..])
  {
    hide SettleRepair, Start, Route, Break, Cancel;
    if script != [] && script[0].RepairReply? {
      var ask := AskRepair(apply.applyVerification, apply.applied, s.prompt, planSummary);
      var before := Opening(s, ask, script[0]);
      var counted := Counted(s, script[0].repairRouting);
      assert [Emit(Start(s, Repair, Ollama)), Call(ask)] + [Got(script[0]), Emit(counted)] == before;
      if |script| > 1 && script[1].RepairApprovalReply? {
        assert before + [Call(AskRepairApproval)] + [Got(script[1])] ==
               before + [Call(AskRepairApproval), Got(script[1])];
      }
    }
  }

  lemma {:induction false} RepairRuns(s: Session, apply: Reply, planSummary: string, maxRepairs: int,
                                      script: seq<Reply>)
    requires apply.ApplyReply?
    ensures var ask := AskRepair(apply.applyVerification, apply.applied, s.prompt, planSummary);
            var p := RunRepair(s, apply, planSummary, script);
            Runs(s, Some(ask), maxRepairs, script, p) && RepairLeads(s, ask, maxRepairs, p)
  {
    hide Runs, RunRepair, RepairLeads, SettleRepair, SettledEnd, Opened, Counted, Tell, Settled, Start, Break, Cancel,
        TwoCalls;
    var ask := AskRepair(apply.applyVerification, apply.applied, s.prompt, planSummary);
    var p := RunRepair(s, apply, planSummary, script);
    RepairIs(s, apply, planSummary, script);
    if script == [] || !script[0].RepairReply? {
      CountedTells(s, RepairReply(false, None, None, false, Ollama));
      OneCallRuns(s, ask, maxRepairs, script, p);
      HungLeads(s, ask, maxRepairs, p);
    } else {
      CountedTells(s, script[0]);
      if !script[0].awaitingApproval {
        SettleTells(Counted(s, script[0].repairRouting), script[0], Opening(s, ask, script[0]), script[1..]);
        EndsSettled(p, Counted(s, script[0].repairRouting), script[0]);
        RepairAlone(s, ask, maxRepairs, script, p);
      } else if |script| < 2 || !script[1].RepairApprovalReply? {
        RepairUnapproved(s, ask, maxRepairs, script, p);
      } else if script[1].repairApproved {
        RepairGranted(s, ask, maxRepairs, script, p);
      } else {
        RepairRefused(s, ask, maxRepairs, script, p);
      }
    }
  }

  lemma {:induction false} EndsSettled(p: Phase, counted: Session, r: Reply)
    requires r.RepairReply? && SettledEnd(p, counted, r)
    ensures !p.end.Hung?
  {
  }

  lemma {:induction false} HungLeads(s: Session, ask: Ask, maxRepairs: int, p: Phase)
    requires p.end.Hung? || p.end.Stopped?
    ensures RepairLeads(s, ask, maxRepairs, p)
  {
  }

  lemma {:induction false} RepairUnapproved(s: Session, ask: Ask, maxRepairs: int, script: seq<Reply>, p: Phase)
    requires ask.AskRepair? && script != [] && script[0].RepairReply? && script[0].awaitingApproval
    requires |script| < 2 || !script[1].RepairApprovalReply?
    requires p == Phase(Opening(s, ask, script[0]) + [Call(AskRepairApproval)], Hung, script[1..])
    ensures Runs(s, Some(ask), maxRepairs, script, p) && RepairLeads(s, ask, maxRepairs, p)
  {
    hide Runs, RepairLeads, Opened, Counted, Tell, Settled, Start;
    CountedTells(s, script[0]);
    TwoCallsRun(s, ask, maxRepairs, script, p);
    HungLeads(s, ask, maxRepairs, p);
  }

  lemma {:induction false} RepairRefused(s: Session, ask: Ask, maxRepairs: int, script: seq<Reply>, p: Phase)
    requires ask.AskRepair? && script != [] && script[0].RepairReply? && script[0].awaitingApproval
    requires |script| > 1 && script[1] == RepairApprovalReply(false)
    requires var broken := Break(Counted(s, script[0].repairRouting), Repair, RepairCancelled, RepairApprovalCancelled);
             p == Phase(Opening(s, ask, script[0]) + [Call(AskRepairApproval), Got(script[1]), Emit(broken),
                                                      Emit(Cancel(broken))],
                        Stopped(Cancel(broken)), script[2..])
    ensures Runs(s, Some(ask), maxRepairs, script, p) && RepairLeads(s, ask, maxRepairs, p)
  {
    hide Runs, RepairLeads, Opened, Counted, Tell, Settled, Start, Break, Cancel, Told;
    CountedTells(s, script[0]);
    ApprovalTells(Counted(s, script[0].repairRouting), script[0]);
    TwoCallsRun(s, ask, maxRepairs, script, p);
    HungLeads(s, ask, maxRepairs, p);
  }

  lemma {:induction false} RepairGranted(s: Session, ask: Ask, maxRepairs: int, script: seq<Reply>, p: Phase)
    requires ask.AskRepair? && script != [] && script[0].RepairReply? && script[0].awaitingApproval
    requires |script| > 1 && script[1] == RepairApprovalReply(true)
    requires p == SettleRepair(Counted(s, script[0].repairRouting), script[0],
                               Opening(s, ask, script[0]) + [Call(AskRepairApproval), Got(script[1])], script[2..])
    ensures Runs(s, Some(ask), maxRepairs, script, p) && RepairLeads(s, ask, maxRepairs, p)
  {
    hide Runs, RepairLeads, SettleRepair, SettledEnd, Opened, Counted, Tell, Settled, Start;
    var counted := Counted(s, script[0].repairRouting);
    CountedTells(s, script[0]);
    SettleTells(counted, script[0], Opening(s, ask, script[0]) + [Call(AskRepairApproval), Got(script[1])],
                script[2..]);
    EndsSettled(p, counted, script[0]);
    RepairApproved(s, ask, maxRepairs, script, p);
  }

  /** The rest of the loop, from any turn. */
  lemma {:induction false} LoopObeys(s: Session, planSummary: string, maxRepairs: int, script: seq<Reply>)
    requires planSummary == SummaryOf(s)
    ensures var run := RunLoop(s, planSummary, maxRepairs, script);
            && Obeys(s, Some(AskApply), maxRepairs, script, run)
            && run.events != [] && run.events[0].Emit? && Fresh(R.Replies(run.events))
    decreases maxRepairs - s.repairAttempts
  {
    hide RunApply, RunRepair, RunLoop, Obeys, Runs, LeadsTo, Fresh, R.Replies, Conclude, Concluded, SummaryOf, NextAsk;
    R.LoopUnrolled(s, planSummary, maxRepairs, script);
    ApplyRuns(s, maxRepairs, script);
    var apply := RunApply(s, maxRepairs, script);
    if !apply.end.Again? {
      ConcludedObeys(s, Some(AskApply), maxRepairs, script, apply);
    } else {
      var t, r := apply.end.session, script[0];
      var ask := AskRepair(r.applyVerification, r.applied, t.prompt, planSummary);
      var repair := RunRepair(t, r, planSummary, apply.rest);
      RepairRuns(t, r, planSummary, maxRepairs, apply.rest);
      var tail := R.AfterApply(repair, planSummary, maxRepairs);
      if repair.end.Again? {
        var loop := RunLoop(repair.end.session, planSummary, maxRepairs, repair.rest);
        LoopObeys(repair.end.session, planSummary, maxRepairs, repair.rest);
        ObeysBehind(t, Some(ask), maxRepairs, apply.rest, repair, repair.end.session, Some(AskApply), loop);
        RunsOpens(t, Some(ask), maxRepairs, apply.rest, repair);
      } else {
        ConcludedObeys(t, Some(ask), maxRepairs, apply.rest, repair);
      }
      ObeysBehind(s, Some(AskApply), maxRepairs, script, apply, t, Some(ask), tail);
      RunsOpens(s, Some(AskApply), maxRepairs, script, apply);
    }
  }

  lemma {:induction false} RunsOpens(s: Session, first: Option<Ask>, maxRepairs: int, script: seq<Reply>, p: Phase)
    requires Runs(s, first, maxRepairs, script, p)
    ensures p.events != [] && p.events[0].Emit?
  {
  }

  // ---- Whole runs ----

  lemma {:induction false} PhaseRuns(s: Session, phase: ResumePhase, maxRepairs: int, script: seq<Reply>)
    requires phase.PlannerPhase? || phase.CoderPhase? || phase.ReviewPhase?
    ensures var p, first := R.First(s, phase, script), FirstAsk(s, phase);
            && Runs(s, first, maxRepairs, script, p) && !p.end.Again?
            && (p.end.Passed? ==>
                  && LeadsTo(s, first, maxRepairs, p, p.end.session, FirstAsk(p.end.session, R.Next(phase)))
                  && p.end.session.prompt == s.prompt)
  {
    hide Runs, RunPlanner, RunCoder, RunReview, Told, NextAsk, R.Replies;
    match phase {
      case PlannerPhase => PlannerRuns(s, maxRepairs, script);
      case CoderPhase => CoderRuns(s, maxRepairs, script);
      case ReviewPhase => ReviewRuns(s, maxRepairs, script);
    }
  }

  /** A phase after which nothing follows. */
  lemma {:induction false} EndedObeys(s: Session, first: Option<Ask>, maxRepairs: int, script: seq<Reply>, p: Phase,
                                      next: ResumePhase)
    requires Runs(s, first, maxRepairs, script, p) && (p.end.Stopped? || p.end.Hung?)
    ensures Obeys(s, first, maxRepairs, script, Prefixed(p.events, R.Following(p, next, maxRepairs)))
    ensures Fresh(R.Replies(p.events)) && p.events != [] && p.events[0].Emit?
  {
    hide Told, NextAsk, R.Replies, Asked, Paired;
    assert p.events + [] == p.events;
  }

  lemma {:induction false} RunObeys(s: Session, phase: ResumePhase, maxRepairs: int, script: seq<Reply>)
    ensures var run := RunFrom(s, phase, maxRepairs, script);
            && Obeys(s, FirstAsk(s, phase), maxRepairs, script, run)
            && Fresh(R.Replies(run.events))
            && (!phase.Finished? ==> run.events != [] && run.events[0].Emit?)
    decreases Remaining(phase)
  {
    hide RunFrom, RunLoop, RunPlanner, RunCoder, RunReview, Obeys, Runs, LeadsTo, Fresh, R.Replies, PlanSummary,
        SummaryOf;
    if phase.Finished? {
      FinishedObeys(s, maxRepairs, script);
    } else if phase.VerifyLoop? {
      R.LoopRuns(s, maxRepairs, script);
      SummariesAgree(s);
      LoopObeys(s, PlanSummary(s), maxRepairs, script);
    } else {
      var p, first := R.First(s, phase, script), FirstAsk(s, phase);
      R.RunUnrolled(s, phase, maxRepairs, script);
      PhaseRuns(s, phase, maxRepairs, script);
      RunsOpens(s, first, maxRepairs, script, p);
      if p.end.Passed? {
        var t := p.end.session;
        RunObeys(t, R.Next(phase), maxRepairs, p.rest);
        ObeysBehind(s, first, maxRepairs, script, p, t, FirstAsk(t, R.Next(phase)),
                    RunFrom(t, R.Next(phase), maxRepairs, p.rest));
      } else {
        EndedObeys(s, first, maxRepairs, script, p, R.Next(phase));
        assert p.events + [] == p.events;
      }
    }
  }

  lemma {:induction false} SummariesAgree(s: Session)
    ensures PlanSummary(s) == SummaryOf(s)
  {
  }

  lemma {:induction false} FinishedObeys(s: Session, maxRepairs: int, script: seq<Reply>)
    ensures RunFrom(s, Finished, maxRepairs, script) == Run([], Some(s), script)
    ensures Obeys(s, None, maxRepairs, script, Run([], Some(s), script)) && Fresh(R.Replies([]))
  {
  }

  /**
   * MAIN RESULT. A resumed run is its answers: every call, what it is given and the session shown just before
   * it are what the answers so far make of the resumed session, the run is over exactly when they lead to no
   * call, and the final session is what they make of it. With `NextAsk` this says that a repair is given the
   * verification and the files of the apply that was just answered, the prompt, and the summary of the plan.
   */
  lemma {:induction false} ResumedRunObeys(s: Session, maxRepairs: int, script: seq<Reply>)
    ensures Obeys(s, FirstAsk(s, Resolve(s)), maxRepairs, script, Resume(s, maxRepairs, script))
  {
    RunObeys(s, Resolve(s), maxRepairs, script);
  }

  /** What a resumed run asks first, by the status and the stages of the session. */
  lemma {:induction false} ResumeStarts(s: Session)
    ensures var first, coder := FirstAsk(s, Resolve(s)), s.stages.coder.status;
            var late := {AwaitingReview, Verifying, Repairing, Completed};
            && (first == None <==> s.status == Completed)
            && (first == Some(AskReview) <==> s.status == AwaitingReview || (s.status == Coding && coder == Succeeded))
            && (first == Some(AskApply) <==>
                s.status in {Verifying, Repairing} || (s.status !in late && s.status != Coding && coder == Succeeded))
            && (first == Some(AskPlanner(s.prompt)) <==>
                && s.status !in late && s.status != Coding && coder !in {Succeeded, Running}
                && (s.stages.planner.status != Succeeded || s.plannerOutput == None))
            && (first.Some? && first.value.AskCoder? ==> first.value == AskCoder(s.prompt))
  {
  }

  /** The session of a new run. */
  function Blank(runId: string, prompt: string): Session {
    var idle := StageRecord(Pending, Routing("gemini", ""), Note.Blank, None, None);
    Session(runId, prompt, Queued, Stages(idle, idle, idle.(routing := Routing("local", "local")), idle, idle), None,
            None, 0, None)
  }

  /** MAIN RESULT. The same of the run of a new session, which asks the planner first. */
  lemma {:induction false} ExecutedRunObeys(runId: string, prompt: string, maxRepairs: int, script: seq<Reply>)
    ensures var s, run := Blank(runId, Text.Trim(prompt)), Execute(runId, prompt, maxRepairs, script);
            && run.events != [] && run.events[0] == Emit(s)
            && Obeys(s, Some(AskPlanner(Text.Trim(prompt))), maxRepairs, script, run)
  {
    hide RunFrom, Obeys, Fresh, R.Replies, Text.Trim;
    var s, first := Blank(runId, Text.Trim(prompt)), Some(AskPlanner(Text.Trim(prompt)));
    RunObeys(s, PlannerPhase, maxRepairs, script);
    EmittedObeys(s, first, maxRepairs, script, RunFrom(s, PlannerPhase, maxRepairs, script));
  }

  lemma {:induction false} EmittedObeys(s: Session, first: Option<Ask>, maxRepairs: int, script: seq<Reply>, run: Run)
    requires Obeys(s, first, maxRepairs, script, run) && run.events != [] && run.events[0].Emit?
    requires Fresh(R.Replies(run.events))
    ensures Obeys(s, first, maxRepairs, script, Prefixed([Emit(s)], run))
  {
    hide Told, NextAsk, R.Replies;
    R.NoReplies([Emit(s)]);
    R.RepliesOfSum([Emit(s)], run.events);
    ToldNone(s);
    NoCalls(s, first, maxRepairs, [Emit(s)]);
    AskedNone(s, first, maxRepairs);
    AskedSum(s, first, maxRepairs, [Emit(s)], run.events);
    assert [] + R.Replies(run.events) == R.Replies(run.events);
  }

  lemma {:induction false} AskedNone(s: Session, first: Option<Ask>, maxRepairs: int)
    ensures NextAsk(s, first, maxRepairs, []) == first
  {
  }

  // ---- In particular: what a repair is given ----

  /** The plan that the last planner answer with a plan gave. */
  function PlanIn(replies: seq<Reply>): Option<AiPlan>
    decreases |replies|
  {
    if replies == [] then None
    else
      var last := replies[|replies| - 1];
      if last.PlannerReply? && Planned(last.result) then last.result.value.plan
      else PlanIn(replies[..|replies| - 1])
  }

  /** Of the answers only a planner's changes the plan, and none changes the prompt. */
  lemma {:induction false} TellPlan(s: Session, r: Reply, before: Option<Reply>)
    ensures Tell(s, r, before).prompt == s.prompt
    ensures Tell(s, r, before).plannerOutput ==
            if r.PlannerReply? && Planned(r.result) then
              var plan := r.result.value.plan.value;
              Some(PlannerOutput(s.prompt, plan.summary, plan.files, plan.risks))
            else s.plannerOutput
  {
    hide Settled, Planned, Blame;
    if r.RepairReply? {
      CountedTells(s, r);
      SettledKeeps(Counted(s, r.repairRouting), r);
    } else if r.RepairApprovalReply? && before.Some? && before.value.RepairReply? {
      SettledKeeps(s, before.value);
    }
  }

  /** The plan and the prompt of the told session. */
  lemma {:induction false} ToldPlan(s: Session, replies: seq<Reply>)
    ensures Told(s, replies).prompt == s.prompt
    ensures Told(s, replies).plannerOutput ==
            match PlanIn(replies)
            case Some(plan) => Some(PlannerOutput(s.prompt, plan.summary, plan.files, plan.risks))
            case None => s.plannerOutput
    decreases |replies|
  {
    hide Tell;
    if replies != [] {
      var n := |replies| - 1;
      ToldPlan(s, replies[..n]);
      TellPlan(Told(s, replies[..n]), replies[n], if n > 0 then Some(replies[n - 1]) else None);
    }
  }

  /**
   * In the run of a new session, the answer before each repair call is that of an apply, and the repair is
   * given its verification and files, the prompt, and the summary of the plan the planner answered with.
   */
  lemma {:induction false} RepairIsGivenTheApply(runId: string, prompt: string, maxRepairs: int, script: seq<Reply>,
                                                 i: nat)
    requires var events := Execute(runId, prompt, maxRepairs, script).events;
             i < |events| && events[i].Call? && events[i].ask.AskRepair?
    ensures var events := Execute(runId, prompt, maxRepairs, script).events;
            var replies := R.Replies(events[..i]);
            && replies != [] && replies[|replies| - 1].ApplyReply?
            && var last := replies[|replies| - 1];
               var summary := match PlanIn(replies) case Some(plan) => plan.summary case None => "";
               events[i].ask == AskRepair(last.applyVerification, last.applied, Text.Trim(prompt), summary)
  {
    hide Told, PlanIn, Execute, R.Replies;
    var run, s := Execute(runId, prompt, maxRepairs, script), Blank(runId, Text.Trim(prompt));
    ExecutedRunObeys(runId, prompt, maxRepairs, script);
    assert AskedAt(s, Some(AskPlanner(Text.Trim(prompt))), maxRepairs, run.events, i);
    ToldPlan(s, R.Replies(run.events[..i]));
  }
}
