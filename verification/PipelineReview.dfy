/**
 * No patch is applied before a review has approved it, over every chain of interruptions and resumes.
 */
module PipelineReview {
  import opened Options
  import opened PipelineSession
  import opened PipelineRun
  import opened Text
  import R = PipelineResume

  /**
   * A session cancelled while it waited for review: the coder is done, the verifier never started.
   * `Resolve` sends it to the verify loop, as it does a session cancelled during a repair.
   */
  predicate CancelledAtReview(s: Session) {
    s.status.Cancelled? && s.stages.coder.status.Succeeded? && s.stages.verifier.status.Pending?
  }

  // ---- What is proved, in terms of the events alone ----

  /** A review was approved at some point of `events`. */
  ghost predicate Approved(events: seq<Event>) {
    exists j :: 0 <= j < |events| && events[j] == Got(ReviewReply(true))
  }

  /** The last review answer in `events` was an approval. */
  ghost predicate ApprovedLast(events: seq<Event>) {
    exists j :: 0 <= j < |events| && events[j] == Got(ReviewReply(true)) && NoReviewAfter(events, j)
  }

  ghost predicate NoReviewAfter(events: seq<Event>, j: int) {
    forall k | j < k < |events| && k >= 0 :: !(events[k].Got? && events[k].reply.ReviewReply?)
  }

  /** Every apply comes after an approval. */
  ghost predicate Gated(events: seq<Event>) {
    forall i | 0 <= i < |events| && events[i] == Call(AskApply) :: Approved(events[..i])
  }

  /** At every apply, the last review answer was an approval. */
  ghost predicate StrictlyGated(events: seq<Event>) {
    forall i | 0 <= i < |events| && events[i] == Call(AskApply) :: ApprovedLast(events[..i])
  }

  // ---- The same, as a monitor that reads the events one by one ----

  /** After an answer: with `sticky` an approval is remembered, otherwise the last answer counts. */
  function Hear(ok: bool, event: Event, sticky: bool): bool {
    if event.Got? && event.reply.ReviewReply? then event.reply.approved || (sticky && ok) else ok
  }

  function Heard(events: seq<Event>, ok: bool, sticky: bool): bool {
    if events == [] then ok else Heard(events[1..], Hear(ok, events[0], sticky), sticky)
  }

  function LastEmitted(events: seq<Event>, last: Session): Session {
    if events == [] then last
    else LastEmitted(events[1..], if events[0].Emit? then events[0].session else last)
  }

  /** A session that may be emitted, given what the reviews said so far. */
  predicate Trusted(e: Session, ok: bool) {
    && (Resolve(e).ReviewPhase? || Resolve(e).VerifyLoop? ==> e.stages.coder.status.Succeeded?)
    && (!Resolve(e).VerifyLoop? && !Resolve(e).Finished? ==> e.stages.verifier.status.Pending?)
    && (Resolve(e).VerifyLoop? && !CancelledAtReview(e) ==> ok)
  }

  predicate Allowed(event: Event, last: Session, ok: bool, sticky: bool) {
    match event
    case Call(ask) => ask.AskApply? ==> ok
    case Got(reply) => reply.ReviewReply? ==> last.status.AwaitingReview?
    case Emit(e) => Trusted(e, ok) && (CancelledAtReview(e) && !sticky ==> !ok)
  }

  ghost predicate Sound(events: seq<Event>, last: Session, ok: bool, sticky: bool) {
    events == [] ||
    (&& Allowed(events[0], last, ok, sticky)
     && Sound(events[1..], if events[0].Emit? then events[0].session else last, Hear(ok, events[0], sticky), sticky))
  }

  lemma {:induction false} SoundSum(a: seq<Event>, b: seq<Event>, last: Session, ok: bool, sticky: bool)
    ensures Sound(a + b, last, ok, sticky) <==>
            Sound(a, last, ok, sticky) && Sound(b, LastEmitted(a, last), Heard(a, ok, sticky), sticky)
    ensures Heard(a + b, ok, sticky) == Heard(b, Heard(a, ok, sticky), sticky)
    ensures LastEmitted(a + b, last) == LastEmitted(b, LastEmitted(a, last))
  {
    if a == [] {
      assert a + b == b;
    } else {
      assert (a + b)[0] == a[0] && (a + b)[1..] == a[1..] + b;
      SoundSum(a[1..], b, if a[0].Emit? then a[0].session else last, Hear(ok, a[0], sticky), sticky);
    }
  }

  /** A sound list is sound up to any point, and what happens at that point is allowed. */
  lemma {:induction false} SoundAt(events: seq<Event>, last: Session, ok: bool, sticky: bool, i: nat)
    requires Sound(events, last, ok, sticky) && i <= |events|
    ensures Sound(events[..i], last, ok, sticky)
    ensures i < |events| ==> Allowed(events[i], LastEmitted(events[..i], last), Heard(events[..i], ok, sticky), sticky)
  {
    assert events == events[..i] + events[i..];
    SoundSum(events[..i], events[i..], last, ok, sticky);
  }

  lemma {:induction false} HeardMeans(events: seq<Event>)
    ensures Heard(events, false, true) <==> Approved(events)
    ensures Heard(events, false, false) <==> ApprovedLast(events)
  {
    if events != [] {
      var init, e := events[..|events| - 1], events[|events| - 1];
      assert events == init + [e];
      HeardMeans(init);
      HeardSnoc(init, e, true);
      HeardSnoc(init, e, false);
      if e.Got? && e.reply.ReviewReply? {
        if e.reply.approved {
          assert events[|events| - 1] == Got(ReviewReply(true)) && NoReviewAfter(events, |events| - 1);
        }
      } else if Approved(init) {
        var j :| 0 <= j < |init| && init[j] == Got(ReviewReply(true));
        assert events[j] == Got(ReviewReply(true));
      }
      ApprovedLastSnoc(init, e);
    }
  }

  lemma {:induction false} ApprovedLastSnoc(init: seq<Event>, e: Event)
    ensures ApprovedLast(init + [e]) <==>
            if e.Got? && e.reply.ReviewReply? then e.reply.approved else ApprovedLast(init)
  {
    var events := init + [e];
    if e.Got? && e.reply.ReviewReply? {
      if e.reply.approved {
        assert events[|init|] == Got(ReviewReply(true)) && NoReviewAfter(events, |init|);
      }
    } else if ApprovedLast(init) {
      var j :| 0 <= j < |init| && init[j] == Got(ReviewReply(true)) && NoReviewAfter(init, j);
      assert events[j] == Got(ReviewReply(true)) && NoReviewAfter(events, j);
    }
    if ApprovedLast(events) {
      var j :| 0 <= j < |events| && events[j] == Got(ReviewReply(true)) && NoReviewAfter(events, j);
      if j < |init| {
        assert init[j] == Got(ReviewReply(true));
        forall k | j < k < |init|
          ensures !(init[k].Got? && init[k].reply.ReviewReply?)
        {
          assert events[k] == init[k];
        }
        assert NoReviewAfter(init, j);
      }
    }
  }

  lemma {:induction false} HeardSnoc(init: seq<Event>, e: Event, sticky: bool)
    ensures Heard(init + [e], false, sticky) == Hear(Heard(init, false, sticky), e, sticky)
  {
    SoundSum(init, [e], Fresh("", ""), false, sticky);
  }

  // ---- One run ----

  lemma {:induction false} PlannerSound(s: Session, script: seq<Reply>, last: Session, ok: bool, sticky: bool)
    requires R.EntersAt(s, PlannerPhase) && s.stages.verifier.status.Pending?
    ensures var p := RunPlanner(s, script);
            && Sound(p.events, last, ok, sticky) && Heard(p.events, ok, sticky) == ok
            && (p.end.Passed? ==>
                  p.end.session.stages.verifier.status.Pending?
                  && !p.end.session.stages.coder.status.Succeeded?)
  {
    hide Sound, Heard;
    var p := RunPlanner(s, script);
    Listed(p.events, last, ok, sticky);
  }

  /** A list without review answers and applies is sound when each emission is trusted. */
  lemma {:induction false} Listed(events: seq<Event>, last: Session, ok: bool, sticky: bool)
    requires forall i | 0 <= i < |events| ::
               && (events[i].Emit? ==>
                     Trusted(events[i].session, ok)
                     && !(CancelledAtReview(events[i].session) && !sticky && ok))
               && (events[i].Call? ==> events[i].ask.AskApply? ==> ok)
               && (events[i].Got? ==> !events[i].reply.ReviewReply?)
    ensures Sound(events, last, ok, sticky) && Heard(events, ok, sticky) == ok
  {
    if events != [] {
      Listed(events[1..], if events[0].Emit? then events[0].session else last, ok, sticky);
    }
  }

  lemma {:induction false} CoderSound(s: Session, script: seq<Reply>, last: Session, ok: bool, sticky: bool)
    requires s.stages.verifier.status.Pending?
    ensures var p := RunCoder(s, script);
            && Sound(p.events, last, ok, sticky) && Heard(p.events, ok, sticky) == ok
            && (p.end.Passed? ==>
                  p.end.session.stages.verifier.status.Pending?
                  && p.end.session.stages.coder.status.Succeeded?)
  {
    hide Sound, Heard;
    var p := RunCoder(s, script);
    Listed(p.events, last, ok, sticky);
  }

  lemma {:induction false} ReviewTrusted(s: Session)
    requires s.stages.verifier.status.Pending? && s.stages.coder.status.Succeeded?
    ensures var waiting := s.(status := AwaitingReview);
            && (forall ok :: Trusted(waiting, ok) && Trusted(Cancel(waiting), ok))
            && !CancelledAtReview(waiting) && CancelledAtReview(Cancel(waiting))
  {
  }

  /** The answer of a review and what is emitted after it. */
  lemma {:induction false} ReviewAnswered(s: Session, script: seq<Reply>, ok: bool, sticky: bool)
    requires s.stages.verifier.status.Pending? && s.stages.coder.status.Succeeded?
    requires script != [] && script[0].ReviewReply?
    ensures var p := RunReview(s, script);
            && Sound(p.events[2..], s.(status := AwaitingReview), ok, sticky)
            && (p.end.Passed? ==> Heard(p.events[2..], ok, sticky) && p.end.session.stages.coder.status.Succeeded?)
  {
    hide Resolve, Trusted, CancelledAtReview;
    ReviewTrusted(s);
    var waiting, events := s.(status := AwaitingReview), RunReview(s, script).events;
    assert events[2..] == [events[2]] + events[3..];
    SoundSum([events[2]], events[3..], waiting, ok, sticky);
    Listed(events[3..], waiting, Hear(ok, events[2], sticky), sticky);
  }

  lemma {:induction false} ReviewSound(s: Session, script: seq<Reply>, last: Session, ok: bool, sticky: bool)
    requires s.stages.verifier.status.Pending? && s.stages.coder.status.Succeeded?
    ensures var p := RunReview(s, script);
            && Sound(p.events, last, ok, sticky)
            && (p.end.Passed? ==> Heard(p.events, ok, sticky) && p.end.session.stages.coder.status.Succeeded?)
  {
    hide Resolve, Trusted, CancelledAtReview, Sound, Heard;
    ReviewTrusted(s);
    var p := RunReview(s, script);
    Listed(p.events[..2], last, ok, sticky);
    assert p.events == p.events[..2] + p.events[2..];
    SoundSum(p.events[..2], p.events[2..], last, ok, sticky);
    assert p.events[..2] == [p.events[0], p.events[1]];
    assert [p.events[0], p.events[1]][1..] == [p.events[1]];
    assert LastEmitted([p.events[1]], p.events[0].session) == p.events[0].session;
    assert LastEmitted(p.events[..2], last) == p.events[0].session;
    if |p.events| > 2 {
      ReviewAnswered(s, script, ok, sticky);
    } else {
      Listed(p.events[2..], p.events[0].session, ok, sticky);
    }
  }

  /** What the verify loop does: no review answers, and sessions past the coder. */
  ghost predicate Looping(events: seq<Event>) {
    forall i | 0 <= i < |events| ::
      && (events[i].Emit? ==> PastReview(events[i].session))
      && (events[i].Got? ==> !events[i].reply.ReviewReply?)
  }

  predicate PastReview(s: Session) {
    s.stages.coder.status.Succeeded? && !s.stages.verifier.status.Pending? &&
    !s.status.AwaitingReview? && !s.status.Coding?
  }

  predicate PastReviewEnd(end: End) {
    match end
    case Hung => true
    case Passed(s) => PastReview(s)
    case Stopped(s) => PastReview(s)
    case Again(s) => PastReview(s)
  }

  lemma {:induction false} ApplyLoops(s: Session, maxRepairs: int, script: seq<Reply>)
    requires s.stages.coder.status.Succeeded?
    ensures var p := RunApply(s, maxRepairs, script); Looping(p.events) && PastReviewEnd(p.end)
    ensures var p := RunApply(s, maxRepairs, script); p.end.Again? ==> script != [] && script[0].ApplyReply?
  {
  }

  lemma {:induction false} SettleLoops(counted: Session, r: Reply, before: seq<Event>, rest: seq<Reply>)
    requires r.RepairReply? && PastReview(counted) && Looping(before)
    ensures var p := SettleRepair(counted, r, before, rest); Looping(p.events) && PastReviewEnd(p.end)
  {
  }

  lemma {:induction false} RepairLoops(s: Session, apply: Reply, planSummary: string, script: seq<Reply>)
    requires apply.ApplyReply? && PastReview(s)
    ensures var p := RunRepair(s, apply, planSummary, script); Looping(p.events) && PastReviewEnd(p.end)
  {
    hide SettleRepair;
    if script != [] && script[0].RepairReply? {
      var started := Start(s, Repair, Ollama);
      var counted := Route(started, Repair, script[0].repairRouting).(repairAttempts := s.repairAttempts + 1);
      var opening := [Emit(started), Call(AskRepair(apply.applyVerification, apply.applied, s.prompt, planSummary))];
      var before := opening + [Got(script[0]), Emit(counted)];
      if script[0].awaitingApproval {
        if |script| >= 2 && script[1].RepairApprovalReply? && script[1].repairApproved {
          SettleLoops(counted, script[0], before + [Call(AskRepairApproval)] + [Got(script[1])], script[2..]);
        }
      } else {
        SettleLoops(counted, script[0], before, script[1..]);
      }
    }
  }

  lemma {:induction false} ConcludedLoops(p: Phase)
    requires Looping(p.events) && PastReviewEnd(p.end)
    ensures Looping(Concluded(p).events)
  {
  }

  lemma {:induction false} LoopLoops(s: Session, planSummary: string, maxRepairs: int, script: seq<Reply>)
    requires s.stages.coder.status.Succeeded?
    ensures Looping(RunLoop(s, planSummary, maxRepairs, script).events)
    decreases maxRepairs - s.repairAttempts
  {
    ApplyLoops(s, maxRepairs, script);
    R.LoopUnrolled(s, planSummary, maxRepairs, script);
    var apply := RunApply(s, maxRepairs, script);
    if apply.end.Again? {
      var repair := RunRepair(apply.end.session, script[0], planSummary, apply.rest);
      RepairLoops(apply.end.session, script[0], planSummary, apply.rest);
      R.ApplyCounts(s, maxRepairs, script);
      R.RepairCounts(apply.end.session, script[0], planSummary, apply.rest);
      if repair.end.Again? {
        LoopLoops(repair.end.session, planSummary, maxRepairs, repair.rest);
      } else {
        ConcludedLoops(repair);
      }
    } else {
      ConcludedLoops(apply);
    }
  }

  lemma {:induction false} LoopSound(s: Session, planSummary: string, maxRepairs: int, script: seq<Reply>,
                                     last: Session, sticky: bool)
    requires s.stages.coder.status.Succeeded?
    ensures Sound(RunLoop(s, planSummary, maxRepairs, script).events, last, true, sticky)
  {
    LoopLoops(s, planSummary, maxRepairs, script);
    Listed(RunLoop(s, planSummary, maxRepairs, script).events, last, true, sticky);
  }

  /** What a session must satisfy to enter a phase. */
  predicate Ready(s: Session, phase: ResumePhase, ok: bool) {
    match phase
    case PlannerPhase => R.EntersAt(s, PlannerPhase) && s.stages.verifier.status.Pending?
    case CoderPhase => s.stages.verifier.status.Pending?
    case ReviewPhase => s.stages.verifier.status.Pending? && s.stages.coder.status.Succeeded?
    case VerifyLoop => s.stages.coder.status.Succeeded? && ok
    case Finished => true
  }

  lemma {:induction false} RunSound(s: Session, phase: ResumePhase, maxRepairs: int, script: seq<Reply>, last: Session,
                                    ok: bool, sticky: bool)
    requires Ready(s, phase, ok)
    ensures Sound(RunFrom(s, phase, maxRepairs, script).events, last, ok, sticky)
    decreases Remaining(phase)
  {
    if phase.VerifyLoop? {
      LoopSound(s, PlanSummary(s), maxRepairs, script, last, sticky);
    } else if !phase.Finished? {
      R.RunUnrolled(s, phase, maxRepairs, script);
      var p := R.First(s, phase, script);
      var tail := R.Following(p, R.Next(phase), maxRepairs);
      match phase {
        case PlannerPhase => PlannerSound(s, script, last, ok, sticky);
        case CoderPhase => CoderSound(s, script, last, ok, sticky);
        case ReviewPhase => ReviewSound(s, script, last, ok, sticky);
      }
      var heard := Heard(p.events, ok, sticky);
      if p.end.Passed? {
        RunSound(p.end.session, R.Next(phase), maxRepairs, p.rest, LastEmitted(p.events, last), heard, sticky);
      }
      SoundSum(p.events, tail.events, last, ok, sticky);
    }
  }

  // ---- Chains of interruptions and resumes ----

  /** A fresh run, cut off after `cut` events. */
  datatype Launch = Launch(runId: string, prompt: string, maxRepairs: int, script: seq<Reply>, cut: nat)

  /** A resume from `checkpoint`, cut off after `cut` events. */
  datatype Leg = Leg(checkpoint: Session, maxRepairs: int, script: seq<Reply>, cut: nat)

  function Cut(events: seq<Event>, cut: nat): seq<Event> {
    if cut <= |events| then events[..cut] else events
  }

  function Played(leg: Leg): seq<Event> {
    Cut(Resume(leg.checkpoint, leg.maxRepairs, leg.script).events, leg.cut)
  }

  /** Everything that happened, over the launch and all the legs. */
  function History(launch: Launch, legs: seq<Leg>): seq<Event> {
    if legs == [] then Cut(Execute(launch.runId, launch.prompt, launch.maxRepairs, launch.script).events, launch.cut)
    else History(launch, legs[..|legs| - 1]) + Played(legs[|legs| - 1])
  }

  /** Every leg resumes a session that was emitted before. */
  ghost predicate FromEmitted(launch: Launch, legs: seq<Leg>) {
    forall i | 0 <= i < |legs| :: Emit(legs[i].checkpoint) in History(launch, legs[..i])
  }

  /** No leg resumes a session cancelled at review, unless a review had been approved by then. */
  ghost predicate AvoidsCancelled(launch: Launch, legs: seq<Leg>) {
    forall i | 0 <= i < |legs| :: CancelledAtReview(legs[i].checkpoint) ==> Approved(History(launch, legs[..i]))
  }

  /** Every leg resumes the session that was emitted last. */
  ghost predicate FromLast(launch: Launch, legs: seq<Leg>) {
    forall i | 0 <= i < |legs| ::
      && Emit(legs[i].checkpoint) in History(launch, legs[..i])
      && legs[i].checkpoint == LastEmitted(History(launch, legs[..i]), legs[i].checkpoint)
  }

  lemma {:induction false} TrustedIsReady(s: Session, ok: bool)
    requires Trusted(s, ok) && (CancelledAtReview(s) ==> ok)
    ensures Ready(s, Resolve(s), ok)
  {
  }

  lemma {:induction false} CutSound(events: seq<Event>, cut: nat, last: Session, ok: bool, sticky: bool)
    requires Sound(events, last, ok, sticky)
    ensures Sound(Cut(events, cut), last, ok, sticky)
  {
    if cut <= |events| {
      SoundAt(events, last, ok, sticky, cut);
    }
  }

  /** One leg, whole or cut off, behind a sound history. */
  lemma {:induction false} LegSound(h: seq<Event>, run: seq<Event>, cut: nat, last: Session, sticky: bool)
    requires Sound(h, last, false, sticky)
    requires Sound(run, LastEmitted(h, last), Heard(h, false, sticky), sticky)
    ensures Sound(h + Cut(run, cut), last, false, sticky)
  {
    CutSound(run, cut, LastEmitted(h, last), Heard(h, false, sticky), sticky);
    SoundSum(h, Cut(run, cut), last, false, sticky);
  }

  /** A trusted session that was not cancelled at an unapproved review resumes soundly. */
  lemma {:induction false} ResumeSound(s: Session, maxRepairs: int, script: seq<Reply>, last: Session, ok: bool,
                                       sticky: bool)
    requires Trusted(s, ok) && (CancelledAtReview(s) ==> ok)
    ensures Sound(Resume(s, maxRepairs, script).events, last, ok, sticky)
  {
    TrustedIsReady(s, ok);
    RunSound(s, Resolve(s), maxRepairs, script, last, ok, sticky);
  }

  lemma {:induction false} LaunchSound(launch: Launch, last: Session, sticky: bool)
    ensures Sound(History(launch, []), last, false, sticky)
  {
    hide RunFrom, Create, Sound;
    var s := Create(launch.runId, launch.prompt);
    CreatedIsReady(launch.runId, launch.prompt);
    StartSound(s, launch.maxRepairs, launch.script, last, sticky);
    CutSound(Execute(launch.runId, launch.prompt, launch.maxRepairs, launch.script).events, launch.cut, last, false,
             sticky);
  }

  lemma {:induction false} CreatedIsReady(runId: string, prompt: string)
    ensures var s := Create(runId, prompt);
            s.status.Queued? && Resolve(s).PlannerPhase?
            && Ready(s, PlannerPhase, false)
  {
    hide Trim, TrimStart, TrimEnd, IsTrimmed;
  }

  lemma {:induction false} StartSound(s: Session, maxRepairs: int, script: seq<Reply>, last: Session, sticky: bool)
    requires s.status.Queued? && Resolve(s).PlannerPhase? && Ready(s, PlannerPhase, false)
    ensures Sound([Emit(s)] + RunFrom(s, PlannerPhase, maxRepairs, script).events, last, false, sticky)
  {
    RunSound(s, PlannerPhase, maxRepairs, script, s, false, sticky);
    SoundSum([Emit(s)], RunFrom(s, PlannerPhase, maxRepairs, script).events, last, false, sticky);
  }

  /** An emitted session is trusted with everything heard so far, when approvals are remembered. */
  lemma {:induction false} EmittedTrusted(events: seq<Event>, last: Session, e: Session)
    requires Sound(events, last, false, true) && Emit(e) in events
    ensures Trusted(e, Heard(events, false, true))
  {
    var i :| 0 <= i < |events| && events[i] == Emit(e);
    SoundAt(events, last, false, true, i);
    assert events == events[..i] + events[i..];
    SoundSum(events[..i], events[i..], last, false, true);
    HeardStays(events[i..], Heard(events[..i], false, true));
  }

  lemma {:induction false} HeardStays(events: seq<Event>, ok: bool)
    ensures ok ==> Heard(events, ok, true)
  {
    if events != [] {
      HeardStays(events[1..], Hear(ok, events[0], true));
    }
  }

  lemma {:induction false} HistorySound(launch: Launch, legs: seq<Leg>, last: Session)
    requires FromEmitted(launch, legs) && AvoidsCancelled(launch, legs)
    ensures Sound(History(launch, legs), last, false, true)
  {
    if legs == [] {
      LaunchSound(launch, last, true);
    } else {
      hide Resume;
      var before, leg := legs[..|legs| - 1], legs[|legs| - 1];
      var h := History(launch, before);
      assert forall i | 0 <= i < |before| :: legs[..i] == before[..i];
      HistorySound(launch, before, last);
      EmittedTrusted(h, last, leg.checkpoint);
      HeardMeans(h);
      ResumeSound(leg.checkpoint, leg.maxRepairs, leg.script, LastEmitted(h, last), Heard(h, false, true), true);
      LegSound(h, Resume(leg.checkpoint, leg.maxRepairs, leg.script).events, leg.cut, last, true);
    }
  }

  lemma {:induction false} SoundIsGated(events: seq<Event>, last: Session)
    requires Sound(events, last, false, true)
    ensures Gated(events)
  {
    forall i | 0 <= i < |events| && events[i] == Call(AskApply)
      ensures Approved(events[..i])
    {
      SoundAt(events, last, false, true, i);
      HeardMeans(events[..i]);
    }
  }

  /**
   * MAIN RESULT. Over a fresh run and any chain of resumes, each from any session emitted before and
   * each cut off anywhere, every apply comes after an approved review, provided no leg
   * starts from a session cancelled at an unapproved review.
   */
  lemma {:induction false} AppliesAreReviewed(launch: Launch, legs: seq<Leg>)
    requires FromEmitted(launch, legs) && AvoidsCancelled(launch, legs)
    ensures Gated(History(launch, legs))
  {
    var last := Fresh("", "");
    HistorySound(launch, legs, last);
    SoundIsGated(History(launch, legs), last);
  }

  /**
   * The condition is exact: after any such chain, resuming an emitted session keeps the gate, for
   * whatever answers, if and only if the session was not cancelled at review or an approval exists.
   */
  lemma {:induction false} NextResumeIsReviewedExactly(launch: Launch, legs: seq<Leg>, s: Session, maxRepairs: int,
                                                       script: seq<Reply>)
    requires FromEmitted(launch, legs) && AvoidsCancelled(launch, legs)
    requires Emit(s) in History(launch, legs)
    ensures Gated(History(launch, legs) + Resume(s, maxRepairs, script).events) <==>
            (CancelledAtReview(s) ==> Approved(History(launch, legs)))
  {
    hide Resume, Gated;
    var h := History(launch, legs);
    var last := Fresh("", "");
    HistorySound(launch, legs, last);
    if CancelledAtReview(s) && !Approved(h) {
      CancelledAppliesUnreviewed(h, s, maxRepairs, script);
    } else {
      EmittedTrusted(h, last, s);
      HeardMeans(h);
      ResumeSound(s, maxRepairs, script, LastEmitted(h, last), Heard(h, false, true), true);
      SoundSum(h, Resume(s, maxRepairs, script).events, last, false, true);
      SoundIsGated(h + Resume(s, maxRepairs, script).events, last);
    }
  }

  lemma {:induction false} CancelledLoops(s: Session)
    requires CancelledAtReview(s)
    ensures Resolve(s).VerifyLoop?
  {
  }

  lemma {:induction false} CancelledAppliesUnreviewed(h: seq<Event>, s: Session, maxRepairs: int, script: seq<Reply>)
    requires CancelledAtReview(s)
    ensures !Approved(h) ==> !Gated(h + Resume(s, maxRepairs, script).events)
    ensures !ApprovedLast(h) ==> !StrictlyGated(h + Resume(s, maxRepairs, script).events)
  {
    hide Resume, Resolve;
    var run := Resume(s, maxRepairs, script).events;
    CancelledLoops(s);
    LoopAppliesFirst(s, maxRepairs, script);
    var i := |h| + 1;
    assert (h + run)[i] == Call(AskApply);
    assert (h + run)[..i] == h + [run[0]];
    HeardMeans(h);
    HeardMeans(h + [run[0]]);
    HeardSnoc(h, run[0], false);
    HeardSnoc(h, run[0], true);
  }

  lemma {:induction false} LoopAppliesFirst(s: Session, maxRepairs: int, script: seq<Reply>)
    requires Resolve(s).VerifyLoop?
    ensures var run := Resume(s, maxRepairs, script).events; |run| >= 2 && run[0].Emit? && run[1] == Call(AskApply)
  {
    hide RunRepair;
    R.LoopUnrolled(s, PlanSummary(s), maxRepairs, script);
  }

  /** Nothing is applied and nothing approved. */
  predicate Untouched(events: seq<Event>) {
    forall e | e in events :: e != Call(AskApply) && e != Got(ReviewReply(true))
  }

  lemma {:induction false} PlannerPasses(s: Session, script: seq<Reply>)
    requires script != [] && script[0].PlannerReply? && HasPlan(script[0].result)
    ensures var p := RunPlanner(s, script);
            && Untouched(p.events) && p.rest == script[1..]
            && p.end.Passed? && p.end.session.stages.verifier == s.stages.verifier
  {
  }

  lemma {:induction false} CoderPasses(s: Session, script: seq<Reply>)
    requires script != [] && script[0].CoderReply? && script[0].coderOk
    ensures var p := RunCoder(s, script);
            && Untouched(p.events) && p.rest == script[1..]
            && p.end.Passed? && p.end.session.stages.verifier == s.stages.verifier
            && p.end.session.stages.coder.status.Succeeded?
  {
  }

  lemma {:induction false} ReviewRefuses(s: Session, script: seq<Reply>)
    requires script != [] && script[0] == ReviewReply(false)
    requires s.stages.verifier.status.Pending? && s.stages.coder.status.Succeeded?
    ensures var p := RunReview(s, script);
            Untouched(p.events) && p.end.Stopped? && CancelledAtReview(p.end.session) && Emit(p.end.session) in p.events
  {
    var p := RunReview(s, script);
    assert p.events[3] == Emit(p.end.session);
  }

  lemma {:induction false} UntouchedMeans(events: seq<Event>)
    requires Untouched(events)
    ensures Gated(events) && !Approved(events)
  {
    assert forall i | 0 <= i < |events| :: events[i] in events;
  }

  /**
   * The excluded case happens: whatever the plan and the proposals, a refused review ends the run in a
   * session that, resumed with any answers, applies what the review refused.
   */
  lemma {:induction false} RefusedReviewThenApplies(runId: string, prompt: string, planner: Reply, coder: Reply,
                                                    maxRepairs: int, rest: seq<Reply>, more: seq<Reply>)
    requires planner.PlannerReply? && HasPlan(planner.result) && coder.CoderReply? && coder.coderOk
    ensures var run := Execute(runId, prompt, maxRepairs, [planner, coder, ReviewReply(false)] + rest);
            && run.result.Some? && Emit(run.result.value) in run.events && Gated(run.events)
            && !Gated(run.events + Resume(run.result.value, maxRepairs, more).events)
  {
    hide Resume, Gated, RunLoop, Approved, RunPlanner, RunCoder, RunReview, CancelledAtReview, Trim;
    var script := [planner, coder, ReviewReply(false)] + rest;
    var session := Create(runId, prompt);
    PlannerPasses(session, script);
    var p := RunPlanner(session, script);
    CoderPasses(p.end.session, p.rest);
    var c := RunCoder(p.end.session, p.rest);
    ReviewRefuses(c.end.session, c.rest);
    var r := RunReview(c.end.session, c.rest);
    var run := Execute(runId, prompt, maxRepairs, script);
    assert RunFrom(p.end.session, CoderPhase, maxRepairs, p.rest) ==
        Run(c.events + r.events, Some(r.end.session), r.rest);
    assert run.events == [Emit(session)] + (p.events + (c.events + r.events)) && run.result == Some(r.end.session);
    UntouchedMeans(run.events);
    CancelledAppliesUnreviewed(run.events, r.end.session, maxRepairs, more);
  }

  // ---- The stricter reading, when each leg resumes the session emitted last ----

  lemma {:induction false} LastTrusted(events: seq<Event>, last: Session, ok: bool)
    requires Sound(events, last, ok, false)
    requires Trusted(last, ok) && (CancelledAtReview(last) ==> !ok)
    ensures var e := LastEmitted(events, last); var heard := Heard(events, ok, false);
            Trusted(e, heard) && (CancelledAtReview(e) ==> !heard)
  {
    if events != [] {
      LastTrusted(events[1..], if events[0].Emit? then events[0].session else last, Hear(ok, events[0], false));
    }
  }

  lemma {:induction false} LastEmittedIgnoresStart(events: seq<Event>, a: Session, b: Session, e: Session)
    requires Emit(e) in events
    ensures LastEmitted(events, a) == LastEmitted(events, b)
  {
    if !events[0].Emit? {
      LastEmittedIgnoresStart(events[1..], a, b, e);
    }
  }

  /** No leg resumes a session cancelled at review. */
  ghost predicate NeverCancelled(legs: seq<Leg>) {
    forall i | 0 <= i < |legs| :: !CancelledAtReview(legs[i].checkpoint)
  }

  lemma {:induction false} StrictLegSound(h: seq<Event>, leg: Leg, last: Session)
    requires Sound(h, last, false, false) && Trusted(last, false) && !CancelledAtReview(last)
    requires Emit(leg.checkpoint) in h && leg.checkpoint == LastEmitted(h, leg.checkpoint)
    requires !CancelledAtReview(leg.checkpoint)
    ensures Sound(h + Played(leg), last, false, false)
  {
    LastTrusted(h, last, false);
    LastEmittedIgnoresStart(h, last, leg.checkpoint, leg.checkpoint);
    ResumeSound(leg.checkpoint, leg.maxRepairs, leg.script, LastEmitted(h, last), Heard(h, false, false), false);
    LegSound(h, Resume(leg.checkpoint, leg.maxRepairs, leg.script).events, leg.cut, last, false);
  }

  lemma {:induction false} FromLastPrefix(launch: Launch, legs: seq<Leg>)
    requires FromLast(launch, legs) && legs != []
    ensures FromLast(launch, legs[..|legs| - 1])
  {
    hide History, LastEmitted;
    var before := legs[..|legs| - 1];
    assert forall i | 0 <= i < |before| :: legs[..i] == before[..i];
  }

  lemma {:induction false} StrictHistorySound(launch: Launch, legs: seq<Leg>, last: Session)
    requires FromLast(launch, legs) && NeverCancelled(legs)
    requires Trusted(last, false) && !CancelledAtReview(last)
    ensures Sound(History(launch, legs), last, false, false)
  {
    if legs == [] {
      LaunchSound(launch, last, false);
    } else {
      FromLastPrefix(launch, legs);
      StrictHistorySound(launch, legs[..|legs| - 1], last);
      StrictLegSound(History(launch, legs[..|legs| - 1]), legs[|legs| - 1], last);
    }
  }

  lemma {:induction false} SoundIsStrictlyGated(events: seq<Event>, last: Session)
    requires Sound(events, last, false, false)
    ensures StrictlyGated(events)
  {
    forall i | 0 <= i < |events| && events[i] == Call(AskApply)
      ensures ApprovedLast(events[..i])
    {
      SoundAt(events, last, false, false, i);
      HeardMeans(events[..i]);
    }
  }

  /**
   * When each leg resumes the session emitted last, the gate is strict: at every apply the
   * latest review answer is an approval. Resuming once more keeps it strict, for whatever
   * answers, if and only if that last session was not cancelled at review.
   */
  lemma {:induction false} NextResumeIsStrictExactly(launch: Launch, legs: seq<Leg>, s: Session, maxRepairs: int,
                                                     script: seq<Reply>)
    requires FromLast(launch, legs) && NeverCancelled(legs)
    requires Emit(s) in History(launch, legs) && s == LastEmitted(History(launch, legs), s)
    ensures StrictlyGated(History(launch, legs))
    ensures StrictlyGated(History(launch, legs) + Resume(s, maxRepairs, script).events) <==> !CancelledAtReview(s)
  {
    hide History, Resume, StrictlyGated;
    var h := History(launch, legs);
    var run := Resume(s, maxRepairs, script).events;
    var last := Fresh("", "");
    StrictHistorySound(launch, legs, last);
    SoundIsStrictlyGated(h, last);
    LastTrusted(h, last, false);
    LastEmittedIgnoresStart(h, last, s, s);
    if CancelledAtReview(s) {
      HeardMeans(h);
      CancelledAppliesUnreviewed(h, s, maxRepairs, script);
    } else {
      ResumeSound(s, maxRepairs, script, LastEmitted(h, last), Heard(h, false, false), false);
      SoundSum(h, run, last, false, false);
      SoundIsStrictlyGated(h + run, last);
    }
  }
}
