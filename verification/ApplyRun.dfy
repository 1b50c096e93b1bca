/**
 * The active and completed run ids of the plan apply, under every interleaving of its runs
 * (src/app/orchestration/applyPlanRun.ts:25-41, src/core/planApply/applyPlanRun.ts:10-22,
 * src/app/orchestration/applyPlanApply.ts:105-111, 245, 457, 643-688).
 */
module ApplyRun {
  import opened Options

  type Id = string

  /** `shouldIgnoreStaleApplyPlanResult`. */
  predicate Stale(id: Id, active: Option<Id>, completed: Option<Id>) {
    (active.Some? && id != active.value) || (completed.Some? && id != completed.value)
  }

  // ---- Interleavings ----

  /**
   * The refs, the apply calls in flight with their ids, and what the proof counts: the id activated
   * last, the activations and the completions.
   */
  datatype State = State(
    active: Option<Id>,
    completed: Option<Id>,
    running: map<nat, Id>,
    latest: Option<Id>,
    activations: nat,
    completions: nat)

  const INITIAL := State(None, None, map[], None, 0, 0)

  /** What happens between two awaits. */
  datatype Event =
    | Propose(id: Id)                          // a proposal begins a run
    | StartApply(call: nat, id: Id, begins: bool) // an apply starts, under its session's id or a new one
    | StaleCheck(call: nat)                    // a stale check on the way: a stale call returns
    | GiveUp(call: nat)                        // the call returns for another reason
    | Finish(call: nat, ok: bool)              // the last stale check and the completion
    | Clear                                    // both refs are reset from outside

  predicate Enabled(s: State, e: Event) {
    match e
    case Propose(_) => true
    case StartApply(call, _, _) => call !in s.running
    case StaleCheck(call) => call in s.running
    case GiveUp(call) => call in s.running
    case Finish(call, _) => call in s.running
    case Clear => true
  }

  /** The call finishes and marks its id completed. */
  predicate Finalizes(s: State, e: Event) {
    e.Finish? && e.call in s.running && e.ok && !Stale(s.running[e.call], s.active, s.completed)
  }

  function Step(s: State, e: Event): State
    requires Enabled(s, e)
  {
    match e
    case Propose(id) => s.(active := Some(id), completed := None, latest := Some(id))
    case StartApply(call, id, begins) =>
      s.(active := Some(id), completed := if begins then None else s.completed, latest := Some(id),
         running := s.running[call := id], activations := s.activations + 1)
    case StaleCheck(call) =>
      if Stale(s.running[call], s.active, s.completed) then s.(running := s.running - {call}) else s
    case GiveUp(call) => s.(running := s.running - {call})
    case Finish(call, ok) =>
      var next := s.(running := s.running - {call});
      if Finalizes(s, e) then
        next.(completed := Some(s.running[call]), active := None, completions := s.completions + 1)
      else next
    case Clear => s.(active := None, completed := None)
  }

  /** Each event was enabled in its turn. */
  predicate Possible(events: seq<Event>)
    decreases |events|, 0
  {
    events == [] || (Possible(Init(events)) && Enabled(After(Init(events)), Last(events)))
  }

  /** The state after the events. */
  function After(events: seq<Event>): State
    requires Possible(events)
    decreases |events|, 1
  {
    if events == [] then INITIAL else Step(After(Init(events)), Last(events))
  }

  function Init(events: seq<Event>): seq<Event>
    requires events != []
  {
    events[..|events| - 1]
  }

  function Last(events: seq<Event>): Event
    requires events != []
  {
    events[|events| - 1]
  }

  predicate Invariant(s: State) {
    (s.active.Some? ==> s.latest == s.active) && s.completions + |s.running| <= s.activations
  }

  lemma {:induction false} InvariantHolds(events: seq<Event>)
    requires Possible(events)
    ensures Invariant(After(events))
  {
    if events != [] {
      InvariantHolds(Init(events));
      StepKeepsInvariant(After(Init(events)), Last(events));
    }
  }

  lemma {:induction false} StepKeepsInvariant(s: State, e: Event)
    requires Invariant(s) && Enabled(s, e)
    ensures Invariant(Step(s, e))
  {
    if e.StartApply? {
      SizeOf(s.running[e.call := e.id], s.running.Keys + {e.call});
      SizeOf(s.running, s.running.Keys);
    } else if e.StaleCheck? || e.GiveUp? || e.Finish? {
      SizeOf(s.running - {e.call}, s.running.Keys - {e.call});
      SizeOf(s.running, s.running.Keys);
    }
  }

  lemma {:induction false} SizeOf(m: map<nat, Id>, keys: set<nat>)
    requires m.Keys == keys
    ensures |m| == |keys|
  {
    assert |m.Keys| == |m|;
  }

  /**
   * MAIN RESULT. Under every interleaving, completions never outnumber the calls that activated an id and have
   * ended.
   */
  lemma {:induction false} CompletionsAreCovered(events: seq<Event>)
    requires Possible(events)
    ensures After(events).completions + |After(events).running| <= After(events).activations
  {
    InvariantHolds(events);
  }

  /**
   * MAIN RESULT. Under every interleaving, a superseded run that ended well marks its id completed if
   * and only if no id is active and no other id is recorded as completed when it ends.
   */
  lemma {:induction false} SupersededFinalizesExactly(events: seq<Event>, e: Event)
    requires Possible(events) && Enabled(After(events), e) && e.Finish? && e.ok
    requires After(events).latest != Some(After(events).running[e.call])
    ensures var s := After(events);
            Finalizes(s, e) <==> s.active.None? && s.completed in {None, Some(s.running[e.call])}
  {
    InvariantHolds(events);
  }

  /** Without resets one ref is always set while a call is in flight, and it names the latest id. */
  predicate Settled(s: State) {
    && (s.latest.Some? ==> s.active.Some? || s.completed.Some?)
    && (s.active.None? && s.completed.Some? ==> s.latest == s.completed)
    && (s.running != map[] ==> s.latest.Some?)
  }

  lemma {:induction false} SettledHolds(events: seq<Event>)
    requires Possible(events) && Clear !in events
    ensures Settled(After(events))
  {
    if events != [] {
      assert events == Init(events) + [Last(events)];
      SettledHolds(Init(events));
      InvariantHolds(Init(events));
      var s, e := After(Init(events)), Last(events);
      if e.StaleCheck? || e.GiveUp? || e.Finish? {
        assert s.running != map[];
      }
    }
  }

  /** MAIN RESULT. Without resets a run finalizes only while its id is the one activated last. */
  lemma {:induction false} SupersededNeverFinalizes(events: seq<Event>, e: Event)
    requires Possible(events) && Clear !in events && Enabled(After(events), e) && Finalizes(After(events), e)
    ensures After(events).latest == Some(After(events).running[e.call])
  {
    InvariantHolds(events);
    SettledHolds(events);
    assert e.call in After(events).running;
  }

  /**
   * The newest run itself counts as stale exactly when another completion is still recorded: an
   * apply that runs under its session's own id does not clear it.
   */
  lemma {:induction false} NewestIsStaleExactly(events: seq<Event>, call: nat)
    requires Possible(events) && call in After(events).running
    requires After(events).latest == Some(After(events).running[call])
    ensures var s := After(events);
            Stale(s.running[call], s.active, s.completed) <==> s.completed !in {None, Some(s.running[call])}
  {
    InvariantHolds(events);
  }

  lemma {:induction false} OneMore(events: seq<Event>, e: Event, s: State)
    requires Possible(events) && After(events) == s && Enabled(s, e)
    ensures Possible(events + [e]) && After(events + [e]) == Step(s, e)
  {
    assert Init(events + [e]) == events && Last(events + [e]) == e;
  }

  /** Right after a reset every run in flight is fresh, superseded or not. */
  lemma {:induction false} AResetMakesEveryRunFresh(events: seq<Event>, call: nat)
    requires Possible(events) && call in After(events).running
    ensures Possible(events + [Clear]) && call in After(events + [Clear]).running
    ensures Finalizes(After(events + [Clear]), Finish(call, true))
  {
    OneMore(events, Clear, After(events));
  }

  /** After a reset a superseded run does finalize. */
  lemma {:induction false} ResetLetsASupersededRunFinalize()
    ensures var events := [StartApply(0, "a", true), StartApply(1, "b", true), Clear];
            && Possible(events) && After(events).latest == Some("b")
            && 0 in After(events).running && After(events).running[0] == "a"
            && Finalizes(After(events), Finish(0, true))
  {
    var e0, e1, e2 := StartApply(0, "a", true), StartApply(1, "b", true), Clear;
    var s1 := Step(INITIAL, e0);
    var s2 := Step(s1, e1);
    OneMore([], e0, INITIAL);
    OneMore([e0], e1, s1);
    OneMore([e0, e1], e2, s2);
    assert [] + [e0] == [e0] && [e0] + [e1] == [e0, e1] && [e0, e1] + [e2] == [e0, e1, e2];
  }

  /** An older completion does stop the newest run. */
  lemma {:induction false} AnOlderCompletionBlocksTheNewestRun()
    ensures var events := [StartApply(0, "b", true), Finish(0, true), StartApply(1, "a", false)];
            && Possible(events) && After(events).latest == Some("a")
            && 1 in After(events).running && After(events).running[1] == "a"
            && !Finalizes(After(events), Finish(1, true))
  {
    var e0, e1, e2 := StartApply(0, "b", true), Finish(0, true), StartApply(1, "a", false);
    var s1 := Step(INITIAL, e0);
    var s2 := Step(s1, e1);
    OneMore([], e0, INITIAL);
    OneMore([e0], e1, s1);
    OneMore([e0, e1], e2, s2);
    assert [] + [e0] == [e0] && [e0] + [e1] == [e0, e1] && [e0, e1] + [e2] == [e0, e1, e2];
  }

  /**
   * MAIN RESULT. A run begun under a new id stays fresh and completes when it ends well, for as long as no
   * other run is activated, none completes, and the refs are not reset.
   */
  lemma {:induction false} ANewRunCompletes(events: seq<Event>, call: nat, id: Id, more: seq<Event>)
    requires Possible(events + [StartApply(call, id, true)]) && Possible(events + [StartApply(call, id, true)] + more)
    requires forall e | e in more :: !e.Propose? && !e.StartApply? && !e.Clear?
    requires var s := After(events + [StartApply(call, id, true)] + more);
             && s.completions == After(events + [StartApply(call, id, true)]).completions
             && call in s.running
    ensures var s := After(events + [StartApply(call, id, true)] + more);
            && s.active == Some(id) && s.completed == None && s.running[call] == id
            && !Stale(id, s.active, s.completed) && Finalizes(s, Finish(call, true))
    decreases |more|
  {
    var begun := events + [StartApply(call, id, true)];
    if more == [] {
      assert begun + more == begun;
      assert Init(begun) == events && Last(begun) == StartApply(call, id, true);
    } else {
      var all := begun + more;
      assert Init(all) == begun + Init(more) && Last(all) == Last(more) && Last(more) in more;
      assert forall e | e in Init(more) :: e in more;
      CompletionsGrow(begun, Init(more));
      QuietStep(After(Init(all)), Last(more), call);
      ANewRunCompletes(events, call, id, Init(more));
    }
  }

  lemma {:induction false} CompletionsGrow(events: seq<Event>, more: seq<Event>)
    requires Possible(events) && Possible(events + more)
    ensures After(events).completions <= After(events + more).completions
    decreases |more|
  {
    if more == [] {
      assert events + more == events;
    } else {
      assert Init(events + more) == events + Init(more);
      CompletionsGrow(events, Init(more));
    }
  }

  /** A step that activates, completes and resets nothing keeps the refs, and the runs it leaves. */
  lemma {:induction false} QuietStep(s: State, e: Event, call: nat)
    requires Enabled(s, e) && !e.Propose? && !e.StartApply? && !e.Clear?
    ensures var next := Step(s, e);
            && s.completions <= next.completions
            && (next.completions == s.completions ==> next.active == s.active && next.completed == s.completed)
            && (call in next.running ==> call in s.running && next.running[call] == s.running[call])
  {
  }

  // ---- The code between two awaits ----

  /** The two refs, the apply calls in flight, and the counts. */
  class Applies {
    var active: Option<Id>
    var completed: Option<Id>
    var running: map<nat, Id>
    ghost var latest: Option<Id>
    ghost var activations: nat
    ghost var completions: nat

    ghost function View(): State
      reads this
    {
      State(active, completed, running, latest, activations, completions)
    }

    constructor ()
      ensures View() == INITIAL
    {
      active, completed, running := None, None, map[];
      latest, activations, completions := None, 0, 0;
    }

    /** `beginApplyPlanRun`, with the id it creates. */
    method BeginApplyPlanRun(newId: Id) returns (id: Id)
      modifies this
      ensures id == newId && active == Some(newId) && completed == None && running == old(running)
      ensures View() == Step(old(View()), Propose(newId))
    {
      active := Some(newId);
      completed := None;
      latest := Some(newId);
      id := newId;
    }

    method CompleteApplyPlanRun(id: Id)
      modifies this`completed, this`active
      ensures completed == Some(id) && active == None
    {
      completed := Some(id);
      active := None;
    }

    /** The start of an apply: under its session's id when it has one, else under a new one. */
    method StartApplyCall(call: nat, sessionId: Option<Id>, newId: Id) returns (id: Id)
      requires call !in running
      modifies this
      ensures id == sessionId.GetOr(newId) && active == Some(id) && running == old(running)[call := id]
      ensures completed == if sessionId.None? then None else old(completed)
      ensures View() == Step(old(View()), StartApply(call, id, sessionId.None?))
    {
      if sessionId.Some? {
        id := sessionId.value;
      } else {
        id := BeginApplyPlanRun(newId);
      }
      active := Some(id);
      running := running[call := id];
      latest, activations := Some(id), activations + 1;
    }

    /** `staleResult`: a stale call returns. */
    method StaleResult(call: nat) returns (returned: bool)
      requires call in running
      modifies this`running
      ensures var known := {None, Some(old(running)[call])};
              returned <==> active !in known || completed !in known
      ensures running == if returned then old(running) - {call} else old(running)
      ensures View() == Step(old(View()), StaleCheck(call))
    {
      returned := Stale(running[call], active, completed);
      if returned {
        running := running - {call};
      }
    }

    /** The last stale check and the completion, which no other run can come between. */
    method FinishRun(call: nat, ok: bool) returns (finalized: bool)
      requires call in running
      modifies this
      ensures var id := old(running)[call];
              && (finalized <==> ok && old(active) in {None, Some(id)} && old(completed) in {None, Some(id)})
              && (finalized ==> completed == Some(id) && active == None)
              && (!finalized ==> completed == old(completed) && active == old(active))
              && running == old(running) - {call}
      ensures View() == Step(old(View()), Finish(call, ok))
    {
      var id := running[call];
      finalized := false;
      var returned := StaleResult(call);
      if returned {
        return;
      }
      running := running - {call};
      if ok {
        CompleteApplyPlanRun(id);
        completions := completions + 1;
        finalized := true;
      }
    }
  }
}
