/**
 * The debounce timer of the inline completions and the registered provider, over every timed run
 * (src/monaco/inlineTabCompletion.ts:13, 28-60, 65-72, 151-162).
 */
module Debounce {
  import opened Options

  const AI_DEBOUNCE_MS: nat := 450

  /** A timer the host holds: when it may fire, and the number and request its callback closes over. */
  datatype Timer = Timer(due: nat, seqNo: nat, request: nat)

  /** The promise of a request. */
  datatype Promise = Waiting(handle: nat) | Fetching | Resolved

  /**
   * The module's variables (`debounceTimer`, `debounceSeq`, `activeDisposer`), and of the host: the
   * clock, the live timers, the registered providers, the promises, the cancelled tokens and the times
   * at which provider fetches started.
   */
  datatype State = State(
    debounceTimer: Option<nat>,
    debounceSeq: nat,
    active: Option<nat>,
    now: nat,
    live: map<nat, Timer>,
    handles: nat,
    registered: set<nat>,
    providers: nat,
    promises: map<nat, Promise>,
    cancelled: set<nat>,
    fetches: seq<nat>)

  const INITIAL := State(None, 0, None, 0, map[], 0, {}, 0, map[], {}, [])

  datatype Event =
    | Pass(ms: nat)
    | Request(id: nat)       // a completion request reaches the debounce
    | Cancel(id: nat)        // its token is cancelled
    | Fire(handle: nat)      // the host runs a due timer
    | Fetched(id: nat)       // a provider fetch ends, in whatever way
    | Register               // registerInlineTabCompletions
    | Dispose(provider: nat) // the disposer a registration returned
    | DisposeAll             // disposeInlineTabCompletions

  // ---- The steps, as functions of the state ----

  function Cleared(s: State): State {
    match s.debounceTimer
    case Some(h) => s.(live := s.live - {h}, debounceTimer := None)
    case None => s
  }

  function Requested(s: State, id: nat): State {
    if id in s.cancelled then s.(promises := s.promises[id := Resolved])
    else
      var c := Cleared(s);
      c.(debounceSeq := s.debounceSeq + 1, debounceTimer := Some(s.handles), handles := s.handles + 1,
         live := c.live[s.handles := Timer(s.now + AI_DEBOUNCE_MS, s.debounceSeq + 1, id)],
         promises := s.promises[id := Waiting(s.handles)])
  }

  function Fired(s: State, handle: nat): State
    requires handle in s.live
  {
    var t := s.live[handle];
    var f := s.(live := s.live - {handle}, debounceTimer := None);
    if t.request in s.cancelled || t.seqNo != s.debounceSeq then f.(promises := s.promises[t.request := Resolved])
    else f.(promises := s.promises[t.request := Fetching], fetches := s.fetches + [s.now])
  }

  function WithoutActive(s: State): State {
    match s.active
    case Some(p) => s.(registered := s.registered - {p})
    case None => s
  }

  function Registered(s: State): State {
    var c := Cleared(WithoutActive(s));
    c.(registered := c.registered + {s.providers}, active := Some(s.providers), providers := s.providers + 1)
  }

  function Disposed(s: State, provider: nat): State {
    var c := Cleared(s);
    c.(registered := c.registered - {provider}, active := if s.active == Some(provider) then None else s.active)
  }

  predicate Enabled(s: State, e: Event) {
    match e
    case Pass(_) => true
    case Request(id) => id !in s.promises
    case Cancel(_) => true
    case Fire(h) => h in s.live && s.live[h].due <= s.now
    case Fetched(id) => id in s.promises && s.promises[id].Fetching?
    case Register => true
    case Dispose(p) => p < s.providers
    case DisposeAll => true
  }

  function Step(s: State, e: Event): State
    requires Enabled(s, e)
  {
    match e
    case Pass(ms) => s.(now := s.now + ms)
    case Request(id) => Requested(s, id)
    case Cancel(id) => s.(cancelled := s.cancelled + {id})
    case Fire(h) => Fired(s, h)
    case Fetched(id) => s.(promises := s.promises[id := Resolved])
    case Register => Registered(s)
    case Dispose(p) => Disposed(s, p)
    case DisposeAll => WithoutActive(Cleared(s)).(active := None)
  }

  // ---- Runs ----

  predicate Possible(events: seq<Event>)
    decreases |events|, 0
  {
    events == [] || (Possible(events[..|events| - 1]) && Enabled(After(events[..|events| - 1]), events[|events| - 1]))
  }

  function After(events: seq<Event>): State
    requires Possible(events)
    decreases |events|, 1
  {
    if events == [] then INITIAL else Step(After(events[..|events| - 1]), events[|events| - 1])
  }

  // ---- What every step keeps ----

  /** The live timers are the one `debounceTimer` names, which carries the latest number and its own request. */
  predicate OneTimer(s: State) {
    && (forall h | h in s.live :: s.debounceTimer == Some(h) && h < s.handles)
    && (s.debounceTimer.Some? ==> s.debounceTimer.value in s.live)
    && forall h | h in s.live :: s.live[h].seqNo == s.debounceSeq && s.promises.Keys >= {s.live[h].request}
                                 && s.promises[s.live[h].request] == Waiting(h)
  }

  /** Fetches are spaced, past, and a live timer is due no sooner than the spacing allows. */
  predicate Spaced(s: State) {
    && (forall i, j | 0 <= i < j < |s.fetches| :: s.fetches[i] + AI_DEBOUNCE_MS <= s.fetches[j])
    && (forall i | 0 <= i < |s.fetches| :: s.fetches[i] <= s.now)
    && forall h, i | h in s.live && 0 <= i < |s.fetches| :: s.fetches[i] + AI_DEBOUNCE_MS <= s.live[h].due
  }

  predicate OneProvider(s: State) {
    && (forall p | p in s.registered :: s.active == Some(p))
    && (s.active.Some? ==> s.active.value in s.registered && s.active.value < s.providers)
  }

  lemma {:induction false} StepKeepsOneTimer(s: State, e: Event)
    requires OneTimer(s) && Enabled(s, e)
    ensures OneTimer(Step(s, e))
  {
  }

  lemma {:induction false} RequestKeepsSpaced(s: State, id: nat)
    requires Spaced(s) && Enabled(s, Request(id))
    ensures Spaced(Step(s, Request(id)))
  {
  }

  lemma {:induction false} FireKeepsSpaced(s: State, h: nat)
    requires OneTimer(s) && Spaced(s) && Enabled(s, Fire(h))
    ensures Spaced(Step(s, Fire(h)))
  {
    var next := Step(s, Fire(h));
    assert forall k | k in next.live :: k in s.live && k == h;
    assert next.live == map[];
    forall i | 0 <= i < |s.fetches|
      ensures s.fetches[i] + AI_DEBOUNCE_MS <= s.now
    {
      assert s.fetches[i] + AI_DEBOUNCE_MS <= s.live[h].due;
    }
  }

  lemma {:induction false} StepKeepsSpaced(s: State, e: Event)
    requires OneTimer(s) && Spaced(s) && Enabled(s, e)
    ensures Spaced(Step(s, e))
  {
    hide OneTimer;
    if e.Request? {
      RequestKeepsSpaced(s, e.id);
    } else if e.Fire? {
      FireKeepsSpaced(s, e.handle);
    }
  }

  lemma {:induction false} StepKeepsOneProvider(s: State, e: Event)
    requires OneProvider(s) && Enabled(s, e)
    ensures OneProvider(Step(s, e))
  {
  }

  lemma {:induction false} Invariants(events: seq<Event>)
    requires Possible(events)
    ensures OneTimer(After(events)) && Spaced(After(events)) && OneProvider(After(events))
  {
    hide OneTimer, Spaced, OneProvider, Step;
    if events != [] {
      var s, e := After(events[..|events| - 1]), events[|events| - 1];
      Invariants(events[..|events| - 1]);
      StepKeepsOneTimer(s, e);
      StepKeepsSpaced(s, e);
      StepKeepsOneProvider(s, e);
    } else {
      InitialHolds();
    }
  }

  lemma {:induction false} InitialHolds()
    ensures OneTimer(INITIAL) && Spaced(INITIAL) && OneProvider(INITIAL)
  {
  }

  /** MAIN RESULT. In every run at most one timer is live, and it is the one the module knows. */
  lemma {:induction false} AtMostOneTimer(events: seq<Event>)
    requires Possible(events)
    ensures After(events).live.Keys == if After(events).debounceTimer.Some? then {After(events).debounceTimer.value}
            else {}
  {
    Invariants(events);
  }

  /** MAIN RESULT. A timer that fires carries the latest number: the second half of its callback's test never holds. */
  lemma {:induction false} FiringTimerIsTheLatest(events: seq<Event>, h: nat)
    requires Possible(events) && Enabled(After(events), Fire(h))
    ensures After(events).live[h].seqNo == After(events).debounceSeq
  {
    Invariants(events);
  }

  /** MAIN RESULT. Two provider fetches never start less than 450 ms apart. */
  lemma {:induction false} FetchesAreSpaced(events: seq<Event>, i: nat, j: nat)
    requires Possible(events) && i < j < |After(events).fetches|
    ensures After(events).fetches[i] + 450 <= After(events).fetches[j]
  {
    Invariants(events);
  }

  /** MAIN RESULT. At most one provider is registered, and it is the one the module would dispose. */
  lemma {:induction false} AtMostOneProvider(events: seq<Event>)
    requires Possible(events)
    ensures After(events).registered == if After(events).active.Some? then {After(events).active.value} else {}
  {
    Invariants(events);
  }

  // ---- Promises ----

  /** A waiting request whose timer is gone. */
  predicate Abandoned(s: State, id: nat) {
    id in s.promises && s.promises[id].Waiting? && s.promises[id].handle !in s.live && s.promises[id].handle < s.handles
  }

  lemma {:induction false} StepKeepsAbandoned(s: State, e: Event, id: nat)
    requires OneTimer(s) && Enabled(s, e) && Abandoned(s, id)
    ensures Abandoned(Step(s, e), id)
  {
  }

  lemma {:induction false} AbandonedForever(events: seq<Event>, more: seq<Event>, id: nat)
    requires Possible(events + more) && Possible(events) && Abandoned(After(events), id)
    ensures Abandoned(After(events + more), id)
  {
    hide Abandoned, Step;
    if more == [] {
      assert events + more == events;
    } else {
      var all := events + more;
      assert all[..|all| - 1] == events + more[..|more| - 1];
      AbandonedForever(events, more[..|more| - 1], id);
      Invariants(all[..|all| - 1]);
      StepKeepsAbandoned(After(all[..|all| - 1]), all[|all| - 1], id);
    }
  }

  /** Handles are never used again. */
  predicate HandlesAreOld(s: State) {
    forall id | id in s.promises && s.promises[id].Waiting? :: s.promises[id].handle < s.handles
  }

  lemma {:induction false} HandlesHold(events: seq<Event>)
    requires Possible(events)
    ensures HandlesAreOld(After(events))
  {
    if events != [] {
      HandlesHold(events[..|events| - 1]);
    }
  }

  /**
   * MAIN RESULT. The exact condition for a waiting request to be answered: some continuation of the run
   * settles its promise or starts its fetch if and only if its timer is still live. A request that was
   * superseded, or whose timer a registration or disposal cleared, waits forever.
   */
  lemma {:induction false} AnsweredExactly(events: seq<Event>, id: nat)
    requires Possible(events) && id in After(events).promises && After(events).promises[id].Waiting?
    ensures (exists more: seq<Event> :: Possible(events + more) && id in After(events + more).promises
                                        && !After(events + more).promises[id].Waiting?) <==>
            After(events).promises[id].handle in After(events).live
  {
    var s := After(events);
    var h := s.promises[id].handle;
    HandlesHold(events);
    Invariants(events);
    if h in s.live {
      var more := [Pass(AI_DEBOUNCE_MS + s.live[h].due), Fire(h)];
      OneMore(events, more[0], s);
      OneMore(events + [more[0]], more[1], Step(s, more[0]));
      assert events + [more[0]] + [more[1]] == events + more;
      assert s.live[h].request == id by {
        LiveIsOwn(events, id);
      }
      assert !After(events + more).promises[id].Waiting?;
    } else {
      forall more: seq<Event> | Possible(events + more)
        ensures id in After(events + more).promises && After(events + more).promises[id].Waiting?
      {
        AbandonedForever(events, more, id);
      }
    }
  }

  lemma {:induction false} OneMore(events: seq<Event>, e: Event, s: State)
    requires Possible(events) && After(events) == s && Enabled(s, e)
    ensures Possible(events + [e]) && After(events + [e]) == Step(s, e)
  {
    assert (events + [e])[..|events|] == events;
  }

  /** A second request leaves the first one waiting, whatever happens afterwards. */
  lemma {:induction false} ASupersededRequestWaits(more: seq<Event>)
    requires Possible([Request(0), Request(1)] + more)
    ensures 0 in After([Request(0), Request(1)] + more).promises
    ensures After([Request(0), Request(1)] + more).promises[0].Waiting?
  {
    var first, both := Requested(INITIAL, 0), [Request(0), Request(1)];
    OneMore([], Request(0), INITIAL);
    OneMore([Request(0)], Request(1), first);
    assert [] + [Request(0)] == [Request(0)] && [Request(0)] + [Request(1)] == both;
    assert first.promises[0] == Waiting(0) && first.live.Keys == {0};
    assert Abandoned(After(both), 0);
    AbandonedForever(both, more, 0);
  }

  /** Two waiting requests never share a timer. */
  predicate OwnHandles(s: State) {
    forall a, b | a in s.promises && b in s.promises && s.promises[a].Waiting? && s.promises[a] == s.promises[b] ::
        a == b
  }

  lemma {:induction false} OwnHandlesHold(events: seq<Event>)
    requires Possible(events)
    ensures OwnHandles(After(events))
  {
    if events != [] {
      OwnHandlesHold(events[..|events| - 1]);
      HandlesHold(events[..|events| - 1]);
    }
  }

  lemma {:induction false} LiveIsOwn(events: seq<Event>, id: nat)
    requires Possible(events) && id in After(events).promises && After(events).promises[id].Waiting?
    requires After(events).promises[id].handle in After(events).live
    ensures After(events).live[After(events).promises[id].handle].request == id
  {
    Invariants(events);
    OwnHandlesHold(events);
  }

  // ---- What each step does to the timers, the promises and the providers ----

  /**
   * A request whose token is cancelled is answered at once and disturbs nothing. Any other waits for a timer
   * of its own, due in 450 ms, the only one that is then live.
   */
  lemma {:induction false} RequestDecides(events: seq<Event>, id: nat)
    requires Possible(events) && Enabled(After(events), Request(id))
    ensures Possible(events + [Request(id)])
    ensures var s, next := After(events), After(events + [Request(id)]);
            if id in s.cancelled then next == s.(promises := s.promises[id := Resolved])
            else
              && next.promises == s.promises[id := Waiting(s.handles)] && next.fetches == s.fetches
              && next.live.Keys == {s.handles}
              && next.live[s.handles].due == s.now + 450 && next.live[s.handles].request == id
  {
    var s := After(events);
    Invariants(events);
    OneMore(events, Request(id), s);
    assert Cleared(s).live == map[];
  }

  /** A timer that fires starts the fetch of its request, unless the request was cancelled meanwhile. */
  lemma {:induction false} FiringDecides(events: seq<Event>, h: nat)
    requires Possible(events) && Enabled(After(events), Fire(h))
    ensures Possible(events + [Fire(h)])
    ensures var s, next := After(events), After(events + [Fire(h)]);
            var id := s.live[h].request;
            && next.live == map[] && id in s.promises && s.promises[id] == Waiting(h)
            && (if id in s.cancelled then next.promises == s.promises[id := Resolved] && next.fetches == s.fetches
                else next.promises == s.promises[id := Fetching] && next.fetches == s.fetches + [s.now])
  {
    var s := After(events);
    Invariants(events);
    OneMore(events, Fire(h), s);
    assert (s.live - {h}).Keys == {};
  }

  /** A registration, and each way of disposing one, leaves no timer; each says which providers stay. */
  lemma {:induction false} LeavingClears(events: seq<Event>, e: Event)
    requires Possible(events) && Enabled(After(events), e) && (e.Register? || e.Dispose? || e.DisposeAll?)
    ensures Possible(events + [e])
    ensures var s, next := After(events), After(events + [e]);
            && next.live == map[] && next.promises == s.promises && next.fetches == s.fetches
            && next.registered ==
               match e
               case Register => {s.providers}
               case Dispose(p) => s.registered - {p}
               case _ => {}
  {
    var s := After(events);
    Invariants(events);
    OneMore(events, e, s);
    assert Cleared(s).live == map[] && Cleared(WithoutActive(s)).live == map[];
    assert WithoutActive(s).registered == {};
  }

  /** The request is cancelled and its fetch has not started. */
  predicate Spared(s: State, id: nat) {
    id in s.cancelled && (id in s.promises ==> !s.promises[id].Fetching?)
  }

  lemma {:induction false} StepKeepsSpared(s: State, e: Event, id: nat)
    requires Enabled(s, e) && Spared(s, id)
    ensures Spared(Step(s, e), id)
  {
  }

  /** MAIN RESULT. A request that is cancelled before its fetch starts never starts one. */
  lemma {:induction false} CancelledNeverFetches(events: seq<Event>, more: seq<Event>, id: nat)
    requires Possible(events) && Possible(events + more) && Spared(After(events), id)
    ensures Spared(After(events + more), id)
    decreases |more|
  {
    hide Spared, Step, Enabled;
    if more == [] {
      assert events + more == events;
    } else {
      var all := events + more;
      assert all[..|all| - 1] == events + more[..|more| - 1];
      CancelledNeverFetches(events, more[..|more| - 1], id);
      StepKeepsSpared(After(all[..|all| - 1]), all[|all| - 1], id);
    }
  }

  // ---- The module ----

  /** The module's three variables, beside the host's. */
  class Completions {
    var debounceTimer: Option<nat>
    var debounceSeq: nat
    var activeDisposer: Option<nat>
    var now: nat
    var live: map<nat, Timer>
    var handles: nat
    var registered: set<nat>
    var providers: nat
    var promises: map<nat, Promise>
    var cancelled: set<nat>
    var fetches: seq<nat>

    ghost function View(): State
      reads this
    {
      State(debounceTimer, debounceSeq, activeDisposer, now, live, handles, registered, providers, promises, cancelled,
            fetches)
    }

    constructor ()
      ensures View() == INITIAL
    {
      debounceTimer, debounceSeq, activeDisposer, now := None, 0, None, 0;
      live, handles, registered, providers, promises, cancelled, fetches := map[], 0, {}, 0, map[], {}, [];
    }

    method SetTimeout(request: nat, seqNo: nat) returns (handle: nat)
      modifies this`live, this`handles
      ensures handle == old(handles) && handles == handle + 1
      ensures live == old(live)[handle := Timer(now + AI_DEBOUNCE_MS, seqNo, request)]
    {
      handle := handles;
      live, handles := live[handle := Timer(now + AI_DEBOUNCE_MS, seqNo, request)], handles + 1;
    }

    method ClearDebounce()
      modifies this`live, this`debounceTimer
      ensures View() == Cleared(old(View()))
    {
      if debounceTimer.Some? {
        live := live - {debounceTimer.value};
        debounceTimer := None;
      }
    }

    method DebouncedAiSuffix(id: nat)
      requires Enabled(View(), Request(id))
      modifies this
      ensures id in cancelled ==>
                live == old(live) && debounceTimer == old(debounceTimer) && id in promises && promises[id] == Resolved
      ensures View() == Step(old(View()), Request(id))
    {
      hide Registered, Fired, WithoutActive;
      if id in cancelled {
        promises := promises[id := Resolved];
        return;
      }
      ClearDebounce();
      debounceSeq := debounceSeq + 1;
      var seqNo := debounceSeq;
      var handle := SetTimeout(id, seqNo);
      debounceTimer := Some(handle);
      promises := promises[id := Waiting(handle)];
    }

    /** The host runs the callback of a due timer. */
    method RunTimer(handle: nat)
      requires Enabled(View(), Fire(handle))
      modifies this
      ensures old(live)[handle].request in cancelled ==> fetches == old(fetches)
      ensures View() == Step(old(View()), Fire(handle))
    {
      var t := live[handle];
      live := live - {handle};
      debounceTimer := None;
      if t.request in cancelled || t.seqNo != debounceSeq {
        promises := promises[t.request := Resolved];
        return;
      }
      fetches := fetches + [now];
      promises := promises[t.request := Fetching];
    }

    method RegisterInlineTabCompletions() returns (provider: nat)
      modifies this
      ensures provider == old(providers) && View() == Step(old(View()), Register)
    {
      if activeDisposer.Some? {
        registered := registered - {activeDisposer.value};
      }
      ClearDebounce();
      provider := providers;
      registered, providers := registered + {provider}, providers + 1;
      activeDisposer := Some(provider);
    }

    /** The disposer that the registration of `provider` returned. */
    method DisposeRegistration(provider: nat)
      requires Enabled(View(), Dispose(provider))
      modifies this
      ensures View() == Step(old(View()), Dispose(provider))
    {
      ClearDebounce();
      registered := registered - {provider};
      if activeDisposer == Some(provider) {
        activeDisposer := None;
      }
    }

    method DisposeInlineTabCompletions()
      modifies this
      ensures View() == Step(old(View()), DisposeAll)
    {
      ClearDebounce();
      if activeDisposer.Some? {
        registered := registered - {activeDisposer.value};
      }
      activeDisposer := None;
    }
  }
}
