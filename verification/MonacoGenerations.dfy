/**
 * Full syncs and delta syncs of the editor models that overlap, under every interleaving of their reads
 * (src/monaco/typescriptProject.ts:20, 171-240, 259-262). A task of a full sync checks the generation
 * before it reads, not after, and a delta sync checks none: what an older sync has in flight lands later.
 */
module MonacoGenerations {
  import opened Options
  import MonacoSync

  type Files = MonacoSync.Files

  /** A full sync belongs to a generation; delta syncs are numbered. */
  datatype Kind = Full(generation: nat) | Delta(number: nat)

  /** A path that a sync is still to read. */
  datatype Task = Task(kind: Kind, path: string)

  /** A read on its way: what was on disk when it was made. */
  datatype Read = Read(kind: Kind, path: string, content: Option<string>)

  /**
   * The disk, the generation counter, the models, the tasks, the reads on their way, and how many delta
   * syncs and reads began so far.
   */
  datatype State = State(
    disk: Files,
    generation: nat,
    models: Files,
    tasks: set<Task>,
    flight: map<nat, Read>,
    deltas: nat,
    begunReads: nat)

  datatype Event =
    | Edit(path: string, content: Option<string>)
    | Begin(paths: set<string>)      // a full sync disposes the models; its candidates become tasks
    | Reset                          // resetMonacoTypeScriptProject
    | BeginDelta(changed: set<string>, deleted: set<string>) // a delta sync disposes what was deleted
    | Start(task: Task)
    | Land(read: nat)

  function ContentOf(files: Files, path: string): Option<string> {
    if path in files then Some(files[path]) else None
  }

  predicate Enabled(s: State, e: Event) {
    match e
    case Edit(_, _) => true
    case Begin(_) => true
    case Reset => true
    case BeginDelta(_, _) => true
    case Start(t) => t in s.tasks
    case Land(r) => r in s.flight
  }

  /** A read that lands: a full sync skips an unreadable file, a delta sync disposes its model. */
  function Landed(models: Files, read: Read): Files {
    match read.content
    case Some(content) => models[read.path := content]
    case None => if read.kind.Full? then models else models - {read.path}
  }

  function Step(s: State, e: Event): State
    requires Enabled(s, e)
  {
    match e
    case Edit(p, content) => s.(disk := if content.Some? then s.disk[p := content.value] else s.disk - {p})
    case Begin(paths) =>
      s.(generation := s.generation + 1, models := map[],
         tasks := s.tasks + set p | p in paths :: Task(Full(s.generation + 1), p))
    case Reset => s.(generation := s.generation + 1)
    case BeginDelta(changed, deleted) =>
      s.(models := s.models - deleted, deltas := s.deltas + 1,
         tasks := s.tasks + set p | p in changed :: Task(Delta(s.deltas), p))
    case Start(t) =>
      var rest := s.(tasks := s.tasks - {t});
      if !Live(s, t) then rest
      else
        rest.(flight := s.flight[s.begunReads := Read(t.kind, t.path, ContentOf(s.disk, t.path))],
              begunReads := s.begunReads + 1)
    case Land(r) => s.(flight := s.flight - {r}, models := Landed(s.models, s.flight[r]))
  }

  /** A task that will read when it starts: one of a superseded full sync returns instead. */
  predicate Live(s: State, t: Task) {
    t.kind.Full? ==> t.kind.generation == s.generation
  }

  // ---- Runs ----

  predicate Possible(s: State, events: seq<Event>)
    decreases |events|
  {
    events == [] || (Enabled(s, events[0]) && Possible(Step(s, events[0]), events[1..]))
  }

  function After(s: State, events: seq<Event>): State
    requires Possible(s, events)
    decreases |events|
  {
    if events == [] then s else After(Step(s, events[0]), events[1..])
  }

  /** Tasks belong to this or older full syncs, and reads are numbered in order. */
  predicate Steady(s: State) {
    && (forall t | t in s.tasks && t.kind.Full? :: t.kind.generation <= s.generation)
    && forall r | r in s.flight :: r < s.begunReads
  }

  predicate Fresh(s: State) {
    s.models == map[] && s.tasks == {} && s.flight == map[]
  }

  lemma {:induction false} StepKeepsSteady(s: State, e: Event)
    requires Steady(s) && Enabled(s, e)
    ensures Steady(Step(s, e))
  {
  }

  /** Every state a run can reach is steady, so the results below hold of all of them. */
  lemma {:induction false} ReachableIsSteady(s: State, events: seq<Event>)
    requires (Fresh(s) || Steady(s)) && Possible(s, events)
    ensures Steady(After(s, events))
    decreases |events|
  {
    hide Step;
    if events != [] {
      StepKeepsSteady(s, events[0]);
      ReachableIsSteady(Step(s, events[0]), events[1..]);
    }
  }

  // ---- Running everything to its end ----

  predicate OnlyTasks(events: seq<Event>) {
    forall e | e in events :: e.Start? || e.Land?
  }

  function LiveTasks(s: State): set<Task> {
    set t | t in s.tasks && Live(s, t)
  }

  predicate Done(s: State) {
    s.flight == map[] && LiveTasks(s) == {}
  }

  /** A continuation of task events after which nothing is on its way and nothing will be read. */
  predicate Complete(s: State, events: seq<Event>) {
    OnlyTasks(events) && Possible(s, events) && Done(After(s, events))
  }

  /** A read on its way, and reads numbered below the next one. */
  predicate Underway(s: State, r: nat, read: Read) {
    r in s.flight && s.flight[r] == read && forall r | r in s.flight :: r < s.begunReads
  }

  lemma {:induction false} StartLeaves(s: State, t: Task, bad: nat, read: Read)
    requires t in LiveTasks(s) && Underway(s, bad, read)
    ensures var next := Step(s, Start(t));
            |LiveTasks(next)| < |LiveTasks(s)| && Underway(next, bad, read)
  {
    assert LiveTasks(Step(s, Start(t))) == LiveTasks(s) - {t};
  }

  lemma {:induction false} LandLeaves(s: State, r: nat, bad: nat, read: Read)
    requires r in s.flight && r != bad && Underway(s, bad, read)
    ensures var next := Step(s, Land(r));
            |LiveTasks(next)| == |LiveTasks(s)| && |next.flight| < |s.flight| && Underway(next, bad, read)
  {
    assert LiveTasks(Step(s, Land(r))) == LiveTasks(s);
    var rest := s.flight - {r};
    assert rest.Keys == s.flight.Keys - {r};
    assert |rest.Keys| == |rest| && |s.flight.Keys| == |s.flight|;
  }

  /** The last read lands. */
  lemma {:induction false} LandOnly(s: State, bad: nat)
    requires LiveTasks(s) == {} && bad in s.flight && forall r | r in s.flight :: r == bad
    ensures var next := Step(s, Land(bad));
            && Done(next)
            && (Effective(s.flight[bad]) ==>
                  ContentOf(next.models, s.flight[bad].path) == s.flight[bad].content)
  {
    assert LiveTasks(Step(s, Land(bad))) == LiveTasks(s);
    assert (s.flight - {bad}).Keys == {};
  }

  /** The read has an effect when it lands. */
  predicate Effective(read: Read) {
    read.kind.Delta? || read.content.Some?
  }

  /** A complete continuation, put behind one more task event. */
  lemma {:induction false} CompleteBehind(s: State, e: Event, events: seq<Event>)
    requires Enabled(s, e) && (e.Start? || e.Land?) && Complete(Step(s, e), events)
    ensures Complete(s, [e] + events) && After(s, [e] + events) == After(Step(s, e), events)
  {
    hide Step, Done;
    Prepend(e, events, s);
    assert forall x | x in [e] + events :: x == e || x in events;
  }

  /** One continuation runs everything to its end and lands a given read last. */
  lemma {:induction false} LandLast(s: State, bad: nat) returns (events: seq<Event>)
    requires bad in s.flight && forall r | r in s.flight :: r < s.begunReads
    ensures Complete(s, events)
    ensures Effective(s.flight[bad]) ==>
              ContentOf(After(s, events).models, s.flight[bad].path) == s.flight[bad].content
    decreases |LiveTasks(s)|, |s.flight|
  {
    hide Possible, After, Complete, Step, Effective, ContentOf;
    var e;
    var read := s.flight[bad];
    if t :| t in LiveTasks(s) {
      e := Start(t);
      StartLeaves(s, t, bad, read);
      events := LandLast(Step(s, e), bad);
    } else if r :| r in s.flight && r != bad {
      e := Land(r);
      LandLeaves(s, r, bad, read);
      events := LandLast(Step(s, e), bad);
    } else {
      e := Land(bad);
      LandOnly(s, bad);
      NothingMore(Step(s, e));
      events := [];
    }
    CompleteBehind(s, e, events);
    events := [e] + events;
  }

  lemma {:induction false} NothingMore(s: State)
    requires Done(s)
    ensures Complete(s, []) && After(s, []) == s
  {
  }

  // ---- When a full sync ends right ----

  /** The read found nothing that it will change, or what the sync of `paths` finds as well. */
  predicate Harmless(s: State, paths: set<string>, read: Read) {
    match read.content
    case Some(_) => read.path in paths && read.content == ContentOf(s.disk, read.path)
    case None => read.kind.Full? || read.path !in paths || read.path !in s.disk
  }

  /** A delta task will read what is on disk, so it is harmless unless the sync leaves its file out. */
  predicate HarmlessTask(s: State, paths: set<string>, t: Task) {
    t.path in s.disk ==> t.path in paths
  }

  /** What is done of the sync of `paths`: each is a task, on its way, or settled, and nothing else lands. */
  ghost predicate Syncing(s: State, paths: set<string>) {
    && (forall p | p in s.models :: p in paths && p in s.disk && s.models[p] == s.disk[p])
    && (forall r | r in s.flight :: r < s.begunReads && Harmless(s, paths, s.flight[r]))
    && (forall t | t in s.tasks && Live(s, t) :: HarmlessTask(s, paths, t))
    && forall p | p in paths && p in s.disk :: p in s.models || Unsettled(s, p)
  }

  /** The path is still to be read, or on its way with what the disk holds. */
  ghost predicate Unsettled(s: State, p: string) {
    (exists t :: Awaits(s, t, p)) || exists r :: Carries(s, r, p)
  }

  predicate Awaits(s: State, t: Task, p: string) {
    t in s.tasks && Live(s, t) && t.path == p
  }

  predicate Carries(s: State, r: nat, p: string) {
    r in s.flight && s.flight[r].path == p && s.flight[r].content == ContentOf(s.disk, p)
  }

  lemma {:induction false} SyncStep(s: State, e: Event, paths: set<string>)
    requires Syncing(s, paths) && Enabled(s, e) && (e.Start? || e.Land?)
    ensures Syncing(Step(s, e), paths)
  {
    var next := Step(s, e);
    if e.Land? {
      assert Harmless(s, paths, s.flight[e.read]);
    } else if Live(s, e.task) {
      assert HarmlessTask(s, paths, e.task);
    }
    forall p | p in paths && p in next.disk
      ensures p in next.models || Unsettled(next, p)
    {
      if p !in next.models {
        SettlingStep(s, e, p);
      }
    }
  }

  /** A step keeps a path unsettled until what the disk holds has landed. */
  lemma {:induction false} SettlingStep(s: State, e: Event, p: string)
    requires Enabled(s, e) && (e.Start? || e.Land?)
    requires (forall r | r in s.flight :: r < s.begunReads) && p in s.disk && Unsettled(s, p)
    ensures Unsettled(Step(s, e), p) || ContentOf(Step(s, e).models, p) == ContentOf(s.disk, p)
  {
    var next := Step(s, e);
    if t :| Awaits(s, t, p) {
      if e == Start(t) {
        assert Carries(next, s.begunReads, p);
      } else {
        assert Awaits(next, t, p);
      }
    } else {
      var r :| Carries(s, r, p);
      if e != Land(r) {
        assert Carries(next, r, p);
      }
    }
  }

  lemma {:induction false} TaskStep(s: State, e: Event)
    requires Enabled(s, e) && (e.Start? || e.Land?)
    ensures Step(s, e).disk == s.disk && Step(s, e).generation == s.generation
  {
  }

  lemma {:induction false} SyncRun(s: State, events: seq<Event>, paths: set<string>)
    requires Syncing(s, paths) && Possible(s, events) && OnlyTasks(events)
    ensures Syncing(After(s, events), paths) && After(s, events).disk == s.disk
    decreases |events|
  {
    hide Syncing, Step;
    if events != [] {
      assert events[0] in events && forall e | e in events[1..] :: e in events;
      SyncStep(s, events[0], paths);
      TaskStep(s, events[0]);
      SyncRun(Step(s, events[0]), events[1..], paths);
    }
  }

  /** The sync of `paths` is right after every complete continuation. */
  ghost predicate EndsRight(s: State, paths: set<string>) {
    var begun := Step(s, Begin(paths));
    forall events | Complete(begun, events) ::
      After(begun, events).models == MonacoSync.Reread(map[], paths, s.disk)
  }

  /** What older syncs have on their way, and what delta syncs will still read, is harmless to a sync of `paths`. */
  predicate AllHarmless(s: State, paths: set<string>) {
    && (forall r | r in s.flight :: Harmless(s, paths, s.flight[r]))
    && forall t | t in s.tasks && t.kind.Delta? :: HarmlessTask(s, paths, t)
  }

  /**
   * MAIN RESULT, with its exact condition. On a disk that does not change, a full sync leaves exactly the
   * models of its readable candidates, under every interleaving with its own tasks and what older syncs
   * have left, if and only if what they have left is harmless: each read on its way when it begins changes
   * nothing or found, for one of the candidates, what is still on disk, and each file a delta sync is
   * still to read is a candidate or gone.
   */
  lemma {:induction false} SyncEndsRightExactly(s: State, paths: set<string>)
    requires Steady(s)
    ensures EndsRight(s, paths) <==> AllHarmless(s, paths)
  {
    hide After, Possible;
    var begun := Step(s, Begin(paths));
    if AllHarmless(s, paths) {
      forall events | Complete(begun, events)
        ensures After(begun, events).models == MonacoSync.Reread(map[], paths, s.disk)
      {
        HarmlessEndsRight(s, paths, events);
      }
    } else if bad :| bad in s.flight && !Harmless(s, paths, s.flight[bad]) {
      var events := LandLast(begun, bad);
      WrongAt(After(begun, events).models, paths, s, s.flight[bad]);
    } else {
      var t :| t in s.tasks && t.kind.Delta? && !HarmlessTask(s, paths, t);
      var next := Step(begun, Start(t));
      var events := LandLast(next, s.begunReads);
      CompleteBehind(begun, Start(t), events);
      assert Complete(begun, [Start(t)] + events);
      WrongAt(After(next, events).models, paths, s, next.flight[s.begunReads]);
    }
  }

  /** A harmful read that landed last shows. */
  lemma {:induction false} WrongAt(models: Files, paths: set<string>, s: State, read: Read)
    requires !Harmless(s, paths, read) && ContentOf(models, read.path) == read.content
    ensures models != MonacoSync.Reread(map[], paths, s.disk)
  {
    assert ContentOf(MonacoSync.Reread(map[], paths, s.disk), read.path) ==
           if read.path in paths then ContentOf(s.disk, read.path) else None;
  }

  lemma {:induction false} HarmlessEndsRight(s: State, paths: set<string>, events: seq<Event>)
    requires Steady(s) && AllHarmless(s, paths) && Complete(Step(s, Begin(paths)), events)
    ensures After(Step(s, Begin(paths)), events).models == MonacoSync.Reread(map[], paths, s.disk)
  {
    hide After, Possible;
    var begun := Step(s, Begin(paths));
    SyncBegins(s, paths);
    SyncRun(begun, events, paths);
    var end := After(begun, events);
    forall p | p in paths && p in s.disk
      ensures p in end.models
    {
      NothingUnsettled(end, p);
    }
  }

  lemma {:induction false} SyncBegins(s: State, paths: set<string>)
    requires Steady(s) && AllHarmless(s, paths)
    ensures Syncing(Step(s, Begin(paths)), paths)
  {
    var begun := Step(s, Begin(paths));
    forall r | r in begun.flight
      ensures r < begun.begunReads && Harmless(begun, paths, begun.flight[r])
    {
      assert Harmless(s, paths, s.flight[r]);
    }
    forall t | t in begun.tasks && Live(begun, t)
      ensures HarmlessTask(begun, paths, t)
    {
      assert t in s.tasks && t.kind.Delta? ==> HarmlessTask(s, paths, t);
    }
    forall p | p in paths && p in begun.disk
      ensures Unsettled(begun, p)
    {
      assert Awaits(begun, Task(Full(s.generation + 1), p), p);
    }
  }

  lemma {:induction false} NothingUnsettled(s: State, p: string)
    requires Done(s)
    ensures !Unsettled(s, p)
  {
    forall t | t in s.tasks && t.path == p
      ensures !Live(s, t)
    {
      assert t !in LiveTasks(s);
    }
  }

  /** In particular with nothing left by older syncs but tasks of full ones. */
  lemma {:induction false} InterleavedSyncIsTheSync(s: State, paths: set<string>, events: seq<Event>)
    requires Steady(s) && s.flight == map[] && (forall t | t in s.tasks :: t.kind.Full?)
    requires Complete(Step(s, Begin(paths)), events)
    ensures After(Step(s, Begin(paths)), events).models == MonacoSync.Reread(map[], paths, s.disk)
  {
    HarmlessEndsRight(s, paths, events);
  }

  // ---- When a delta sync ends right ----

  /** The read changes nothing, or found what is on disk. */
  predicate UpToDate(s: State, read: Read) {
    Effective(read) ==> read.content == ContentOf(s.disk, read.path)
  }

  /** The file of a delta: it is still to be read by a delta, or its model is what the disk holds. */
  ghost predicate Catching(s: State, p: string) {
    && (forall r | r in s.flight :: r < s.begunReads)
    && (forall r | r in s.flight && s.flight[r].path == p :: UpToDate(s, s.flight[r]))
    && (Pending(s, p) || ContentOf(s.models, p) == ContentOf(s.disk, p))
  }

  ghost predicate Pending(s: State, p: string) {
    (exists t :: Awaits(s, t, p) && t.kind.Delta?) || exists r :: Carries(s, r, p) && s.flight[r].kind.Delta?
  }

  lemma {:induction false} PendingStart(s: State, t: Task, p: string)
    requires Pending(s, p) && t in s.tasks && forall r | r in s.flight :: r < s.begunReads
    ensures Pending(Step(s, Start(t)), p)
  {
    var next := Step(s, Start(t));
    if u :| Awaits(s, u, p) && u.kind.Delta? {
      if u == t {
        assert Carries(next, s.begunReads, p) && next.flight[s.begunReads].kind.Delta?;
      } else {
        assert Awaits(next, u, p);
      }
    } else {
      var r :| Carries(s, r, p) && s.flight[r].kind.Delta?;
      assert Carries(next, r, p) && next.flight[r].kind.Delta?;
    }
  }

  lemma {:induction false} CatchingStart(s: State, t: Task, p: string)
    requires Catching(s, p) && t in s.tasks
    ensures Catching(Step(s, Start(t)), p)
  {
    hide Pending, ContentOf;
    if Pending(s, p) {
      PendingStart(s, t, p);
    }
  }

  lemma {:induction false} CatchingLand(s: State, read: nat, p: string)
    requires Catching(s, p) && read in s.flight
    ensures Catching(Step(s, Land(read)), p)
  {
    var next := Step(s, Land(read));
    if t :| Awaits(s, t, p) && t.kind.Delta? {
      assert Awaits(next, t, p);
    } else if r :| Carries(s, r, p) && s.flight[r].kind.Delta? {
      if r != read {
        assert Carries(next, r, p) && next.flight[r].kind.Delta?;
      }
    }
  }

  lemma {:induction false} CatchingRun(s: State, events: seq<Event>, p: string)
    requires Catching(s, p) && Possible(s, events) && OnlyTasks(events)
    ensures Catching(After(s, events), p) && After(s, events).disk == s.disk
    decreases |events|
  {
    hide Catching, Step;
    if events != [] {
      assert events[0] in events && forall e | e in events[1..] :: e in events;
      if events[0].Start? {
        CatchingStart(s, events[0].task, p);
      } else {
        CatchingLand(s, events[0].read, p);
      }
      TaskStep(s, events[0]);
      CatchingRun(Step(s, events[0]), events[1..], p);
    }
  }

  /** After every complete continuation the model of each file the delta names is what the disk holds. */
  ghost predicate DeltaEndsRight(s: State, changed: set<string>, deleted: set<string>) {
    var begun := Step(s, BeginDelta(changed, deleted));
    forall events, p | Complete(begun, events) && p in changed + deleted ::
      ContentOf(After(begun, events).models, p) == ContentOf(s.disk, p)
  }

  predicate AllUpToDate(s: State, named: set<string>) {
    forall r | r in s.flight && s.flight[r].path in named :: UpToDate(s, s.flight[r])
  }

  /**
   * MAIN RESULT, with its exact condition. On a disk that does not change, a truthful delta sync leaves the
   * model of every file it names as the disk has it, under every interleaving with what older full and
   * delta syncs have left, if and only if each of their reads of such a file that is on its way when it
   * begins changes nothing or found what is still on disk. What they are still to read does no harm.
   */
  lemma {:induction false} DeltaEndsRightExactly(s: State, changed: set<string>, deleted: set<string>)
    requires Steady(s) && forall p | p in deleted && p in s.disk :: p in changed
    ensures DeltaEndsRight(s, changed, deleted) <==> AllUpToDate(s, changed + deleted)
  {
    hide After, Possible;
    var begun := Step(s, BeginDelta(changed, deleted));
    if AllUpToDate(s, changed + deleted) {
      forall events, p | Complete(begun, events) && p in changed + deleted
        ensures ContentOf(After(begun, events).models, p) == ContentOf(s.disk, p)
      {
        DeltaCatches(s, changed, deleted, events, p);
      }
    } else {
      var bad :| bad in s.flight && s.flight[bad].path in changed + deleted && !UpToDate(s, s.flight[bad]);
      var events := LandLast(begun, bad);
      assert ContentOf(After(begun, events).models, s.flight[bad].path) == s.flight[bad].content;
    }
  }

  lemma {:induction false} DeltaCatches(s: State, changed: set<string>, deleted: set<string>,
                                        events: seq<Event>, p: string)
    requires Steady(s) && AllUpToDate(s, changed + deleted)
    requires p in changed || (p in deleted && p !in s.disk)
    requires Complete(Step(s, BeginDelta(changed, deleted)), events)
    ensures ContentOf(After(Step(s, BeginDelta(changed, deleted)), events).models, p) == ContentOf(s.disk, p)
  {
    hide After, Possible;
    var begun := Step(s, BeginDelta(changed, deleted));
    if p in changed {
      assert Awaits(begun, Task(Delta(s.deltas), p), p);
      assert Pending(begun, p);
    }
    forall r | r in begun.flight && begun.flight[r].path == p
      ensures UpToDate(begun, begun.flight[r])
    {
      assert UpToDate(s, s.flight[r]);
    }
    CatchingRun(begun, events, p);
    NothingUnsettled(After(begun, events), p);
  }

  // ---- Runs on which they end wrong ----

  const OLD_READ := Read(Full(1), "f", Some("old"))

  /** The states of such a run, between its events. */
  function Late(newer: Event, i: nat): State {
    var s := State(map["f" := "old"], 0, map[], {}, map[], 0, 0);
    if i == 0 then s
    else if i == 1 then s.(generation := 1, tasks := {Task(Full(1), "f")})
    else
      var read := s.(generation := 1, flight := map[0 := OLD_READ], begunReads := 1);
      if i == 2 then read
      else
        var gone := read.(disk := map[]);
        if i == 3 then gone
        else
          var after := if newer.Begin? then gone.(generation := 2) else gone.(deltas := 1);
          if i == 4 then after else after.(models := map["f" := "old"], flight := map[])
  }

  lemma {:induction false} LateFirst(newer: Event)
    ensures Step(Late(newer, 0), Begin({"f"})) == Late(newer, 1)
    ensures Step(Late(newer, 1), Start(Task(Full(1), "f"))) == Late(newer, 2)
  {
    assert (set p | p in {"f"} :: Task(Full(1), p)) == {Task(Full(1), "f")};
  }

  lemma {:induction false} LateThen(newer: Event)
    requires newer in {Begin({}), BeginDelta({}, {"f"})}
    ensures Step(Late(newer, 2), Edit("f", None)) == Late(newer, 3)
    ensures Step(Late(newer, 3), newer) == Late(newer, 4)
    ensures Step(Late(newer, 4), Land(0)) == Late(newer, 5)
  {
  }

  /**
   * An older read lands last. A full sync reads `f`, the file is deleted, and a newer full sync, or a delta
   * sync that says so, runs to its end before the read lands: the model of the deleted file stays.
   */
  lemma {:induction false} AnOlderReadLandsLast(newer: Event)
    requires newer in {Begin({}), BeginDelta({}, {"f"})}
    ensures var s := Late(newer, 0);
            var events := [Begin({"f"}), Start(Task(Full(1), "f")), Edit("f", None), newer, Land(0)];
            && Fresh(s) && Possible(s, events) && Done(After(s, events))
            && After(s, events).disk == map[] && After(s, events).models == map["f" := "old"]
  {
    hide After, Possible, Step;
    LateFirst(newer);
    LateThen(newer);
    Chain([], Late(newer, 5));
    Prepend(Land(0), [], Late(newer, 4));
    var e4 := [Land(0)] + [];
    Prepend(newer, e4, Late(newer, 3));
    var e3 := [newer] + e4;
    Prepend(Edit("f", None), e3, Late(newer, 2));
    var e2 := [Edit("f", None)] + e3;
    Prepend(Start(Task(Full(1), "f")), e2, Late(newer, 1));
    var e1 := [Start(Task(Full(1), "f"))] + e2;
    Prepend(Begin({"f"}), e1, Late(newer, 0));
    assert [Begin({"f"})] + e1 == [Begin({"f"}), Start(Task(Full(1), "f")), Edit("f", None), newer, Land(0)];
  }

  lemma {:induction false} Chain(events: seq<Event>, s: State)
    requires events == []
    ensures Possible(s, events) && After(s, events) == s
  {
  }

  lemma {:induction false} Prepend(e: Event, events: seq<Event>, s: State)
    requires Enabled(s, e) && Possible(Step(s, e), events)
    ensures Possible(s, [e] + events) && After(s, [e] + events) == After(Step(s, e), events)
  {
    assert ([e] + events)[1..] == events;
  }
}
