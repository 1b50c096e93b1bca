/**
 * The process tree a teardown signals (e2e/helpers/processTeardown.ts:79-154), on a process table
 * that does not change while it is read.
 */
module ProcessTree {
  import opened Lists

  type Pid = int

  /** What the system knows: the listed children of a pid, in the order listed, and who is alive. */
  datatype Table = Table(children: map<Pid, seq<Pid>>, alive: set<Pid>, self: Pid)

  /** `isPidAlive`. */
  predicate Alive(t: Table, pid: Pid) {
    pid > 1 && pid in t.alive
  }

  /** `listDirectChildPids`: never the pid itself, never the harness, and only pids above one. */
  function DirectChildren(t: Table, pid: Pid): (kids: seq<Pid>)
    ensures forall c :: c in kids <==> IsChild(t, c, pid)
  {
    if pid <= 1 || pid !in t.children then [] else Above(t, pid, t.children[pid])
  }

  function Above(t: Table, pid: Pid, listed: seq<Pid>): (kids: seq<Pid>)
    ensures forall c :: c in kids <==> c in listed && c > 1 && c != pid && c != t.self
  {
    if listed == [] then []
    else
      var c := listed[0];
      (if c > 1 && c != pid && c != t.self then [c] else []) + Above(t, pid, listed[1..])
  }

  predicate IsChild(t: Table, child: Pid, parent: Pid) {
    parent > 1 && parent in t.children && child in t.children[parent] && child > 1 && child != parent && child != t.self
  }

  /** The children of a pid are followed when it is the root or alive. */
  predicate Expands(t: Table, root: Pid, pid: Pid) {
    pid == root || Alive(t, pid)
  }

  /** A chain of children from the root, each followed from a pid that expands. */
  ghost predicate Chain(t: Table, root: Pid, path: seq<Pid>) {
    && path != [] && path[0] == root && root > 1 && root != t.self
    && forall i | 0 <= i < |path| - 1 :: Expands(t, root, path[i]) && IsChild(t, path[i + 1], path[i])
  }

  /** A pid is reached from the root. */
  ghost predicate Reached(t: Table, root: Pid, pid: Pid) {
    exists path :: Chain(t, root, path) && path[|path| - 1] == pid
  }

  /** The pids a table mentions, and the root. */
  function Universe(t: Table, root: Pid): set<Pid> {
    {root} + set p, c | p in t.children && c in t.children[p] :: c
  }

  /** Each pid but the root comes after some parent of its own. */
  ghost predicate AfterAParent(t: Table, root: Pid, seen: seq<Pid>) {
    forall i | 0 <= i < |seen| && seen[i] != root :: HasParentBefore(t, seen, i)
  }

  ghost predicate HasParentBefore(t: Table, seen: seq<Pid>, i: nat)
    requires i < |seen|
  {
    exists j :: 0 <= j < i && IsChild(t, seen[i], seen[j])
  }

  ghost predicate QueuedAfterParent(t: Table, root: Pid, seen: seq<Pid>, queue: seq<Pid>) {
    forall c | c in queue && c != root :: exists j :: 0 <= j < |seen| && IsChild(t, c, seen[j])
  }

  /** What has been found so far is reached, and what it leads to is found or still queued. */
  ghost predicate Progress(t: Table, root: Pid, seen: seq<Pid>, queue: seq<Pid>) {
    && (forall p | p in seen || p in queue :: Reached(t, root, p))
    && (forall p, c | p in seen && Expands(t, root, p) && IsChild(t, c, p) :: c in seen || c in queue)
  }

  lemma {:induction false} ReachedStep(t: Table, root: Pid, p: Pid, c: Pid)
    requires Reached(t, root, p) && Expands(t, root, p) && IsChild(t, c, p)
    ensures Reached(t, root, c)
  {
    var path :| Chain(t, root, path) && path[|path| - 1] == p;
    var longer := path + [c];
    assert Chain(t, root, longer) && longer[|longer| - 1] == c;
  }

  lemma {:induction false} ReachedIsMentioned(t: Table, root: Pid, pid: Pid)
    requires Reached(t, root, pid)
    ensures pid in Universe(t, root) && pid > 1 && pid != t.self
  {
    var path :| Chain(t, root, path) && path[|path| - 1] == pid;
    if |path| > 1 {
      assert IsChild(t, path[|path| - 2 + 1], path[|path| - 2]);
    }
  }

  /** A set that holds the root and is closed under followed children holds whatever is reached. */
  lemma {:induction false} ClosedHoldsReached(t: Table, root: Pid, seen: seq<Pid>, path: seq<Pid>)
    requires Chain(t, root, path) && root in seen
    requires forall p, c | p in seen && Expands(t, root, p) && IsChild(t, c, p) :: c in seen
    ensures path[|path| - 1] in seen
  {
    if |path| > 1 {
      var init := path[..|path| - 1];
      assert Chain(t, root, init);
      ClosedHoldsReached(t, root, seen, init);
      assert IsChild(t, path[|path| - 2 + 1], path[|path| - 2]);
    }
  }

  /** The tree as `collectProcessTree` decides it: empty for a dead root that leads nowhere. */
  ghost predicate Collected(t: Table, root: Pid, pid: Pid) {
    && Reached(t, root, pid)
    && (Alive(t, root) || exists other :: other != root && Reached(t, root, other))
  }

  /** The state of the search. A root that is the harness itself is never taken up. */
  ghost predicate Searching(t: Table, root: Pid, seen: seq<Pid>, queue: seq<Pid>) {
    && root > 1 && Distinct(seen)
    && (if root == t.self then seen == [] && forall p | p in queue :: p == root
        else Progress(t, root, seen, queue) && (root in seen || root in queue))
    && (seen == [] ==> forall p | p in queue :: p == root)
    && (seen != [] ==> seen[0] == root)
    && AfterAParent(t, root, seen) && QueuedAfterParent(t, root, seen, queue)
  }

  lemma {:induction false} SearchStarts(t: Table, root: Pid)
    requires root > 1
    ensures Searching(t, root, [], [root])
  {
    if root != t.self {
      assert Chain(t, root, [root]) && [root][|[root]| - 1] == root;
    }
  }

  lemma {:induction false} SearchSkips(t: Table, root: Pid, seen: seq<Pid>, queue: seq<Pid>)
    requires queue != [] && Searching(t, root, seen, queue)
    requires queue[0] in seen || queue[0] == t.self || queue[0] <= 1
    ensures Searching(t, root, seen, queue[1..])
  {
    var rest := queue[1..];
    forall c | c in rest ensures c in queue {
      var i :| 0 <= i < |rest| && rest[i] == c;
      assert queue[i + 1] == c;
    }
    forall c | c in queue && c != queue[0] ensures c in rest {
      var i :| 0 <= i < |queue| && queue[i] == c;
      assert rest[i - 1] == c;
    }
    if root != t.self {
      ReachedIsMentioned(t, root, queue[0]);
    }
    assert Progress(t, root, seen, rest) || root == t.self;
    assert QueuedAfterParent(t, root, seen, rest);
  }

  /** The queue after its first pid was taken up. */
  function Queued(t: Table, root: Pid, seen: seq<Pid>, queue: seq<Pid>): (next: seq<Pid>)
    requires queue != []
    ensures forall c :: c in next ==> c in queue || (Expands(t, root, queue[0]) && IsChild(t, c, queue[0]))
    ensures forall c :: c in queue && c != queue[0] ==> c in next
    ensures forall c :: Expands(t, root, queue[0]) && IsChild(t, c, queue[0]) && c !in seen + [queue[0]] ==> c in next
  {
    assert queue == [queue[0]] + queue[1..];
    queue[1..] + if Expands(t, root, queue[0]) then Unseen(seen + [queue[0]], DirectChildren(t, queue[0])) else []
  }

  lemma {:induction false} TakingProgresses(t: Table, root: Pid, seen: seq<Pid>, queue: seq<Pid>)
    requires queue != [] && Progress(t, root, seen, queue)
    ensures Progress(t, root, seen + [queue[0]], Queued(t, root, seen, queue))
  {
    hide Queued;
    var pid, next := queue[0], Queued(t, root, seen, queue);
    forall p | p in seen + [pid] || p in next
      ensures Reached(t, root, p)
    {
      if p in next && p !in queue {
        ReachedStep(t, root, pid, p);
      }
    }
  }

  lemma {:induction false} TakingKeepsOrder(t: Table, root: Pid, seen: seq<Pid>, queue: seq<Pid>)
    requires queue != [] && AfterAParent(t, root, seen) && QueuedAfterParent(t, root, seen, queue)
    ensures AfterAParent(t, root, seen + [queue[0]])
    ensures QueuedAfterParent(t, root, seen + [queue[0]], Queued(t, root, seen, queue))
  {
    hide Queued;
    var pid, next := queue[0], Queued(t, root, seen, queue);
    var more := seen + [pid];
    forall i | 0 <= i < |more| && more[i] != root
      ensures HasParentBefore(t, more, i)
    {
      if i < |seen| {
        assert HasParentBefore(t, seen, i);
        var j :| 0 <= j < i && IsChild(t, seen[i], seen[j]);
        assert IsChild(t, more[i], more[j]);
      } else {
        assert pid in queue;
        var j :| 0 <= j < |seen| && IsChild(t, pid, seen[j]);
        assert IsChild(t, more[i], more[j]);
      }
    }
    forall c | c in next && c != root
      ensures exists j :: 0 <= j < |more| && IsChild(t, c, more[j])
    {
      if c in queue {
        var j :| 0 <= j < |seen| && IsChild(t, c, seen[j]);
        assert IsChild(t, c, more[j]);
      } else {
        assert IsChild(t, c, more[|seen|]);
      }
    }
  }

  lemma {:induction false} SearchTakes(t: Table, root: Pid, seen: seq<Pid>, queue: seq<Pid>)
    requires queue != [] && Searching(t, root, seen, queue)
    requires queue[0] !in seen && queue[0] != t.self && queue[0] > 1
    ensures Searching(t, root, seen + [queue[0]], Queued(t, root, seen, queue))
    ensures queue[0] in Universe(t, root)
  {
    hide Queued, Reached, IsChild, Universe, Progress, AfterAParent, QueuedAfterParent;
    assert queue[0] in queue;
    ProgressReaches(t, root, seen, queue, queue[0]);
    ReachedIsMentioned(t, root, queue[0]);
    TakingProgresses(t, root, seen, queue);
    TakingKeepsOrder(t, root, seen, queue);
  }

  lemma {:induction false} ProgressReaches(t: Table, root: Pid, seen: seq<Pid>, queue: seq<Pid>, p: Pid)
    requires Progress(t, root, seen, queue) && (p in seen || p in queue)
    ensures Reached(t, root, p)
  {
  }

  /** When nothing is queued any more, exactly the reached pids have been seen. */
  lemma {:induction false} SearchEnds(t: Table, root: Pid, seen: seq<Pid>)
    requires Searching(t, root, seen, [])
    ensures forall p :: p in seen <==> Reached(t, root, p)
  {
    forall p
      ensures p in seen <==> Reached(t, root, p)
    {
      if Reached(t, root, p) {
        var path :| Chain(t, root, path) && path[|path| - 1] == p;
        ClosedHoldsReached(t, root, seen, path);
      }
    }
  }

  /** A dead root is dropped exactly when it is the only pid seen. */
  lemma {:induction false} LoneRoot(t: Table, root: Pid, seen: seq<Pid>)
    requires Searching(t, root, seen, [])
    ensures (!Alive(t, root) && |seen| == 1) ==> forall p :: !Collected(t, root, p)
    ensures !(!Alive(t, root) && |seen| == 1) ==> forall p :: p in seen <==> Collected(t, root, p)
  {
    SearchEnds(t, root, seen);
    if |seen| == 1 {
      assert forall p :: Reached(t, root, p) ==> p == root;
    } else if |seen| > 1 {
      assert seen[1] in seen && seen[1] != root;
      assert Reached(t, root, seen[1]);
    }
  }

  lemma {:induction false} ReversedHolds(seen: seq<Pid>, p: Pid)
    ensures p in Reversed(seen) <==> p in seen
  {
    if p in seen {
      var k :| 0 <= k < |seen| && seen[k] == p;
      assert Reversed(seen)[|seen| - 1 - k] == p;
    }
  }

  lemma {:induction false} ReversedParent(t: Table, root: Pid, seen: seq<Pid>, i: nat)
    requires AfterAParent(t, root, seen) && i < |seen| && Reversed(seen)[i] != root
    ensures ParentAfter(t, Reversed(seen), i)
  {
    var r, k := Reversed(seen), |seen| - 1 - i;
    hide Reversed, IsChild;
    assert r[i] == seen[k];
    assert HasParentBefore(t, seen, k);
    var j :| 0 <= j < k && IsChild(t, seen[k], seen[j]);
    assert r[|seen| - 1 - j] == seen[j];
  }

  lemma {:induction false} ReversedIsDistinct(seen: seq<Pid>)
    requires Distinct(seen)
    ensures Distinct(Reversed(seen))
  {
    hide Reversed;
  }

  lemma {:induction false} ReversedOrder(t: Table, root: Pid, seen: seq<Pid>)
    requires AfterAParent(t, root, seen) && Distinct(seen)
    ensures Distinct(Reversed(seen))
    ensures forall p :: p in Reversed(seen) <==> p in seen
    ensures forall i | 0 <= i < |seen| && Reversed(seen)[i] != root :: ParentAfter(t, Reversed(seen), i)
  {
    hide Reversed, AfterAParent, ParentAfter;
    ReversedIsDistinct(seen);
    forall p
      ensures p in Reversed(seen) <==> p in seen
    {
      ReversedHolds(seen, p);
    }
    forall i | 0 <= i < |seen| && Reversed(seen)[i] != root
      ensures ParentAfter(t, Reversed(seen), i)
    {
      ReversedParent(t, root, seen, i);
    }
  }

  /** Some parent of the `i`th pid comes after it. */
  ghost predicate ParentAfter(t: Table, pids: seq<Pid>, i: nat)
    requires i < |pids|
  {
    exists j :: i < j < |pids| && IsChild(t, pids[i], pids[j])
  }

  lemma {:induction false} SeenGrows(universe: set<Pid>, seen: seq<Pid>, pid: Pid)
    requires pid in universe && pid !in seen
    ensures |universe - set p | p in seen + [pid]| < |universe - set p | p in seen|
  {
    var before, after := universe - (set p | p in seen), universe - (set p | p in seen + [pid]);
    assert after == before - {pid};
  }

  /**
   * MAIN RESULT. `collectProcessTree` terminates, lists exactly the collected pids once each, and
   * lists each of them but the root before some parent of its own.
   */
  method CollectProcessTree(t: Table, root: Pid) returns (pids: seq<Pid>)
    ensures Distinct(pids)
    ensures forall p :: p in pids <==> Collected(t, root, p)
    ensures pids != [] ==> pids[|pids| - 1] == root
    ensures forall i | 0 <= i < |pids| && pids[i] != root :: ParentAfter(t, pids, i)
  {
    hide Searching, Universe, Collected, ParentAfter;
    if root <= 1 {
      NothingFromSystemPids(t, root);
      return [];
    }
    var seen: seq<Pid> := [];
    var queue := [root];
    SearchStarts(t, root);
    while queue != []
      invariant Searching(t, root, seen, queue)
      decreases |Universe(t, root) - set p | p in seen|, |queue|
    {
      var pid := queue[0];
      if pid in seen || pid == t.self || pid <= 1 {
        SearchSkips(t, root, seen, queue);
        queue := queue[1..];
        continue;
      }
      SearchTakes(t, root, seen, queue);
      SeenGrows(Universe(t, root), seen, pid);
      ghost var next := Queued(t, root, seen, queue);
      queue := queue[1..];
      seen := seen + [pid];
      if !Alive(t, pid) && pid != root {
        assert next == queue + [] == queue;
        continue;
      }
      assert next == queue + Unseen(seen, DirectChildren(t, pid));
      queue := queue + Unseen(seen, DirectChildren(t, pid));
    }
    LoneRoot(t, root, seen);
    if !Alive(t, root) && |seen| == 1 {
      return [];
    }
    SearchOrder(t, root, seen);
    ReversedOrder(t, root, seen);
    pids := Reversed(seen);
  }

  lemma {:induction false} NothingFromSystemPids(t: Table, root: Pid)
    requires root <= 1
    ensures forall p :: !Collected(t, root, p)
  {
  }

  lemma {:induction false} SearchOrder(t: Table, root: Pid, seen: seq<Pid>)
    requires Searching(t, root, seen, [])
    ensures AfterAParent(t, root, seen) && Distinct(seen)
    ensures seen != [] ==> seen[0] == root
  {
  }

  /** When every pid has one parent, every pid but the root comes before its parent. */
  lemma {:induction false} ChildrenComeFirst(t: Table, root: Pid, pids: seq<Pid>, i: nat, j: nat)
    requires Distinct(pids)
    requires forall i | 0 <= i < |pids| && pids[i] != root :: ParentAfter(t, pids, i)
    requires forall c, p, q :: IsChild(t, c, p) && IsChild(t, c, q) ==> p == q
    requires i < |pids| && j < |pids| && pids[i] != root && IsChild(t, pids[i], pids[j])
    ensures i < j
  {
    assert ParentAfter(t, pids, i);
    var k :| i < k < |pids| && IsChild(t, pids[i], pids[k]);
    assert pids[k] == pids[j];
  }

  function Unseen(seen: seq<Pid>, kids: seq<Pid>): (r: seq<Pid>)
    ensures forall c :: c in r <==> c in kids && c !in seen
  {
    if kids == [] then [] else (if kids[0] in seen then [] else [kids[0]]) + Unseen(seen, kids[1..])
  }

  function Reversed(s: seq<Pid>): (r: seq<Pid>)
    ensures |r| == |s| && forall i | 0 <= i < |s| :: r[i] == s[|s| - 1 - i]
  {
    if s == [] then [] else Reversed(s[1..]) + [s[0]]
  }

  // ---- Tracked pids ----

  predicate Trackable(t: Table, pid: Pid) {
    pid > 1 && pid != t.self
  }

  /** A pid the expansion of `pids` holds: a tracked pid, or one collected from it. */
  ghost predicate Expanded(t: Table, pids: set<Pid>, pid: Pid) {
    exists root :: root in pids && Trackable(t, root) && (pid == root || Collected(t, root, pid))
  }

  /** `expandTrackedPids`. */
  method ExpandTrackedPids(t: Table, pids: set<Pid>) returns (collected: set<Pid>)
    ensures IsExpansion(t, pids, collected)
    ensures t.self !in collected
  {
    hide Expanded, Collected;
    collected := {};
    var left := pids;
    NothingExpanded(t);
    assert pids - left == {};
    while left != {}
      invariant left <= pids
      invariant forall p :: p in collected <==> Expanded(t, pids - left, p)
      decreases left
    {
      SomethingLeft(left);
      var root :| root in left;
      ghost var done := pids - left;
      left := left - {root};
      assert pids - left == done + {root};
      if root <= 1 || root == t.self {
        NotTrackable(t, done, root);
        continue;
      }
      var tree := CollectProcessTree(t, root);
      collected := collected + {root} + set p | p in tree;
      ExpandedStep(t, done, root);
    }
    assert pids - left == pids;
    NeverTheHarness(t, pids);
    collected := collected - {t.self};
  }

  lemma {:induction false} SomethingLeft(left: set<Pid>)
    ensures left == {} || exists p :: p in left
  {
    if forall p :: p !in left {
      assert left == {};
    }
  }

  lemma {:induction false} NotTrackable(t: Table, done: set<Pid>, root: Pid)
    requires !Trackable(t, root)
    ensures forall p :: Expanded(t, done + {root}, p) <==> Expanded(t, done, p)
  {
  }

  lemma {:induction false} NothingExpanded(t: Table)
    ensures forall p :: !Expanded(t, {}, p)
  {
  }

  lemma {:induction false} ExpandedStep(t: Table, done: set<Pid>, root: Pid)
    requires Trackable(t, root)
    ensures forall p :: Expanded(t, done + {root}, p) <==> Expanded(t, done, p) || p == root || Collected(t, root, p)
  {
    assert root in done + {root};
  }

  lemma {:induction false} NeverTheHarness(t: Table, pids: set<Pid>)
    ensures !Expanded(t, pids, t.self)
  {
    if Expanded(t, pids, t.self) {
      var root :| root in pids && Trackable(t, root) && (t.self == root || Collected(t, root, t.self));
      ReachedIsMentioned(t, root, t.self);
    }
  }

  /** No dead pid of a set, followed as a root of its own, leads out of the set. */
  ghost predicate ClosedUnderDead(t: Table, pids: set<Pid>) {
    forall p, c | p in pids && !Alive(t, p) && IsChild(t, c, p) :: c in pids
  }

  ghost predicate IsExpansion(t: Table, pids: set<Pid>, expanded: set<Pid>) {
    forall p :: p in expanded <==> Expanded(t, pids, p)
  }

  lemma {:induction false} ExpansionGrows(t: Table, pids: set<Pid>, once: set<Pid>, twice: set<Pid>)
    requires IsExpansion(t, pids, once) && IsExpansion(t, once, twice)
    ensures once <= twice
  {
    forall p | p in once
      ensures p in twice
    {
      ExpandedIsTrackable(t, pids, p);
      assert p in once && Trackable(t, p);
    }
  }

  lemma {:induction false} ClosedExpandsToItself(t: Table, pids: set<Pid>, once: set<Pid>, p: Pid)
    requires IsExpansion(t, pids, once) && ClosedUnderDead(t, once) && Expanded(t, once, p)
    ensures p in once
  {
    var root :| root in once && Trackable(t, root) && (p == root || Collected(t, root, p));
    if p != root {
      var path :| Chain(t, root, path) && path[|path| - 1] == p;
      ClosedExpansion(t, pids, once, root, path);
    }
  }

  lemma {:induction false} OpenExpandsFurther(t: Table, pids: set<Pid>, once: set<Pid>)
    requires IsExpansion(t, pids, once) && !ClosedUnderDead(t, once)
    ensures exists c :: c !in once && Expanded(t, once, c)
  {
    var p, c :| p in once && !Alive(t, p) && IsChild(t, c, p) && c !in once;
    ExpandedIsTrackable(t, pids, p);
    assert Chain(t, p, [p, c]) && [p, c][|[p, c]| - 1] == c;
    assert Reached(t, p, c) && c != p;
    assert Collected(t, p, c);
    assert Expanded(t, once, c);
  }

  /** No dead pid reached from a tracked one has a child that is not reached as well. */
  ghost predicate DeadLeadNowhereNew(t: Table, pids: set<Pid>) {
    forall p, c | Expanded(t, pids, p) && !Alive(t, p) && IsChild(t, c, p) :: Expanded(t, pids, c)
  }

  /**
   * MAIN RESULT, with its exact condition. Expanding what was expanded adds nothing, if and only if no
   * dead pid reached from a tracked one leads to a pid that is not reached: a dead pid is followed only
   * when it is a root.
   */
  lemma {:induction false} ExpandTwiceExactly(t: Table, pids: set<Pid>, once: set<Pid>, twice: set<Pid>)
    requires IsExpansion(t, pids, once) && IsExpansion(t, once, twice)
    ensures once <= twice
    ensures twice == once <==> DeadLeadNowhereNew(t, pids)
  {
    hide Expanded, ClosedUnderDead, DeadLeadNowhereNew;
    DeadLead(t, pids, once);
    ExpansionGrows(t, pids, once, twice);
    if ClosedUnderDead(t, once) {
      forall p | p in twice
        ensures p in once
      {
        ClosedExpandsToItself(t, pids, once, p);
      }
    } else {
      OpenExpandsFurther(t, pids, once);
    }
  }

  lemma {:induction false} DeadLead(t: Table, pids: set<Pid>, once: set<Pid>)
    requires IsExpansion(t, pids, once)
    ensures DeadLeadNowhereNew(t, pids) <==> ClosedUnderDead(t, once)
  {
    hide Expanded;
  }

  /** Such a table: 10 is tracked and alive, its child 11 is dead, and 12 is the child of 11. */
  lemma {:induction false} ADeadPidLeadsOut()
    ensures !DeadLeadNowhereNew(Table(map[10 := [11], 11 := [12]], {10, 12}, 99), {10})
  {
    var t := Table(map[10 := [11], 11 := [12]], {10, 12}, 99);
    assert Chain(t, 10, [10, 11]) && [10, 11][|[10, 11]| - 1] == 11;
    assert Reached(t, 10, 11);
    assert Expanded(t, {10}, 11);
    forall path | Chain(t, 10, path)
      ensures path[|path| - 1] != 12
    {
      var n := |path| - 1;
      if n > 0 {
        assert Expands(t, 10, path[n - 1]) && IsChild(t, path[n - 1 + 1], path[n - 1]);
      }
    }
    assert !Reached(t, 10, 12);
    assert !Expanded(t, {10}, 12) && IsChild(t, 12, 11) && !Alive(t, 11);
  }

  lemma {:induction false} ExpandedIsTrackable(t: Table, pids: set<Pid>, p: Pid)
    requires Expanded(t, pids, p)
    ensures Trackable(t, p)
  {
    var root :| root in pids && Trackable(t, root) && (p == root || Collected(t, root, p));
    if p != root {
      ReachedIsMentioned(t, root, p);
    }
  }

  /** The children of a live pid of the expansion are in it. */
  lemma {:induction false} LiveChildren(t: Table, pids: set<Pid>, p: Pid, c: Pid)
    requires Expanded(t, pids, p) && Alive(t, p) && IsChild(t, c, p)
    ensures Expanded(t, pids, c)
  {
    var root :| root in pids && Trackable(t, root) && (p == root || Collected(t, root, p));
    if p == root {
      assert Chain(t, root, [root]) && [root][|[root]| - 1] == root;
    }
    assert Reached(t, root, p);
    ReachedStep(t, root, p, c);
    if c != root {
      assert Collected(t, root, c);
    }
  }

  lemma {:induction false} ClosedExpansion(t: Table, pids: set<Pid>, once: set<Pid>, root: Pid, path: seq<Pid>)
    requires IsExpansion(t, pids, once) && ClosedUnderDead(t, once)
    requires root in once && Chain(t, root, path)
    ensures path[|path| - 1] in once
  {
    if |path| > 1 {
      var init := path[..|path| - 1];
      assert Chain(t, root, init);
      ClosedExpansion(t, pids, once, root, init);
      var p, c := path[|path| - 2], path[|path| - 2 + 1];
      assert IsChild(t, c, p);
      if Alive(t, p) {
        LiveChildren(t, pids, p, c);
      }
    }
  }

  // ---- Termination signals ----

  /** A pid is signalled at the end: it was expanded at the start, or from what was, after the grace period. */
  ghost predicate Swept(first: Table, second: Table, pids: set<Pid>, pid: Pid) {
    || Expanded(first, pids, pid)
    || exists root ::
          Expanded(first, pids, root) && Trackable(second, root)
          && (pid == root || Collected(second, root, pid))
  }

  /**
   * `terminateTrackedPids`. The table is read three times: before the first signals, after the grace
   * period, and before the last signals. Nothing outside the tracked trees and never the harness is
   * signalled; every live pid of the trees gets the last signal.
   */
  method TerminateTrackedPids(first: Table, second: Table, third: Table, pids: set<Pid>)
    returns (terms: set<Pid>, kills: set<Pid>)
    requires first.self == second.self == third.self
    ensures IsExpansion(first, pids, terms)
    ensures forall p :: p in kills <==> terms != {} && Swept(first, second, pids, p) && Alive(third, p)
    ensures first.self !in terms && first.self !in kills
  {
    hide Expanded, Swept;
    var collected := ExpandTrackedPids(first, pids);
    terms, kills := collected, {};
    if collected == {} {
      return;
    }
    var more := ExpandTrackedPids(second, collected);
    SweptIs(first, second, pids, collected, more);
    collected := collected + more;
    kills := set p | p in collected && Alive(third, p);
  }

  lemma {:induction false} SweptIs(first: Table, second: Table, pids: set<Pid>, once: set<Pid>, more: set<Pid>)
    requires IsExpansion(first, pids, once) && IsExpansion(second, once, more)
    ensures forall p :: p in once + more <==> Swept(first, second, pids, p)
  {
    forall p
      ensures p in more <==> exists root ::
              Expanded(first, pids, root) && Trackable(second, root)
              && (p == root || Collected(second, root, p))
    {
      if p in more {
        var root :| root in once && Trackable(second, root) && (p == root || Collected(second, root, p));
        assert Expanded(first, pids, root);
      }
      if root :| Expanded(first, pids, root) && Trackable(second, root) && (p == root || Collected(second, root, p)) {
        assert root in once;
      }
    }
  }
}
