/**
 * Directory snapshots and their comparison (benchmarks/agentAcceptancePilot/fs.ts:42-63, 106-179).
 */
module Snapshot {
  import opened Options
  import opened SplitJoin
  import opened FileTree
  import opened Text

  const SKIP_NAMES: set<string> := {
    "node_modules", "dist", "dist-electron", ".bryantlabs", ".git", "test-results",
    "playwright-report", "blob-report", "coverage"
  }

  /** `relPath.split("\\").join("/").split("/").filter(Boolean)`, but for the empty parts. */
  function Parts(relPath: string): seq<string> {
    Split(Replace(relPath, '\\', '/'), '/')
  }

  predicate StartsWith(s: string, prefix: string) {
    prefix <= s
  }

  predicate SecretName(name: string) {
    || name == "credentials.json" || name == "provider-settings.json" || name == ".env" || name == ".npmrc"
    || EndsWith(name, ".local") || StartsWith(name, ".env.")
    || EndsWith(Lower(name), ".pem") || EndsWith(Lower(name), ".key")
    || EndsWith(Lower(name), ".p12") || EndsWith(Lower(name), ".pfx")
  }

  predicate HasSkippedPart(relPath: string) {
    exists i :: 0 <= i < |Parts(relPath)| && Parts(relPath)[i] in SKIP_NAMES
  }

  /** `shouldSkipCopyEntry`. */
  predicate Skip(name: string, relPath: string) {
    name in SKIP_NAMES || SecretName(name) || HasSkippedPart(relPath)
  }

  /** The same rule for an entry seen by itself, wherever it is. */
  predicate SkipName(name: string) {
    Skip(name, name)
  }

  /** `rel ? `${rel}/${name}` : name`. */
  function ChildRel(rel: string, name: string): string {
    if rel == "" then name else rel + "/" + name
  }

  // ---- The skip rule depends on the name alone ----

  lemma {:induction false} PartsOfSum(a: string, b: string)
    ensures Parts(a + "/" + b) == Parts(a) + Parts(b)
  {
    assert Replace(a + "/" + b, '\\', '/') == Replace(a, '\\', '/') + ['/'] + Replace(b, '\\', '/');
    SplitSum(Replace(a, '\\', '/'), '/', Replace(b, '\\', '/'));
  }

  /** Below a directory that is not skipped, the relative path adds nothing to the rule. */
  lemma {:induction false} SkipBelow(rel: string, name: string)
    requires !HasSkippedPart(rel)
    ensures Skip(name, ChildRel(rel, name)) <==> SkipName(name)
    ensures HasSkippedPart(ChildRel(rel, name)) ==> SkipName(name)
  {
    if rel != "" {
      PartsOfSum(rel, name);
      var all, a, b := Parts(ChildRel(rel, name)), Parts(rel), Parts(name);
      assert all == a + b;
      if HasSkippedPart(ChildRel(rel, name)) {
        var i :| 0 <= i < |all| && all[i] in SKIP_NAMES;
        assert i >= |a|;
        assert b[i - |a|] in SKIP_NAMES;
      }
      if HasSkippedPart(name) {
        var i :| 0 <= i < |b| && b[i] in SKIP_NAMES;
        assert all[|a| + i] in SKIP_NAMES;
      }
    }
  }

  /** The tree without the skipped entries, at every level. */
  function Prune(n: Node): Node {
    match n
    case Dir(children) => Dir(map k | k in children && !SkipName(k) :: Prune(children[k]))
    case _ => n
  }

  // ---- Snapshots ----

  datatype Kind = AFile | ADir | ASymlink

  /** `sha256` and `linkTarget` are empty where the source leaves them out. */
  datatype Entry = Entry(relPath: string, kind: Kind, sha256: string, linkTarget: string)

  type Hash = string -> string

  /** The hash never collides. Its digits never hold the bar that separates fingerprint fields. */
  ghost predicate CollisionFree(hash: Hash) {
    && (forall a, b :: hash(a) == hash(b) ==> a == b)
    && (forall a :: '|' !in hash(a))
  }

  function EntryOf(hash: Hash, relPath: string, n: Node): Entry {
    match n
    case File(bytes) => Entry(relPath, AFile, hash(bytes), "")
    case Link(target) => Entry(relPath, ASymlink, "", target)
    case Dir(_) => Entry(relPath, ADir, "", "")
  }

  /** The relative path of the entry at `p` below a directory whose own relative path is `rel`. */
  function RelPath(rel: string, p: Path): string
    requires p != []
  {
    ChildRel(rel, Join(p, '/'))
  }

  /** `e` is the entry of some node below the directory `n`. */
  ghost predicate EntryBelow(hash: Hash, rel: string, n: Node, e: Entry) {
    exists p: Path :: p != [] && Lookup(n, p).Some? && e == EntryOf(hash, RelPath(rel, p), Lookup(n, p).value)
  }

  lemma {:induction false} RelPathStep(rel: string, name: string, p: Path)
    requires name != "" && p != []
    ensures RelPath(rel, [name] + p) == RelPath(ChildRel(rel, name), p)
  {
    assert ([name] + p)[1..] == p;
    assert Join([name] + p, '/') == name + ['/'] + Join(p, '/');
    if rel != "" {
      assert rel + "/" + (name + ['/'] + Join(p, '/')) == rel + "/" + name + "/" + Join(p, '/');
    }
  }

  /** An entry of what lies at `name` or below it. */
  ghost predicate EntryAtChild(hash: Hash, rel: string, n: Node, name: Name, e: Entry) {
    exists p: Path ::
      && p != [] && p[0] == name && Lookup(n, p).Some?
      && e == EntryOf(hash, RelPath(rel, p), Lookup(n, p).value)
  }

  lemma {:induction false} ChildPath(rel: string, n: Node, name: Name, p: Path)
    requires n.Dir? && name in n.children && name != "" && p != [] && p[0] == name
    ensures Lookup(n, p) == Lookup(n.children[name], p[1..])
    ensures RelPath(rel, p) == if p[1..] == [] then ChildRel(rel, name) else RelPath(ChildRel(rel, name), p[1..])
  {
    if p[1..] == [] {
      assert p == [name];
    } else {
      assert p == [name] + p[1..];
      RelPathStep(rel, name, p[1..]);
    }
  }

  lemma {:induction false} AtChildIsBelow(hash: Hash, rel: string, n: Node, name: Name, e: Entry)
    requires n.Dir? && name in n.children && name != "" && EntryAtChild(hash, rel, n, name, e)
    ensures || e == EntryOf(hash, ChildRel(rel, name), n.children[name])
            || EntryBelow(hash, ChildRel(rel, name), n.children[name], e)
  {
    hide RelPath, Lookup, ChildRel;
    var p: Path :|
      && p != [] && p[0] == name && Lookup(n, p).Some?
      && e == EntryOf(hash, RelPath(rel, p), Lookup(n, p).value);
    ChildPath(rel, n, name, p);
    if p[1..] == [] {
      LookupHere(n.children[name]);
    }
  }

  lemma {:induction false} BelowIsAtChild(hash: Hash, rel: string, n: Node, name: Name, e: Entry)
    requires n.Dir? && name in n.children && name != ""
    requires || e == EntryOf(hash, ChildRel(rel, name), n.children[name])
             || EntryBelow(hash, ChildRel(rel, name), n.children[name], e)
    ensures EntryAtChild(hash, rel, n, name, e)
  {
    hide RelPath, Lookup, ChildRel;
    var child := n.children[name];
    var q: Path := [];
    if e == EntryOf(hash, ChildRel(rel, name), child) {
      LookupHere(child);
    } else {
      q :| q != [] && Lookup(child, q).Some?
           && e == EntryOf(hash, RelPath(ChildRel(rel, name), q), Lookup(child, q).value);
    }
    var p := [name] + q;
    assert p[0] == name && p[1..] == q;
    ChildPath(rel, n, name, p);
    assert e == EntryOf(hash, RelPath(rel, p), Lookup(n, p).value);
  }

  /** What lies below one child: the child's own entry and what lies below it. */
  lemma {:induction false} EntriesOfChild(hash: Hash, rel: string, n: Node, name: Name, e: Entry)
    requires n.Dir? && name in n.children && name != ""
    ensures EntryAtChild(hash, rel, n, name, e) <==>
            || e == EntryOf(hash, ChildRel(rel, name), n.children[name])
            || EntryBelow(hash, ChildRel(rel, name), n.children[name], e)
  {
    hide EntryAtChild, EntryBelow;
    if EntryAtChild(hash, rel, n, name, e) {
      AtChildIsBelow(hash, rel, n, name, e);
    }
    if || e == EntryOf(hash, ChildRel(rel, name), n.children[name])
       || EntryBelow(hash, ChildRel(rel, name), n.children[name], e)
    {
      BelowIsAtChild(hash, rel, n, name, e);
    }
  }

  /** What pruning keeps of one child. */
  lemma {:induction false} PrunedChild(hash: Hash, n: Node, name: Name, relPath: string)
    requires n.Dir? && name in n.children
    ensures var child, pruned := n.children[name], Prune(n);
            && pruned.Dir? && pruned.children.Keys <= n.children.Keys
            && (name in pruned.children <==> !SkipName(name))
            && (name in pruned.children ==> pruned.children[name] == Prune(child))
            && EntryOf(hash, relPath, Prune(child)) == EntryOf(hash, relPath, child)
            && (!child.Dir? ==> forall e :: !EntryBelow(hash, relPath, Prune(child), e))
  {
    hide SkipName;
  }

  /** What the walk shows of a child: its own entry, and then `below`. */
  lemma {:induction false} ChildShown(hash: Hash, childRel: string, child: Node, shown: seq<Entry>, below: seq<Entry>)
    requires shown == [EntryOf(hash, childRel, child)] + below
    requires forall e :: e in below <==> EntryBelow(hash, childRel, Prune(child), e)
    ensures forall e :: e in shown <==>
              || e == EntryOf(hash, childRel, child)
              || EntryBelow(hash, childRel, Prune(child), e)
  {
    hide EntryBelow, EntryOf, Prune;
  }

  /** `walkSnapshot`: the entries come in the order in which the directories happen to be listed. */
  method WalkSnapshot(hash: Hash, rel: string, n: Node, before: seq<Entry>) returns (out: seq<Entry>)
    requires n.Dir? && Valid(n) && !HasSkippedPart(rel)
    ensures before <= out
    ensures forall e :: e in out[|before|..] <==> EntryBelow(hash, rel, Prune(n), e)
    decreases n
  {
    hide Prune, SkipName, Skip, EntryOf, RelPath, Lookup, ChildRel, HasSkippedPart;
    out := before;
    var left := n.children.Keys;
    ghost var pruned := Prune(n);
    NothingShown(hash, rel, n);
    while left != {}
      invariant left <= n.children.Keys
      invariant before <= out
      invariant forall e :: e in out[|before|..] <==> EntryOutside(hash, rel, pruned, left, e)
      decreases left
    {
      var name :| name in left;
      var child := n.children[name];
      var childRel := ChildRel(rel, name);
      SkipBelow(rel, name);
      PrunedChild(hash, n, name, childRel);
      ghost var shown := out;
      if !Skip(name, childRel) {
        out := out + [EntryOf(hash, childRel, child)];
        ghost var own := out;
        if child.Dir? {
          out := WalkSnapshot(hash, childRel, child, out);
        }
        assert out[|shown|..] == [EntryOf(hash, childRel, child)] + out[|own|..];
        ChildShown(hash, childRel, child, out[|shown|..], out[|own|..]);
      }
      StepEntries(hash, rel, pruned, name, left, shown[|before|..], out[|shown|..]);
      assert out[|before|..] == shown[|before|..] + out[|shown|..];
      left := left - {name};
    }
    AllShown(hash, rel, pruned);
  }

  /** An entry below a child that is not in `left`. */
  ghost predicate EntryOutside(hash: Hash, rel: string, n: Node, left: set<Name>, e: Entry) {
    exists p: Path ::
      && p != [] && p[0] !in left && Lookup(n, p).Some?
      && e == EntryOf(hash, RelPath(rel, p), Lookup(n, p).value)
  }

  lemma {:induction false} NothingShown(hash: Hash, rel: string, n: Node)
    requires n.Dir?
    ensures forall e :: !EntryOutside(hash, rel, Prune(n), n.children.Keys, e)
  {
    hide EntryOf, RelPath, SkipName;
  }

  lemma {:induction false} AllShown(hash: Hash, rel: string, n: Node)
    ensures forall e :: EntryOutside(hash, rel, n, {}, e) <==> EntryBelow(hash, rel, n, e)
  {
    hide EntryOf, RelPath, Lookup;
  }

  /** `snapshotDirectory`, but for the sort of the entries and the kind of the root. */
  method SnapshotDirectory(hash: Hash, root: Node) returns (entries: seq<Entry>)
    requires root.Dir? && Valid(root)
    ensures IsSnapshot(hash, root, entries)
  {
    assert !HasSkippedPart("") by { assert Parts("") == [""]; }
    entries := WalkSnapshot(hash, "", root, []);
    assert entries[0..] == entries;
  }

  /** One listed name: its entries join those listed so far. */
  lemma {:induction false} StepEntries(hash: Hash, rel: string, n: Node, name: Name, left: set<Name>, a: seq<Entry>,
                                       b: seq<Entry>)
    requires n.Dir? && name in left && name != ""
    requires forall e :: e in a <==> EntryOutside(hash, rel, n, left, e)
    requires name !in n.children ==> b == []
    requires name in n.children ==>
               forall e :: e in b <==>
                 || e == EntryOf(hash, ChildRel(rel, name), n.children[name])
                 || EntryBelow(hash, ChildRel(rel, name), n.children[name], e)
    ensures forall e :: e in a + b <==> EntryOutside(hash, rel, n, left - {name}, e)
  {
    hide EntryOutside, EntryAtChild, EntryBelow, EntryOf, ChildRel;
    forall e
      ensures e in a + b <==> EntryOutside(hash, rel, n, left - {name}, e)
    {
      OutsideStep(hash, rel, n, name, left, e);
      if name in n.children {
        EntriesOfChild(hash, rel, n, name, e);
      } else {
        NothingAtChild(hash, rel, n, name, e);
      }
    }
  }

  lemma {:induction false} OutsideStep(hash: Hash, rel: string, n: Node, name: Name, left: set<Name>, e: Entry)
    requires name in left
    ensures EntryOutside(hash, rel, n, left - {name}, e) <==>
            EntryOutside(hash, rel, n, left, e) || EntryAtChild(hash, rel, n, name, e)
  {
    hide EntryOf, RelPath, Lookup;
  }

  lemma {:induction false} NothingAtChild(hash: Hash, rel: string, n: Node, name: Name, e: Entry)
    requires n.Dir? && name !in n.children
    ensures !EntryAtChild(hash, rel, n, name, e)
  {
    hide EntryOf, RelPath;
  }

  // ---- Comparing snapshots ----

  function KindText(kind: Kind): string {
    match kind
    case AFile => "file"
    case ADir => "dir"
    case ASymlink => "symlink"
  }

  /** `fingerprint`. */
  function Fingerprint(e: Entry): string {
    KindText(e.kind) + "|" + e.sha256 + "|" + e.linkTarget
  }

  /** The snapshot of a directory: exactly the entries below it. */
  ghost predicate IsSnapshot(hash: Hash, n: Node, entries: seq<Entry>) {
    forall e :: e in entries <==> EntryBelow(hash, "", Prune(n), e)
  }

  /** `new Map(entries.map((e) => [e.relPath, e]))`: a later entry replaces an earlier one with the same path. */
  function ByPath(entries: seq<Entry>): map<string, Entry> {
    if entries == [] then map[]
    else ByPath(entries[..|entries| - 1])[entries[|entries| - 1].relPath := entries[|entries| - 1]]
  }

  lemma {:induction false} ByPathMeans(entries: seq<Entry>)
    ensures forall k :: k in ByPath(entries) ==> ByPath(entries)[k] in entries && ByPath(entries)[k].relPath == k
    ensures forall e :: e in entries ==> e.relPath in ByPath(entries)
  {
    if entries != [] {
      var init := entries[..|entries| - 1];
      ByPathMeans(init);
      assert entries == init + [entries[|entries| - 1]];
    }
  }

  /** `diffSnapshots`; the order of the three lists is left open. */
  method DiffSnapshots(before: seq<Entry>, after: seq<Entry>)
    returns (changed: seq<string>, added: seq<string>, removed: seq<string>)
    ensures forall k :: k in added <==> k in ByPath(after) && k !in ByPath(before)
    ensures forall k :: k in removed <==> k in ByPath(before) && k !in ByPath(after)
    ensures forall k :: k in changed <==>
              k in ByPath(before) && k in ByPath(after)
                  && Fingerprint(ByPath(before)[k]) != Fingerprint(ByPath(after)[k])
  {
    var beforeMap, afterMap := ByPath(before), ByPath(after);
    added, removed, changed := [], [], [];
    var left := afterMap.Keys;
    while left != {}
      invariant left <= afterMap.Keys
      invariant forall k :: k in added <==> k in afterMap && k !in beforeMap && k !in left
      decreases left
    {
      var key :| key in left;
      if key !in beforeMap {
        added := added + [key];
      }
      left := left - {key};
    }
    left := beforeMap.Keys;
    while left != {}
      invariant left <= beforeMap.Keys
      invariant forall k :: k in removed <==> k in beforeMap && k !in afterMap && k !in left
      decreases left
    {
      var key :| key in left;
      if key !in afterMap {
        removed := removed + [key];
      }
      left := left - {key};
    }
    left := beforeMap.Keys;
    while left != {}
      invariant left <= beforeMap.Keys
      invariant forall k :: k in changed <==>
                  k in beforeMap && k in afterMap && k !in left && Fingerprint(beforeMap[k]) != Fingerprint(afterMap[k])
      decreases left
    {
      var key :| key in left;
      if key in afterMap && Fingerprint(beforeMap[key]) != Fingerprint(afterMap[key]) {
        changed := changed + [key];
      }
      left := left - {key};
    }
  }

  /** `snapshotsEqual`, as a function of the two maps. */
  predicate SameMaps(a: map<string, Entry>, b: map<string, Entry>) {
    a.Keys == b.Keys && forall k | k in a :: Fingerprint(a[k]) == Fingerprint(b[k])
  }

  method SnapshotsEqual(a: seq<Entry>, b: seq<Entry>) returns (equal: bool)
    ensures equal <==> SameMaps(ByPath(a), ByPath(b))
  {
    var changed, added, removed := DiffSnapshots(a, b);
    equal := changed == [] && added == [] && removed == [];
    if equal {
      assert forall k :: k !in changed && k !in added && k !in removed;
    } else if changed != [] {
      assert changed[0] in changed;
    } else if added != [] {
      assert added[0] in added;
    } else {
      assert removed[0] in removed;
    }
  }

  // ---- The flattening is injective ----

  /** What a fingerprint shows of a node: everything but what is below a directory. */
  function Shape(n: Node): Node {
    match n
    case Dir(_) => Dir(map[])
    case _ => n
  }

  lemma {:induction false} FingerprintShows(hash: Hash, pathA: string, pathB: string, a: Node, b: Node)
    requires CollisionFree(hash)
    ensures Fingerprint(EntryOf(hash, pathA, a)) == Fingerprint(EntryOf(hash, pathB, b)) <==> Shape(a) == Shape(b)
  {
    var fa, fb := Fingerprint(EntryOf(hash, pathA, a)), Fingerprint(EntryOf(hash, pathB, b));
    if fa == fb {
      assert fa[0] == fb[0];
      match (a, b) {
        case (File(x), File(y)) =>
          assert fa == "file|" + hash(x) + "|" && fb == "file|" + hash(y) + "|";
          assert fa[5..|fa| - 1] == hash(x) && fb[5..|fb| - 1] == hash(y);
        case (Link(x), Link(y)) =>
          assert fa[9..] == x && fb[9..] == y;
        case _ =>
      }
    }
  }

  lemma {:induction false} LookupValid(n: Node, p: Path)
    requires Valid(n) && Lookup(n, p).Some?
    ensures ValidPath(p)
  {
    if p != [] {
      LookupValid(n.children[p[0]], p[1..]);
    }
  }

  lemma {:induction false} PruneValid(n: Node)
    requires Valid(n)
    ensures Valid(Prune(n))
  {
    if n.Dir? {
      forall k | k in Prune(n).children ensures ValidName(k) && Valid(Prune(n).children[k]) {
        PruneValid(n.children[k]);
      }
    }
  }

  lemma {:induction false} RelPathInjective(p: Path, q: Path)
    requires p != [] && q != [] && ValidPath(p) && ValidPath(q)
    requires RelPath("", p) == RelPath("", q)
    ensures p == q
  {
    SplitOfJoin(p, '/');
    SplitOfJoin(q, '/');
  }

  /** A snapshot, read back: the entry under a path is the entry of the node at that path. */
  lemma {:induction false} SnapshotAt(hash: Hash, n: Node, entries: seq<Entry>, p: Path)
    requires Valid(n) && IsSnapshot(hash, n, entries) && p != [] && ValidPath(p)
    ensures RelPath("", p) in ByPath(entries) <==> Lookup(Prune(n), p).Some?
    ensures Lookup(Prune(n), p).Some? ==>
            ByPath(entries)[RelPath("", p)] ==
            EntryOf(hash, RelPath("", p), Lookup(Prune(n), p).value)
  {
    hide ByPath, IsSnapshot, Prune;
    ByPathMeans(entries);
    SnapshotHolds(hash, n, entries, p);
    var rel := RelPath("", p);
    if rel in ByPath(entries) {
      SnapshotShows(hash, n, entries, p, ByPath(entries)[rel]);
    }
    if Lookup(Prune(n), p).Some? {
      assert EntryOf(hash, rel, Lookup(Prune(n), p).value).relPath == rel;
    }
  }

  lemma {:induction false} SnapshotHolds(hash: Hash, n: Node, entries: seq<Entry>, p: Path)
    requires IsSnapshot(hash, n, entries) && p != []
    ensures Lookup(Prune(n), p).Some? ==> EntryOf(hash, RelPath("", p), Lookup(Prune(n), p).value) in entries
  {
    if Lookup(Prune(n), p).Some? {
      assert EntryBelow(hash, "", Prune(n), EntryOf(hash, RelPath("", p), Lookup(Prune(n), p).value));
    }
  }

  lemma {:induction false} SnapshotShows(hash: Hash, n: Node, entries: seq<Entry>, p: Path, e: Entry)
    requires Valid(n) && IsSnapshot(hash, n, entries) && p != [] && ValidPath(p)
    requires e in entries && e.relPath == RelPath("", p)
    ensures Lookup(Prune(n), p).Some? && e == EntryOf(hash, RelPath("", p), Lookup(Prune(n), p).value)
  {
    hide Prune, Lookup;
    PruneValid(n);
    assert EntryBelow(hash, "", Prune(n), e);
    var q: Path :| q != [] && Lookup(Prune(n), q).Some?
        && e == EntryOf(hash, RelPath("", q), Lookup(Prune(n), q).value);
    assert e.relPath == RelPath("", q);
    LookupValid(Prune(n), q);
    RelPathInjective(p, q);
  }

  /** Two trees that show the same thing at every path are the same tree. */
  lemma {:induction false} SameEverywhere(a: Node, b: Node)
    requires Valid(a) && Valid(b) && Shape(a) == Shape(b)
    requires forall p: Path | ValidPath(p) && p != [] ::
               Lookup(a, p).Some? == Lookup(b, p).Some?
                   && (Lookup(a, p).Some? ==> Shape(Lookup(a, p).value) == Shape(Lookup(b, p).value))
    ensures a == b
  {
    if a.Dir? {
      forall k | ValidName(k)
        ensures k in a.children <==> k in b.children
        ensures k in a.children ==> a.children[k] == b.children[k]
      {
        assert ValidPath([k]);
        assert [k][1..] == [];
        assert k in a.children <==> Lookup(a, [k]).Some?;
        assert k in b.children <==> Lookup(b, [k]).Some?;
        if k in a.children {
          var x, y := a.children[k], b.children[k];
          assert Lookup(a, [k]) == Some(x) && Lookup(b, [k]) == Some(y);
          forall p: Path | ValidPath(p) && p != []
            ensures Lookup(x, p).Some? == Lookup(y, p).Some?
                    && (Lookup(x, p).Some? ==> Shape(Lookup(x, p).value) == Shape(Lookup(y, p).value))
          {
            assert ValidPath([k] + p);
            assert ([k] + p)[1..] == p;
            assert Lookup(a, [k] + p) == Lookup(x, p) && Lookup(b, [k] + p) == Lookup(y, p);
          }
          SameEverywhere(x, y);
        }
      }
      assert a.children == b.children;
    }
  }

  /** Equal maps show the same thing at every path. */
  lemma {:induction false} SameMapsShow(hash: Hash, a: Node, b: Node, sa: seq<Entry>, sb: seq<Entry>, p: Path)
    requires CollisionFree(hash) && Valid(a) && Valid(b) && ValidPath(p) && p != []
    requires IsSnapshot(hash, a, sa) && IsSnapshot(hash, b, sb) && SameMaps(ByPath(sa), ByPath(sb))
    ensures Lookup(Prune(a), p).Some? == Lookup(Prune(b), p).Some?
    ensures Lookup(Prune(a), p).Some? ==> Shape(Lookup(Prune(a), p).value) == Shape(Lookup(Prune(b), p).value)
  {
    hide Prune, Lookup, ByPath, IsSnapshot, Shape, Fingerprint, EntryOf, RelPath;
    SnapshotAt(hash, a, sa, p);
    SnapshotAt(hash, b, sb, p);
    if Lookup(Prune(a), p).Some? {
      FingerprintShows(hash, RelPath("", p), RelPath("", p), Lookup(Prune(a), p).value, Lookup(Prune(b), p).value);
    }
  }

  /** Snapshots of one tree, in whatever order, have the same entry under a path. */
  lemma {:induction false} SameTreeShows(hash: Hash, a: Node, b: Node, sa: seq<Entry>, sb: seq<Entry>, k: string)
    requires Valid(a) && Valid(b) && IsSnapshot(hash, a, sa) && IsSnapshot(hash, b, sb) && Prune(a) == Prune(b)
    requires k in ByPath(sa)
    ensures k in ByPath(sb) && ByPath(sa)[k] == ByPath(sb)[k]
  {
    hide Prune, Lookup, ByPath, EntryOf, RelPath;
    ByPathMeans(sa);
    var e := ByPath(sa)[k];
    assert EntryBelow(hash, "", Prune(a), e);
    var p: Path :| p != [] && Lookup(Prune(a), p).Some?
        && e == EntryOf(hash, RelPath("", p), Lookup(Prune(a), p).value);
    EntryPath(hash, RelPath("", p), Lookup(Prune(a), p).value);
    PruneValid(a);
    LookupValid(Prune(a), p);
    SnapshotAt(hash, a, sa, p);
    SnapshotAt(hash, b, sb, p);
  }

  lemma {:induction false} EntryPath(hash: Hash, relPath: string, n: Node)
    ensures EntryOf(hash, relPath, n).relPath == relPath
  {
  }

  /**
   * MAIN RESULT. Two directory snapshots compare equal exactly when the two trees, with the skipped
   * names pruned at every level, are identical: same names, same kinds, same bytes, same link
   * targets, empty directories included, in whatever order the directories were listed.
   */
  lemma {:induction false} EqualSnapshotsMeanEqualTrees(hash: Hash, a: Node, b: Node, sa: seq<Entry>, sb: seq<Entry>)
    requires CollisionFree(hash) && Valid(a) && Valid(b) && a.Dir? && b.Dir?
    requires IsSnapshot(hash, a, sa) && IsSnapshot(hash, b, sb)
    ensures SameMaps(ByPath(sa), ByPath(sb)) <==> Prune(a) == Prune(b)
  {
    hide Prune, Lookup, ByPath, IsSnapshot, Shape, Fingerprint, Valid;
    PruneValid(a);
    PruneValid(b);
    if SameMaps(ByPath(sa), ByPath(sb)) {
      forall p: Path | ValidPath(p) && p != []
        ensures Lookup(Prune(a), p).Some? == Lookup(Prune(b), p).Some?
        ensures Lookup(Prune(a), p).Some? ==> Shape(Lookup(Prune(a), p).value) == Shape(Lookup(Prune(b), p).value)
      {
        SameMapsShow(hash, a, b, sa, sb, p);
      }
      PrunedDirs(a, b);
      SameEverywhere(Prune(a), Prune(b));
    }
    if Prune(a) == Prune(b) {
      forall k
        ensures k in ByPath(sa) <==> k in ByPath(sb)
        ensures k in ByPath(sa) ==> ByPath(sa)[k] == ByPath(sb)[k]
      {
        if k in ByPath(sa) {
          SameTreeShows(hash, a, b, sa, sb, k);
        } else if k in ByPath(sb) {
          SameTreeShows(hash, b, a, sb, sa, k);
        }
      }
    }
  }

  lemma {:induction false} PrunedDirs(a: Node, b: Node)
    requires a.Dir? && b.Dir?
    ensures Shape(Prune(a)) == Shape(Prune(b))
  {
  }

  // ---- The same without pruning ----

  /** The names that are left out: directories of generated files, and what may hold secrets. */
  predicate LeftOut(name: string) {
    || (exists part ::
          && part in Split(Replace(name, '\\', '/'), '/')
          && part in {"node_modules", "dist", "dist-electron", ".bryantlabs", ".git", "test-results",
                      "playwright-report", "blob-report", "coverage"})
    || name in {"credentials.json", "provider-settings.json", ".env", ".npmrc"}
    || EndsWith(name, ".local") || ".env." <= name
    || EndsWith(Lower(name), ".pem") || EndsWith(Lower(name), ".key")
    || EndsWith(Lower(name), ".p12") || EndsWith(Lower(name), ".pfx")
  }

  /** Below a directory that is not left out, an entry is skipped exactly for its name. */
  lemma {:induction false} SkipDecides(rel: string, name: string)
    requires ValidName(name) && !HasSkippedPart(rel)
    ensures Skip(name, ChildRel(rel, name)) <==> LeftOut(name)
    ensures SkipName(name) <==> LeftOut(name)
  {
    hide EndsWith, Lower;
    SkipBelow(rel, name);
    var parts := Parts(name);
    if part :| part in parts && part in SKIP_NAMES {
      var i :| 0 <= i < |parts| && parts[i] == part;
      assert HasSkippedPart(name);
    }
    if HasSkippedPart(name) {
      var i :| 0 <= i < |parts| && parts[i] in SKIP_NAMES;
      assert parts[i] in parts;
    }
    if name in SKIP_NAMES {
      NoSeparators(name);
      WholePart(name);
      assert name in parts;
    }
  }

  lemma {:induction false} NoSeparators(name: string)
    requires name in SKIP_NAMES
    ensures '/' !in name && '\\' !in name
  {
  }

  lemma {:induction false} WholePart(name: string)
    requires '/' !in name && '\\' !in name
    ensures Parts(name) == [name]
  {
    assert Replace(name, '\\', '/') == name;
    assert Join([name], '/') == name;
    SplitOfJoin([name], '/');
  }

  /** Nothing on the way to `p` is left out. */
  predicate Shown(p: Path) {
    forall name | name in p :: !LeftOut(name)
  }

  lemma {:induction false} PruneAt(n: Node, p: Path)
    requires ValidPath(p)
    ensures Lookup(Prune(n), p).Some? <==> Lookup(n, p).Some? && Shown(p)
    ensures Lookup(n, p).Some? && Shown(p) ==> Lookup(Prune(n), p) == Some(Prune(Lookup(n, p).value))
  {
    hide LeftOut, SkipName;
    if p != [] {
      assert p == [p[0]] + p[1..];
      assert !HasSkippedPart("") by { assert Parts("") == [""]; }
      SkipDecides("", p[0]);
      if n.Dir? && p[0] in n.children {
        PruneAt(n.children[p[0]], p[1..]);
      }
    }
  }

  /**
   * MAIN RESULT, in terms of the trees alone. Two snapshots compare equal if and only if at every path
   * without a left-out name the two trees show the same: nothing, a directory, the same bytes, or a link to
   * the same target.
   */
  lemma {:induction false} EqualSnapshotsExactly(hash: Hash, a: Node, b: Node, sa: seq<Entry>, sb: seq<Entry>)
    requires CollisionFree(hash) && Valid(a) && Valid(b) && a.Dir? && b.Dir?
    requires IsSnapshot(hash, a, sa) && IsSnapshot(hash, b, sb)
    ensures SameMaps(ByPath(sa), ByPath(sb)) <==>
            forall p: Path | ValidPath(p) && p != [] && Shown(p) :: SameAt(Lookup(a, p), Lookup(b, p))
  {
    hide Prune, Lookup, ByPath, IsSnapshot, Valid, SameMaps, Shown, SameAt;
    EqualSnapshotsMeanEqualTrees(hash, a, b, sa, sb);
    PruneValid(a);
    PruneValid(b);
    if forall p: Path | ValidPath(p) && p != [] && Shown(p) :: SameAt(Lookup(a, p), Lookup(b, p)) {
      forall p: Path | ValidPath(p) && p != []
        ensures Lookup(Prune(a), p).Some? == Lookup(Prune(b), p).Some?
        ensures Lookup(Prune(a), p).Some? ==> Shape(Lookup(Prune(a), p).value) == Shape(Lookup(Prune(b), p).value)
      {
        PrunedAlike(a, b, p);
      }
      PrunedDirs(a, b);
      SameEverywhere(Prune(a), Prune(b));
    }
    if Prune(a) == Prune(b) {
      forall p: Path | ValidPath(p) && p != [] && Shown(p)
        ensures SameAt(Lookup(a, p), Lookup(b, p))
      {
        PrunedAlike(a, b, p);
      }
    }
  }

  /** Both show nothing, or nodes of one kind with the same bytes or target. */
  predicate SameAt(a: Option<Node>, b: Option<Node>) {
    match (a, b)
    case (None, None) => true
    case (Some(File(x)), Some(File(y))) => x == y
    case (Some(Link(x)), Some(Link(y))) => x == y
    case (Some(Dir(_)), Some(Dir(_))) => true
    case _ => false
  }

  lemma {:induction false} PrunedAlike(a: Node, b: Node, p: Path)
    requires ValidPath(p)
    ensures Shown(p) && SameAt(Lookup(a, p), Lookup(b, p)) ==>
              && Lookup(Prune(a), p).Some? == Lookup(Prune(b), p).Some?
              && (Lookup(Prune(a), p).Some? ==> Shape(Lookup(Prune(a), p).value) == Shape(Lookup(Prune(b), p).value))
    ensures !Shown(p) ==> Lookup(Prune(a), p).None? && Lookup(Prune(b), p).None?
    ensures Shown(p) && Prune(a) == Prune(b) ==> SameAt(Lookup(a, p), Lookup(b, p))
  {
    hide Lookup, Shown, SkipName;
    PruneAt(a, p);
    PruneAt(b, p);
  }
}
