/**
 * The scaffold writer's output path guard (benchmarks/stress/scaffold/outputGuard.ts:27-131) and its
 * resolve-twice confirmation (benchmarks/stress/scaffold/write.ts:32-49).
 */
module OutputGuard {
  import opened Options
  import opened Text
  import opened SplitJoin
  import opened FileTree
  import opened Inside

  // ---- Lexical resolution ----

  /** One name after another: empty names and single dots stay, double dots go up. */
  function Walk(at: Path, names: seq<string>): Path
    decreases |names|
  {
    if names == [] then at
    else if names[0] == "" || names[0] == "." then Walk(at, names[1..])
    else if names[0] == ".." then Walk(if at == [] then [] else at[..|at| - 1], names[1..])
    else Walk(at + [names[0]], names[1..])
  }

  /** `resolve(raw)`. */
  function Normalize(cwd: Path, raw: string): Path {
    Walk(if Absolute(raw) then [] else cwd, Split(raw, '/'))
  }

  lemma {:induction false} WalkIsValid(at: Path, names: seq<string>)
    requires ValidPath(at) && forall i | 0 <= i < |names| :: '/' !in names[i]
    ensures ValidPath(Walk(at, names))
    decreases |names|
  {
    if names != [] {
      if names[0] == ".." {
        WalkIsValid(if at == [] then [] else at[..|at| - 1], names[1..]);
      } else if names[0] == "" || names[0] == "." {
        WalkIsValid(at, names[1..]);
      } else {
        WalkIsValid(at + [names[0]], names[1..]);
      }
    }
  }

  lemma {:induction false} WalkValid(at: Path, names: Path)
    requires ValidPath(names)
    ensures Walk(at, names) == at + names
    decreases |names|
  {
    if names != [] {
      WalkValid(at + [names[0]], names[1..]);
      assert at + [names[0]] + names[1..] == at + names;
    }
  }

  /** The names that a path without `..` goes down through. */
  function Down(names: seq<string>): seq<string> {
    if names == [] then []
    else
      var last := names[|names| - 1];
      Down(names[..|names| - 1]) + if last in {"", "."} then [] else [last]
  }

  lemma {:induction false} DownFirst(names: seq<string>)
    requires names != []
    ensures Down(names) == (if names[0] in {"", "."} then [] else [names[0]]) + Down(names[1..])
  {
    if |names| > 1 {
      var init := names[..|names| - 1];
      DownFirst(init);
      assert init[1..] == names[1..][..|names| - 2] && names[1..][|names| - 2] == names[|names| - 1];
    } else {
      assert names[..0] == [] && names[1..] == [];
    }
  }

  lemma {:induction false} WalkDown(at: Path, names: seq<string>)
    requires ".." !in names
    ensures Walk(at, names) == at + Down(names)
    decreases |names|
  {
    hide Down;
    if names != [] {
      DownFirst(names);
      WalkDown(if names[0] in {"", "."} then at else at + [names[0]], names[1..]);
    } else {
      assert Down([]) == [] by { DownNone(); }
    }
  }

  lemma {:induction false} DownNone()
    ensures Down([]) == []
  {
  }

  /** A path that does not go up starts at the root or at the working directory and goes down from there. */
  lemma {:induction false} NormalizeDecides(cwd: Path, raw: string)
    requires ".." !in Split(raw, '/')
    ensures Normalize(cwd, raw) == (if "/" <= raw then [] else cwd) + Down(Split(raw, '/'))
  {
    hide Down, Walk;
    WalkDown(if Absolute(raw) then [] else cwd, Split(raw, '/'));
  }

  /** A canonical path, printed and resolved again, is the same path. */
  lemma {:induction false} NormalizeInvertsText(cwd: Path, p: Path)
    requires ValidPath(p)
    ensures Normalize(cwd, PathText(p)) == p
  {
    var text := PathText(p);
    assert text == "" + ['/'] + Join(p, '/');
    SplitSum("", '/', Join(p, '/'));
    assert Split("", '/') == [""];
    if p == [] {
      assert Split(text, '/') == ["", ""];
      assert ["", ""][1..] == [""] && [""][1..] == [];
    } else {
      SplitOfJoin(p, '/');
      assert Split(text, '/') == [""] + p;
      assert ([""] + p)[1..] == p;
      WalkValid([], p);
      assert [] + p == p;
    }
  }

  // ---- canonicalizeOutputPath ----

  predicate Exists(root: Node, p: Path, links: nat) {
    Real(root, p, links).Some?
  }

  /** How many leading names of `p` exist, counting from the longest prefix down. */
  function Existing(root: Node, p: Path, links: nat): (n: nat)
    ensures n <= |p|
    ensures n > 0 ==> Exists(root, p[..n], links)
    ensures forall m | n < m <= |p| :: !Exists(root, p[..m], links)
    decreases |p|
  {
    if p == [] then 0
    else if Exists(root, p, links) then
      assert p[..|p|] == p;
      |p|
    else
      var n := Existing(root, p[..|p| - 1], links);
      assert forall m | 0 <= m < |p| :: p[..|p| - 1][..m] == p[..m];
      assert p[..|p|] == p;
      n
  }

  /** `canonicalizeOutputPath`, after the lexical resolution: the real path of what exists, then the rest. */
  function Canonical(root: Node, p: Path, links: nat): Path {
    var n := Existing(root, p, links);
    (if n == 0 then [] else Real(root, p[..n], links).value) + p[n..]
  }

  method CanonicalizeOutputPath(root: Node, abs: Path, links: nat) returns (canonical: Path)
    ensures canonical == Canonical(root, abs, links)
  {
    var missing: Path := [];
    var cursor := abs;
    assert cursor + missing == abs;
    while !Exists(root, cursor, links)
      invariant cursor + missing == abs
      invariant Existing(root, abs, links) == Existing(root, cursor, links)
      decreases |cursor|
    {
      if cursor == [] {
        break;
      }
      missing := [cursor[|cursor| - 1]] + missing;
      cursor := cursor[..|cursor| - 1];
    }
    assert Real(root, [], links) == Some([]);
    assert |cursor| == Existing(root, abs, links);
    assert abs[..|cursor|] == cursor && abs[|cursor|..] == missing;
    var realAncestor := Real(root, cursor, links).value;
    canonical := realAncestor + missing;
  }

  // ---- Canonicalizing twice ----

  /** Resolving the names of a path one after the other. */
  lemma {:induction false} ResolveSum(root: Node, at: Path, a: seq<string>, b: seq<string>, links: nat)
    requires Resolve(root, at, a + b, links).Some?
    ensures Resolve(root, at, a, links).Some?
    decreases links, |a|
  {
    if a == [] {
      assert a + b == b;
      if b != [] {
        assert Lookup(root, at).Some?;
      }
    } else {
      assert (a + b)[0] == a[0] && (a + b)[1..] == a[1..] + b;
      var here := Lookup(root, at).value;
      if a[0] == "" || a[0] == "." {
        ResolveSum(root, at, a[1..], b, links);
      } else if a[0] == ".." {
        ResolveSum(root, if at == [] then [] else at[..|at| - 1], a[1..], b, links);
      } else {
        match here.children[a[0]]
        case Link(target) =>
          var inner := Split(target, '/') + a[1..];
          assert Split(target, '/') + (a[1..] + b) == inner + b;
          ResolveSum(root, if Absolute(target) then [] else at, inner, b, links - 1);
        case _ => ResolveSum(root, at + [a[0]], a[1..], b, links);
      }
    }
  }

  /** Resolving `a` and then `b` from there, with a limit of its own, is resolving both with the two limits together. */
  lemma {:induction false} ResolveInTwo(root: Node, at: Path, a: seq<string>, b: seq<string>, m: nat, n: nat)
    requires Resolve(root, at, a, m).Some? && Resolve(root, Resolve(root, at, a, m).value, b, n).Some?
    ensures Resolve(root, at, a + b, m + n) == Resolve(root, Resolve(root, at, a, m).value, b, n)
    decreases m, |a|
  {
    if a == [] {
      assert a + b == b;
      MoreLinks(root, at, b, n, m + n);
    } else {
      assert (a + b)[0] == a[0] && (a + b)[1..] == a[1..] + b;
      var here := Lookup(root, at).value;
      if a[0] == "" || a[0] == "." {
        ResolveInTwo(root, at, a[1..], b, m, n);
      } else if a[0] == ".." {
        ResolveInTwo(root, if at == [] then [] else at[..|at| - 1], a[1..], b, m, n);
      } else {
        match here.children[a[0]]
        case Link(target) =>
          var inner := Split(target, '/') + a[1..];
          assert Split(target, '/') + (a[1..] + b) == inner + b;
          ResolveInTwo(root, if Absolute(target) then [] else at, inner, b, m - 1, n);
        case _ => ResolveInTwo(root, at + [a[0]], a[1..], b, m, n);
      }
    }
  }

  lemma {:induction false} MoreLinks(root: Node, at: Path, names: seq<string>, m: nat, n: nat)
    requires Resolve(root, at, names, m).Some? && m <= n
    ensures Resolve(root, at, names, n) == Resolve(root, at, names, m)
    decreases m, |names|
  {
    if names != [] {
      var here := Lookup(root, at).value;
      if names[0] == "" || names[0] == "." {
        MoreLinks(root, at, names[1..], m, n);
      } else if names[0] == ".." {
        MoreLinks(root, if at == [] then [] else at[..|at| - 1], names[1..], m, n);
      } else {
        match here.children[names[0]]
        case Link(target) =>
          MoreLinks(root, if Absolute(target) then [] else at, Split(target, '/') + names[1..], m - 1, n - 1);
        case _ => MoreLinks(root, at + [names[0]], names[1..], m, n);
      }
    }
  }

  /** The first name of `p` that does not exist, looked up from where the names before it lead to. */
  predicate BlockedThere(root: Node, p: Path, links: nat) {
    var n := Existing(root, p, links);
    n < |p| ==> !Exists(root, Anchor(root, p, links) + [p[n]], links)
  }

  /** The real path of the existing part of `p`. */
  function Anchor(root: Node, p: Path, links: nat): Path {
    var n := Existing(root, p, links);
    if n == 0 then [] else Real(root, p[..n], links).value
  }

  lemma {:induction false} AnchorIsReal(root: Node, p: Path, links: nat)
    requires Valid(root)
    ensures Physical(root, Anchor(root, p, links)) && ValidPath(Anchor(root, p, links))
    ensures Real(root, p[..Existing(root, p, links)], links) == Some(Anchor(root, p, links))
  {
    var n := Existing(root, p, links);
    if n == 0 {
      assert p[..0] == [];
    }
    RealIsPhysical(root, p[..n], links);
  }

  /** How far a path exists, found from one prefix that exists and the next that does not. */
  lemma {:induction false} ExistingIs(root: Node, p: Path, links: nat, n: nat)
    requires n <= |p| && Exists(root, p[..n], links)
    requires n < |p| ==> !Exists(root, p[..n + 1], links)
    ensures Existing(root, p, links) == n
  {
    var m := Existing(root, p, links);
    if m > n {
      assert p[..m] == p[..n + 1] + p[n + 1..m];
      ResolveSum(root, [], p[..n + 1], p[n + 1..m], links);
    }
  }

  /** A path behind a real one: the real part exists. */
  lemma {:induction false} RealPartExists(root: Node, r: Path, rest: Path, links: nat)
    requires Physical(root, r) && ValidPath(r)
    ensures (r + rest)[..|r|] == r && (r + rest)[|r|..] == rest
    ensures Real(root, r, links) == Some(r)
  {
    PhysicalResolves(root, r, 0, links);
    assert r[..0] == [] && r[0..] == r;
  }

  /**
   * MAIN RESULT, with its exact condition. Canonicalizing twice is canonicalizing once if and only
   * if the first missing name is also missing when it is looked up from the real ancestor.
   */
  lemma {:induction false} CanonicalTwiceExactly(root: Node, p: Path, links: nat)
    requires Valid(root) && ValidPath(p)
    ensures Canonical(root, Canonical(root, p, links), links) == Canonical(root, p, links) <==>
            BlockedThere(root, p, links)
  {
    var n, r := Existing(root, p, links), Anchor(root, p, links);
    var rest := p[n..];
    var c := r + rest;
    AnchorIsReal(root, p, links);
    RealPartExists(root, r, rest, links);
    assert Canonical(root, p, links) == c;
    if n == |p| {
      ExistingIs(root, c, links, |r|);
      CanonicalAt(root, c, links, |r|, r);
    } else {
      assert c[..|r| + 1] == r + [p[n]];
      if !Exists(root, r + [p[n]], links) {
        ExistingIs(root, c, links, |r|);
        CanonicalAt(root, c, links, |r|, r);
      } else {
        CanonicalMoves(root, p, links);
      }
    }
  }

  lemma {:induction false} CanonicalAt(root: Node, c: Path, links: nat, n: nat, r: Path)
    requires n <= |c| && Existing(root, c, links) == n && Real(root, c[..n], links) == Some(r)
    ensures Canonical(root, c, links) == r + c[n..]
  {
    if n == 0 {
      assert c[..0] == [];
    }
  }

  /** When the name does exist there, it is a link, and canonicalizing again follows it. */
  lemma {:induction false} CanonicalMoves(root: Node, p: Path, links: nat)
    requires Valid(root) && ValidPath(p) && !BlockedThere(root, p, links)
    ensures Canonical(root, Canonical(root, p, links), links) != Canonical(root, p, links)
  {
    var n, r := Existing(root, p, links), Anchor(root, p, links);
    var c := Canonical(root, p, links);
    AnchorIsReal(root, p, links);
    RealPartExists(root, r, p[n..], links);
    assert c == r + p[n..] && c[..|r| + 1] == r + [p[n]];
    NextIsLink(root, p, links);
    var m := Existing(root, c, links);
    assert m > |r|;
    var again := Real(root, c[..m], links).value;
    RealIsPhysical(root, c[..m], links);
    HeadOfSum(again, c, m);
    TakeTwice(c, m, |r| + 1);
  }

  lemma {:induction false} TakeTwice(c: Path, m: nat, j: nat)
    requires j <= m <= |c|
    ensures c[..m][..j] == c[..j]
  {
  }

  lemma {:induction false} HeadOfSum(a: Path, c: Path, m: nat)
    requires m <= |c|
    ensures a + c[m..] == c ==> a == c[..m]
  {
    if a + c[m..] == c {
      assert |a| == m;
      assert a == c[..m];
    }
  }

  /** The entry that stops the first walk but not the second is a symbolic link. */
  lemma {:induction false} NextIsLink(root: Node, p: Path, links: nat)
    requires Valid(root) && ValidPath(p) && !BlockedThere(root, p, links)
    ensures var next := Lookup(root, Anchor(root, p, links) + [p[Existing(root, p, links)]]);
            next.Some? && next.value.Link?
  {
    var n, r := Existing(root, p, links), Anchor(root, p, links);
    AnchorIsReal(root, p, links);
    RealPartExists(root, r, [p[n]], links);
    LookupSnoc(root, r, p[n]);
    ResolveLast(root, [], r, p[n], links);
    ResolveLast(root, [], p[..n], p[n], links);
    assert p[..n + 1] == p[..n] + [p[n]];
  }

  /** The system's limit on links does not cut the path short: with a higher limit no more of it exists. */
  ghost predicate WithinLimit(root: Node, p: Path, links: nat) {
    forall i, more: nat | 0 <= i <= |p| && links <= more :: Exists(root, p[..i], more) ==> Exists(root, p[..i], links)
  }

  /** On such a path the first missing name is missing from the real ancestor as well. */
  lemma {:induction false} BlockedWithinLimit(root: Node, p: Path, links: nat)
    requires Valid(root) && ValidPath(p) && WithinLimit(root, p, links)
    ensures BlockedThere(root, p, links)
  {
    hide Resolve, Existing, Lookup;
    var n, r := Existing(root, p, links), Anchor(root, p, links);
    AnchorIsReal(root, p, links);
    if n < |p| && Exists(root, r + [p[n]], links) {
      RealPartExists(root, r, [p[n]], links);
      assert (r + [p[n]])[|r|..] == [p[n]];
      FromPhysical(root, r, 0, [p[n]], links);
      assert r[..0] == [] && r[0..] == r;
      ResolveInTwo(root, [], p[..n], [p[n]], links, links);
      NotBeyond(root, p, links, n);
      assert false;
    }
  }

  /** The first missing name stays missing with twice the links. */
  lemma {:induction false} NotBeyond(root: Node, p: Path, links: nat, n: nat)
    requires n < |p| && WithinLimit(root, p, links) && n == Existing(root, p, links)
    ensures !Exists(root, p[..n] + [p[n]], links + links)
  {
    hide Resolve;
    assert p[..n + 1] == p[..n] + [p[n]];
    assert !Exists(root, p[..n + 1], links);
  }

  /** So canonicalizing it is idempotent, whatever links and missing names it has. */
  lemma {:induction false} CanonicalTwice(root: Node, p: Path, links: nat)
    requires Valid(root) && ValidPath(p) && WithinLimit(root, p, links)
    ensures Canonical(root, Canonical(root, p, links), links) == Canonical(root, p, links)
  {
    BlockedWithinLimit(root, p, links);
    CanonicalTwiceExactly(root, p, links);
  }

  /** The converse fails: with no links allowed `/a` is cut short, and yet canonicalizing it twice changes nothing. */
  lemma {:induction false} CutShortCanAgree()
    ensures !WithinLimit(TwoLinks(), ["a"], 0) && BlockedThere(TwoLinks(), ["a"], 0)
  {
    hide Resolve, Lookup, Split, Existing;
    TwoLinksLead(0);
    TwoLinksLead(1);
    assert ["a"][..1] == ["a"] && ["a"][..0] == [] && [] + ["a"] == ["a"];
    assert Exists(TwoLinks(), ["a"][..1], 1) && !Exists(TwoLinks(), ["a"][..1], 0);
    TwoLinksPlaces();
    ResolveNone(TwoLinks(), [], 0);
    ExistingIs(TwoLinks(), ["a"], 0, 0);
  }

  /** Walking down a physical path uses no links. */
  lemma {:induction false} FromPhysical(root: Node, r: Path, i: nat, rest: seq<string>, links: nat)
    requires Physical(root, r) && ValidPath(r) && i <= |r|
    ensures Resolve(root, r[..i], r[i..] + rest, links) == Resolve(root, r, rest, links)
    decreases |r| - i
  {
    if i == |r| {
      assert r[..i] == r && r[i..] + rest == rest;
    } else {
      PhysicalPrefix(root, r, i + 1);
      PhysicalPrefix(root, r, i);
      LookupSnoc(root, r[..i], r[i]);
      assert r[..i + 1] == r[..i] + [r[i]];
      assert r[..i + 1] == r[..i + 1][..i + 1];
      assert (r[i..] + rest)[0] == r[i] && (r[i..] + rest)[1..] == r[i + 1..] + rest;
      FromPhysical(root, r, i + 1, rest, links);
    }
  }

  /** The disk with a link `/a` to the directory `/d`, which holds a link `b` to its own entry `e`. */
  function TwoLinks(): Node {
    Dir(map["a" := Link("d"), "d" := Dir(map["b" := Link("e"), "e" := Dir(map[])])])
  }

  lemma {:induction false} TwoLinksPlaces()
    ensures Lookup(TwoLinks(), []) == Some(TwoLinks())
    ensures Lookup(TwoLinks(), ["d"]) == Some(Dir(map["b" := Link("e"), "e" := Dir(map[])]))
    ensures Lookup(TwoLinks(), ["d", "e"]) == Some(Dir(map[]))
    ensures Split("d", '/') == ["d"] && Split("e", '/') == ["e"]
  {
    LookupSnoc(TwoLinks(), [], "d");
    LookupSnoc(TwoLinks(), ["d"], "e");
    assert [] + ["d"] == ["d"] && ["d"] + ["e"] == ["d", "e"];
    SplitPart("d", '/');
    SplitPart("e", '/');
  }

  /** Through `links` links `/a` leads to `/d`, and `b` from there to `e`. */
  lemma {:induction false} TwoLinksLead(links: nat)
    ensures Resolve(TwoLinks(), [], ["a"], links) == if links == 0 then None else Some(["d"])
    ensures Resolve(TwoLinks(), ["d"], ["b"], links) == if links == 0 then None else Some(["d", "e"])
  {
    hide Resolve, Lookup, Split;
    var root := TwoLinks();
    TwoLinksPlaces();
    ResolveFirst(root, [], "a", [], links);
    ResolveFirst(root, ["d"], "b", [], links);
    assert ["a"] + [] == ["a"] && ["b"] + [] == ["b"] && ["d"] + [] == ["d"] && ["e"] + [] == ["e"];
    if links > 0 {
      ResolveFirst(root, [], "d", [], links - 1);
      ResolveFirst(root, ["d"], "e", [], links - 1);
      assert [] + ["d"] == ["d"] && ["d"] + ["e"] == ["d", "e"];
      ResolveNone(root, ["d"], links - 1);
      ResolveNone(root, ["d", "e"], links - 1);
    }
  }

  /** With a limit of one link, the disk above makes canonicalizing twice follow one link more. */
  lemma {:induction false} LimitCanMoveThePath()
    ensures !BlockedThere(TwoLinks(), ["a", "b"], 1)
  {
    hide Resolve, Lookup, Split, Existing;
    var root, p := TwoLinks(), ["a", "b"];
    TwoLinksPlaces();
    TwoLinksLead(0);
    TwoLinksLead(1);
    assert p[..1] == ["a"] && p[..2] == ["a"] + ["b"] && ["d"] + ["b"] == ["d", "b"];
    ResolveFirst(root, [], "a", ["b"], 1);
    ResolveFirst(root, [], "d", ["b"], 0);
    ResolveFirst(root, [], "d", ["b"], 1);
    assert [] + ["d"] == ["d"];
    ExistingIs(root, p, 1, 1);
  }

  // ---- The guard ----

  datatype Refusal =
    | NoOutput
    | TraversalSegment
    | BroadPath
    | InsideCorpus
    | InsideRepository
    | NotADirectory
    | NotEmpty

  datatype Answer = Resolved(path: Path) | Refused(reason: Refusal)

  /** The disk and the places the guard knows. */
  datatype Site = Site(root: Node, links: nat, cwd: Path, repo: Path, home: Path, tmp: Path)

  predicate GoodSite(site: Site) {
    Valid(site.root) && ValidPath(site.cwd) && ValidPath(site.repo)
  }

  /** `hasTraversalSegment`. */
  predicate HasTraversal(raw: string) {
    ".." in Split(Replace(raw, '\\', '/'), '/')
  }

  /** `realIfExists`. */
  function RealIfExists(site: Site, p: Path): Path {
    if Exists(site.root, p, site.links) then Real(site.root, p, site.links).value else p
  }

  const STRESS: Path := ["benchmarks", "fixtures", "stress"]

  /** `isBroadUnsafePath`. */
  predicate Broad(site: Site, p: Path) {
    exists b :: b in BroadPaths(site) && p == RealIfExists(site, b)
  }

  function BroadPaths(site: Site): seq<Path> {
    [[], ["tmp"], ["private", "tmp"], ["var"], ["usr"], ["etc"], site.home, site.tmp,
     site.repo, site.repo + STRESS[..1], site.repo + STRESS[..2], site.repo + STRESS]
  }

  /** The canonical path lies in the repository, as the guard sees it. */
  predicate InRepo(site: Site, p: Path) {
    IsInside(p, RealIfExists(site, site.repo))
  }

  predicate InCorpus(site: Site, p: Path) {
    || IsInside(p, RealIfExists(site, site.repo + STRESS + ["legacy"]))
    || IsInside(p, RealIfExists(site, site.repo + STRESS + ["replay-frozen"]))
  }

  /** What is wrong with an output directory that exists already. */
  function Occupied(site: Site, p: Path, overwrite: bool): Option<Refusal> {
    var at := Real(site.root, p, site.links);
    if at.None? then None
    else
      var target := Lookup(site.root, at.value);
      if target.None? || !target.value.Dir? then Some(NotADirectory)
      else if target.value.children != map[] && !overwrite then Some(NotEmpty)
      else None
  }

  /** `resolveScaffoldOutputPath`. */
  function Guard(site: Site, output: string, overwrite: bool, allowCorpus: bool): Answer {
    var raw := Trim(output);
    if raw == "" then Refused(NoOutput)
    else if HasTraversal(raw) then Refused(TraversalSegment)
    else GuardPath(site, Normalize(site.cwd, raw), overwrite, allowCorpus)
  }

  /** The guard from the lexically resolved path on. */
  function GuardPath(site: Site, abs: Path, overwrite: bool, allowCorpus: bool): Answer {
    var canonical := Canonical(site.root, abs, site.links);
    if Broad(site, canonical) then Refused(BroadPath)
    else if InRepo(site, canonical) && !(allowCorpus && InCorpus(site, canonical)) then
      Refused(if InCorpus(site, canonical) then InsideCorpus else InsideRepository)
    else
      var inspect := if Exists(site.root, canonical, site.links) then canonical else abs;
      var occupied := Occupied(site, inspect, overwrite);
      if occupied.Some? then Refused(occupied.value) else Resolved(canonical)
  }

  /** `writeDeterministicStressScaffolds`, up to the point where it starts to write. */
  method ConfirmOutput(site: Site, output: string, overwrite: bool, allowCorpus: bool) returns (root: Option<Path>)
    requires GoodSite(site)
    ensures root.Some? ==>
              && Guard(site, output, overwrite, allowCorpus) == Resolved(root.value)
              && Guard(site, PathText(root.value), overwrite, allowCorpus) == Resolved(root.value)
    ensures root.None? ==>
              || Guard(site, output, overwrite, allowCorpus).Refused?
              || Guard(site, PathText(Guard(site, output, overwrite, allowCorpus).path), overwrite, allowCorpus) !=
                 Guard(site, output, overwrite, allowCorpus)
  {
    var outputRoot := Guard(site, output, overwrite, allowCorpus);
    if outputRoot.Refused? {
      return None;
    }
    var confirmed := Guard(site, PathText(outputRoot.path), overwrite, allowCorpus);
    if confirmed != outputRoot {
      return None;
    }
    root := Some(outputRoot.path);
  }

  lemma {:induction false} CanonicalIsValid(root: Node, p: Path, links: nat)
    requires Valid(root) && ValidPath(p)
    ensures ValidPath(Canonical(root, p, links))
  {
    AnchorIsReal(root, p, links);
  }

  /** The path of a resolved output exists only if the canonical path does. */
  lemma {:induction false} ExistsWhenResolved(root: Node, p: Path, links: nat)
    requires Valid(root) && ValidPath(p) && Exists(root, p, links)
    ensures Exists(root, Canonical(root, p, links), links)
  {
    assert p[..|p|] == p;
    ExistingIs(root, p, links, |p|);
    AnchorIsReal(root, p, links);
    var r := Anchor(root, p, links);
    RealPartExists(root, r, [], links);
    assert p[|p|..] == [] && r + [] == r;
  }

  /** The guard run again on a path it returned. */
  lemma {:induction false} GuardPathAgain(site: Site, abs: Path, overwrite: bool, allowCorpus: bool)
    requires GoodSite(site) && ValidPath(abs) && GuardPath(site, abs, overwrite, allowCorpus).Resolved?
    ensures var c := GuardPath(site, abs, overwrite, allowCorpus).path;
            GuardPath(site, c, overwrite, allowCorpus) == Resolved(c) <==> BlockedThere(site.root, abs, site.links)
  {
    hide Broad, InRepo, InCorpus, Occupied, BlockedThere, Existing, Real;
    var c := Canonical(site.root, abs, site.links);
    CanonicalTwiceExactly(site.root, abs, site.links);
    if Exists(site.root, abs, site.links) {
      ExistsWhenResolved(site.root, abs, site.links);
    }
    NothingThere(site, abs, overwrite);
    NothingThere(site, c, overwrite);
  }

  lemma {:induction false} NothingThere(site: Site, p: Path, overwrite: bool)
    ensures !Exists(site.root, p, site.links) ==> Occupied(site, p, overwrite).None?
  {
  }

  lemma {:induction false} GuardAgain(site: Site, c: Path, overwrite: bool, allowCorpus: bool)
    requires ValidPath(c) && IsTrimmed(PathText(c)) && !HasTraversal(PathText(c))
    ensures Guard(site, PathText(c), overwrite, allowCorpus) == GuardPath(site, c, overwrite, allowCorpus)
  {
    hide GuardPath, HasTraversal, Normalize;
    NormalizeInvertsText(site.cwd, c);
    assert PathText(c) != "";
  }

  lemma {:induction false} NormalizeIsValid(cwd: Path, raw: string)
    requires ValidPath(cwd)
    ensures ValidPath(Normalize(cwd, raw))
  {
    WalkIsValid(if Absolute(raw) then [] else cwd, Split(raw, '/'));
  }

  /**
   * MAIN RESULT. On an unchanged disk, and when the path the guard returned prints without edge
   * white space and without a traversal segment, the writer's second call returns the same path if
   * and only if the first missing name is also missing when it is looked up from the real ancestor.
   */
  lemma {:induction false} SecondCallAgreesExactly(site: Site, output: string, overwrite: bool, allowCorpus: bool)
    requires GoodSite(site) && Guard(site, output, overwrite, allowCorpus).Resolved?
    requires var text := PathText(Guard(site, output, overwrite, allowCorpus).path);
             IsTrimmed(text) && !HasTraversal(text)
    ensures var c := Guard(site, output, overwrite, allowCorpus).path;
            Guard(site, PathText(c), overwrite, allowCorpus) == Resolved(c) <==>
            BlockedThere(site.root, Normalize(site.cwd, Trim(output)), site.links)
  {
    hide Trim, Normalize, GuardPath, BlockedThere, HasTraversal;
    var abs := Normalize(site.cwd, Trim(output));
    NormalizeIsValid(site.cwd, Trim(output));
    var c := Guard(site, output, overwrite, allowCorpus).path;
    GuardReturnsCanonical(site, abs, overwrite, allowCorpus);
    CanonicalIsValid(site.root, abs, site.links);
    GuardPathAgain(site, abs, overwrite, allowCorpus);
    GuardAgain(site, c, overwrite, allowCorpus);
  }

  /** So it does whenever the limit on links does not cut the path short. */
  lemma {:induction false} SecondCallAgrees(site: Site, output: string, overwrite: bool, allowCorpus: bool)
    requires GoodSite(site) && Guard(site, output, overwrite, allowCorpus).Resolved?
    requires WithinLimit(site.root, Normalize(site.cwd, Trim(output)), site.links)
    requires var text := PathText(Guard(site, output, overwrite, allowCorpus).path);
             IsTrimmed(text) && !HasTraversal(text)
    ensures var c := Guard(site, output, overwrite, allowCorpus).path;
            Guard(site, PathText(c), overwrite, allowCorpus) == Resolved(c)
  {
    hide Trim, Normalize, Guard, GuardPath, BlockedThere, HasTraversal, WithinLimit;
    NormalizeIsValid(site.cwd, Trim(output));
    BlockedWithinLimit(site.root, Normalize(site.cwd, Trim(output)), site.links);
    SecondCallAgreesExactly(site, output, overwrite, allowCorpus);
  }

  lemma {:induction false} GuardReturnsCanonical(site: Site, abs: Path, overwrite: bool, allowCorpus: bool)
    ensures var g := GuardPath(site, abs, overwrite, allowCorpus);
            g.Resolved? ==> g.path == Canonical(site.root, abs, site.links)
                            && (InRepo(site, g.path) ==> allowCorpus && InCorpus(site, g.path))
  {
    hide Broad, InRepo, InCorpus, Occupied, Canonical;
  }

  /**
   * MAIN RESULT. A path the guard returns is outside the repository, unless the corpus was opted
   * into and the path is in it, or the path runs below the repository through a name that starts
   * with two dots.
   */
  lemma {:induction false} ResolvedIsOutsideRepository(site: Site, output: string, overwrite: bool, allowCorpus: bool)
    requires Guard(site, output, overwrite, allowCorpus).Resolved?
    ensures var c := Guard(site, output, overwrite, allowCorpus).path; var repo := RealIfExists(site, site.repo);
            || (allowCorpus && InCorpus(site, c))
            || !(repo <= c)
            || (repo < c && StartsWithDots(c[|repo|]))
  {
    hide Trim, GuardPath, InCorpus, HasTraversal;
    GuardReturnsCanonical(site, Normalize(site.cwd, Trim(output)), overwrite, allowCorpus);
    var c := Guard(site, output, overwrite, allowCorpus).path;
    IsInsideMeans(c, RealIfExists(site, site.repo));
  }

  // ---- What the guard decides, in terms of the disk and the places alone ----

  /** `c` is the place that `p` names: where it leads, or its own name when it leads nowhere. */
  predicate Names(site: Site, p: Path, c: Path) {
    match Real(site.root, p, site.links)
    case Some(at) => c == at
    case None => c == p
  }

  /** `c` is the root, a system directory, a home or temporary directory, or the repository or above its corpus. */
  predicate TooBroad(site: Site, c: Path) {
    || c == []
    || Names(site, ["tmp"], c) || Names(site, ["private", "tmp"], c)
    || Names(site, ["var"], c) || Names(site, ["usr"], c) || Names(site, ["etc"], c)
    || Names(site, site.home, c) || Names(site, site.tmp, c) || Names(site, site.repo, c)
    || Names(site, site.repo + ["benchmarks"], c)
    || Names(site, site.repo + ["benchmarks", "fixtures"], c)
    || Names(site, site.repo + ["benchmarks", "fixtures", "stress"], c)
  }

  /** `c` is the place that `p` names or lies below it, but not below a name with two leading dots. */
  predicate Within(site: Site, p: Path, c: Path) {
    var at := Real(site.root, p, site.links).GetOr(p);
    at <= c && (|at| < |c| ==> !(".." <= c[|at|]))
  }

  predicate WithinCorpus(site: Site, c: Path) {
    || Within(site, site.repo + ["benchmarks", "fixtures", "stress", "legacy"], c)
    || Within(site, site.repo + ["benchmarks", "fixtures", "stress", "replay-frozen"], c)
  }

  /** What `c` leads to, if anything, is a directory. */
  predicate IsDirectory(site: Site, c: Path) {
    match Real(site.root, c, site.links)
    case None => true
    case Some(at) => Lookup(site.root, at).Some? && Lookup(site.root, at).value.Dir?
  }

  predicate IsEmpty(site: Site, c: Path) {
    match Real(site.root, c, site.links)
    case None => true
    case Some(at) => Lookup(site.root, at) == Some(Dir(map[]))
  }

  lemma {:induction false} BroadMeans(site: Site, c: Path)
    ensures Broad(site, c) <==> TooBroad(site, c)
  {
    hide Resolve;
    var b := BroadPaths(site);
    assert Real(site.root, [], site.links) == Some([]) by {
      ResolveNone(site.root, [], site.links);
    }
    assert STRESS[..1] == ["benchmarks"] && STRESS[..2] == ["benchmarks", "fixtures"];
    assert forall p :: c == RealIfExists(site, p) <==> Names(site, p, c);
    if TooBroad(site, c) {
      assert b[0] in b && b[1] in b && b[2] in b && b[3] in b && b[4] in b && b[5] in b;
      assert b[6] in b && b[7] in b && b[8] in b && b[9] in b && b[10] in b && b[11] in b;
    }
  }

  lemma {:induction false} InsideMeans(site: Site, c: Path)
    ensures InRepo(site, c) <==> Within(site, site.repo, c)
    ensures InCorpus(site, c) <==> WithinCorpus(site, c)
  {
    hide Resolve;
    IsInsideMeans(c, RealIfExists(site, site.repo));
    var legacy, frozen := ["benchmarks", "fixtures", "stress", "legacy"],
        ["benchmarks", "fixtures", "stress", "replay-frozen"];
    assert site.repo + STRESS + ["legacy"] == site.repo + legacy;
    assert site.repo + STRESS + ["replay-frozen"] == site.repo + frozen;
    IsInsideMeans(c, RealIfExists(site, site.repo + legacy));
    IsInsideMeans(c, RealIfExists(site, site.repo + frozen));
  }

  lemma {:induction false} OccupiedMeans(site: Site, abs: Path, overwrite: bool)
    requires GoodSite(site) && ValidPath(abs)
    ensures var c := Canonical(site.root, abs, site.links);
            Occupied(site, if Exists(site.root, c, site.links) then c else abs, overwrite) ==
            if !IsDirectory(site, c) then Some(NotADirectory)
            else if !IsEmpty(site, c) && !overwrite then Some(NotEmpty)
            else None
  {
    hide Resolve, Lookup, Canonical;
    if Exists(site.root, abs, site.links) {
      ExistsWhenResolved(site.root, abs, site.links);
    }
  }

  /**
   * MAIN RESULT, with its exact conditions, in the order in which they count. An output is refused when it
   * is blank or goes up, when it leads to a broad place or into the repository without the corpus opt-in,
   * or to what is no directory, or to a directory that is not empty and not to be overwritten. Everything
   * else is resolved, to its canonical path.
   */
  lemma {:induction false} GuardDecides(site: Site, output: string, overwrite: bool, allowCorpus: bool)
    requires GoodSite(site)
    ensures var raw := Trim(output);
            var c := Canonical(site.root, Normalize(site.cwd, raw), site.links);
            Guard(site, output, overwrite, allowCorpus) ==
            if raw == "" then Refused(NoOutput)
            else if ".." in Split(Replace(raw, '\\', '/'), '/') then Refused(TraversalSegment)
            else if TooBroad(site, c) then Refused(BroadPath)
            else if Within(site, site.repo, c) && !WithinCorpus(site, c) then Refused(InsideRepository)
            else if Within(site, site.repo, c) && !allowCorpus then Refused(InsideCorpus)
            else if !IsDirectory(site, c) then Refused(NotADirectory)
            else if !IsEmpty(site, c) && !overwrite then Refused(NotEmpty)
            else Resolved(c)
  {
    hide Trim, Normalize, Canonical, Broad, TooBroad, InRepo, InCorpus, Within, WithinCorpus, Occupied, IsDirectory,
        IsEmpty, Exists;
    var abs := Normalize(site.cwd, Trim(output));
    var c := Canonical(site.root, abs, site.links);
    NormalizeIsValid(site.cwd, Trim(output));
    BroadMeans(site, c);
    InsideMeans(site, c);
    OccupiedMeans(site, abs, overwrite);
  }
}
