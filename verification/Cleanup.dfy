/**
 * The clean-up of a trial: one listed path after the other is checked and removed
 * (benchmarks/agentAcceptancePilot/fs.ts:193-208).
 */
module Cleanup {
  import opened Options
  import opened FileTree
  import opened Inside
  import opened Removal

  // ---- The whole list ----

  /** Every link on the list lies in the temporary directory. */
  ghost predicate LinksInTmp(root: Node, links: nat, dirs: seq<Listed>, tmp: Path) {
    forall d | d in dirs :: LinkInTmp(root, links, d, tmp)
  }

  predicate LinkInTmp(root: Node, links: nat, d: Listed, tmp: Path) {
    var at := Locate(root, d.path, links); at.Some? && Lookup(root, at.value).value.Link? ==> tmp < at.value
  }

  /** No listed path lies inside the repository as a link, or hides from it behind a name with two dots. */
  ghost predicate AllApart(root: Node, links: nat, dirs: seq<Listed>, repo: Path) {
    forall d | d in dirs :: Apart(root, links, d, repo)
  }

  predicate Apart(root: Node, links: nat, d: Listed, repo: Path) {
    var at := Locate(root, d.path, links);
    at.Some? ==> if Lookup(root, at.value).value.Link? then !(repo <= at.value) else !HiddenByDots(at.value, repo)
  }

  ghost predicate SparesOutside(before: Node, after: Node, tmp: Path) {
    forall q: Path | !(tmp <= q) && !(q <= tmp) :: Lookup(after, q) == Lookup(before, q)
  }

  lemma {:induction false} LinkInTmpBelow(a: Node, b: Node, links: nat, d: Listed, tmp: Path)
    requires Less(a, b) && LinkInTmp(b, links, d, tmp)
    ensures LinkInTmp(a, links, d, tmp)
  {
    if Locate(a, d.path, links).Some? {
      LessLocate(a, b, d.path, links);
      LocateLooksUp(a, d.path, links);
      LessLookup(a, b, Locate(a, d.path, links).value);
    }
  }

  lemma {:induction false} ApartBelow(a: Node, b: Node, links: nat, d: Listed, repo: Path)
    requires Less(a, b) && Apart(b, links, d, repo)
    ensures Apart(a, links, d, repo)
  {
    if Locate(a, d.path, links).Some? {
      LessLocate(a, b, d.path, links);
      LocateLooksUp(a, d.path, links);
      LessLookup(a, b, Locate(a, d.path, links).value);
    }
  }

  lemma {:induction false} ValidBelow(a: Node, b: Node)
    requires Less(a, b) && Valid(b)
    ensures Valid(a)
    decreases b
  {
    if b.Dir? {
      forall k | k in a.children ensures ValidName(k) && Valid(a.children[k]) {
        ValidBelow(a.children[k], b.children[k]);
      }
    }
  }

  lemma {:induction false} AcceptedNode(root: Node, links: nat, dir: Listed, allow: set<Listed>, places: Places)
    returns (at: Path, node: Node)
    requires Valid(root) && root.Dir? && ValidPath(dir.path) && Check(root, links, dir, allow, places).Accepted?
    ensures dir.path != [] && at != [] && Locate(root, dir.path, links) == Some(at) && Lookup(root, at) == Some(node)
            && Valid(node)
  {
    at := Locate(root, dir.path, links).value;
    LocateLooksUp(root, dir.path, links);
    node := Lookup(root, at).value;
    if node.Link? {
      AcceptedLink(root, links, dir, allow, places);
    } else {
      AcceptedDirectory(root, links, dir, allow, places);
    }
    ValidLookup(root, at);
  }

  /** What passes is inside the temporary directory, when every listed link is. */
  lemma {:induction false} PassedInTmp(root: Node, links: nat, dir: Listed, dirs: seq<Listed>, allow: set<Listed>,
                                       places: Places)
    requires dir in dirs && LinksInTmp(root, links, dirs, places.tmp) && ValidPath(dir.path)
    requires Check(root, links, dir, allow, places).Accepted?
    ensures Locate(root, dir.path, links).Some? && places.tmp < Locate(root, dir.path, links).value
  {
    assert LinkInTmp(root, links, dir, places.tmp);
    LocateLooksUp(root, dir.path, links);
    var at := Locate(root, dir.path, links).value;
    if !Lookup(root, at).value.Link? {
      AcceptedDirectory(root, links, dir, allow, places);
    }
  }

  lemma {:induction false} RemovedBelow(start: Node, before: Node, at: Path, left: Option<Node>)
    requires Less(before, start) && Valid(before) && before.Dir? && at != [] && Lookup(before, at).Some?
    requires left.Some? ==> Less(left.value, Lookup(before, at).value)
    ensures var after := Graft(before, at, left); Less(after, start) && Valid(after) && after.Dir?
  {
    LessGraft(before, at, left);
    LessTransitive(Graft(before, at, left), before, start);
    ValidBelow(Graft(before, at, left), before);
  }

  lemma {:induction false} RepositoryStep(root: Node, links: nat, dir: Listed, dirs: seq<Listed>, allow: set<Listed>,
                                          places: Places, left: Option<Node>)
    requires dir in dirs && AllApart(root, links, dirs, places.repo) && ValidPath(dir.path)
    requires Check(root, links, dir, allow, places).Accepted? && Lookup(root, places.repo).Some?
    ensures Locate(root, dir.path, links).Some?
    ensures Lookup(Graft(root, Locate(root, dir.path, links).value, left), places.repo) == Lookup(root, places.repo)
  {
    assert Apart(root, links, dir, places.repo);
    LocateLooksUp(root, dir.path, links);
    var at := Locate(root, dir.path, links).value;
    var repo := places.repo;
    if Lookup(root, at).value.Link? {
      if at <= repo {
        assert at + repo[|at|..] == repo;
        LookupSum(root, at, repo[|at|..]);
      }
    } else {
      AcceptedDirectory(root, links, dir, allow, places);
      AcceptedReal(at, places);
    }
    assert !(at <= repo) && !(repo <= at);
    LookupGraft(root, at, left, repo);
  }

  lemma {:induction false} SparedStep(start: Node, before: Node, at: Path, left: Option<Node>, tmp: Path)
    requires SparesOutside(start, before, tmp) && Lookup(before, at).Some? && tmp < at
    ensures SparesOutside(start, Graft(before, at, left), tmp)
  {
    forall q: Path | !(tmp <= q) && !(q <= tmp)
      ensures Lookup(Graft(before, at, left), q) == Lookup(start, q)
    {
      BelowTmpSpares(before, at, left, tmp, q);
    }
  }

  // ---- What the loop does, as a function of the tree ----

  /** How many listed paths are removed, the tree without them, and the verdict the loop ends with. */
  datatype CleanUp = CleanUp(count: nat, tree: Node, verdict: Verdict)

  function Without(root: Node, links: nat, d: Listed): Node {
    var at := Locate(root, d.path, links);
    if at.Some? && at.value != [] then Graft(root, at.value, None) else root
  }

  /** Each path in turn is checked and must survive its own removal. */
  function Clean(root: Node, links: nat, dirs: seq<Listed>, allow: set<Listed>, places: Places): (c: CleanUp)
    ensures c.count <= |dirs|
    decreases |dirs|
  {
    if dirs == [] then CleanUp(0, root, Accepted)
    else
      var verdict := Check(root, links, dirs[0], allow, places);
      if verdict.Refused? then CleanUp(0, root, verdict)
      else if !Survives(root, dirs[0].path, links) then CleanUp(0, root, Accepted)
      else
        var rest := Clean(Without(root, links, dirs[0]), links, dirs[1..], allow, places);
        rest.(count := rest.count + 1)
  }

  /** `new Set(dirs)`. */
  function AllowOf(dirs: seq<Listed>): set<Listed> {
    set d | d in dirs
  }

  predicate ValidPaths(dirs: seq<Listed>) {
    forall d | d in dirs :: ValidPath(d.path)
  }

  predicate Standing(root: Node, dirs: seq<Listed>) {
    Valid(root) && root.Dir? && ValidPaths(dirs)
  }

  /** What the first step of a clean-up that takes one leaves. */
  lemma {:induction false} FirstRemoved(root: Node, links: nat, dirs: seq<Listed>, allow: set<Listed>, places: Places)
    returns (at: Path, next: Node)
    requires dirs != [] && Standing(root, dirs) && Check(root, links, dirs[0], allow, places).Accepted?
    ensures dirs[0].path != [] && at != [] && Locate(root, dirs[0].path, links) == Some(at) && Lookup(root, at).Some?
    ensures next == Without(root, links, dirs[0]) == Graft(root, at, None)
    ensures Less(next, root) && Standing(next, dirs[1..]) && Lookup(next, at).None?
  {
    var node;
    assert dirs[0] in dirs && forall d | d in dirs[1..] :: d in dirs;
    at, node := AcceptedNode(root, links, dirs[0], allow, places);
    LessSame(root);
    RemovedBelow(root, root, at, None);
    LookupGraft(root, at, None, at);
    next := Graft(root, at, None);
  }

  lemma {:induction false} CleanTree(root: Node, links: nat, dirs: seq<Listed>, allow: set<Listed>, places: Places)
    requires Standing(root, dirs)
    ensures var c := Clean(root, links, dirs, allow, places);
            && Less(c.tree, root) && Valid(c.tree) && c.tree.Dir?
            && (c.count == |dirs| ==> c.verdict.Accepted?)
            && (c.count < |dirs| ==> c.verdict == Check(c.tree, links, dirs[c.count], allow, places))
    decreases |dirs|
  {
    hide Check, Survives, Locate, Graft, Less, Valid;
    LessSame(root);
    if dirs != [] && Check(root, links, dirs[0], allow, places).Accepted? && Survives(root, dirs[0].path, links) {
      var at, next := FirstRemoved(root, links, dirs, allow, places);
      CleanTree(next, links, dirs[1..], allow, places);
      LessTransitive(Clean(next, links, dirs[1..], allow, places).tree, next, root);
    }
  }

  /** When everything was removed, each listed path denoted something at the start, and its place is empty. */
  lemma {:induction false} PlacesEmptied(root: Node, links: nat, dirs: seq<Listed>, allow: set<Listed>, places: Places,
                                         d: Listed)
    requires Standing(root, dirs) && d in dirs && Clean(root, links, dirs, allow, places).count == |dirs|
    ensures Locate(root, d.path, links).Some? && Lookup(root, Locate(root, d.path, links).value).Some?
    ensures d.path != [] && Lookup(Clean(root, links, dirs, allow, places).tree,
                                   Locate(root, d.path, links).value).None?
    decreases |dirs|
  {
    hide Check, Survives, Locate, Graft, Less, Valid, Lookup;
    var at, next := FirstRemoved(root, links, dirs, allow, places);
    var tree := Clean(next, links, dirs[1..], allow, places).tree;
    if d == dirs[0] {
      CleanTree(next, links, dirs[1..], allow, places);
      LessLookupHere(tree, next, at);
    } else {
      assert dirs == [dirs[0]] + dirs[1..];
      PlacesEmptied(next, links, dirs[1..], allow, places, d);
      LessLocate(next, root, d.path, links);
      LocateLooksUp(root, d.path, links);
    }
  }

  /** Nothing removed denotes anything any more. */
  lemma {:induction false} CleanIsGone(root: Node, links: nat, dirs: seq<Listed>, allow: set<Listed>, places: Places)
    requires Standing(root, dirs) && Clean(root, links, dirs, allow, places).count == |dirs|
    ensures Gone(Clean(root, links, dirs, allow, places).tree, links, dirs)
  {
    hide Clean, Locate, Less, Lookup, Valid;
    var tree := Clean(root, links, dirs, allow, places).tree;
    CleanTree(root, links, dirs, allow, places);
    forall d | d in dirs
      ensures Locate(tree, d.path, links).None?
    {
      PlacesEmptied(root, links, dirs, allow, places, d);
      if Locate(tree, d.path, links).Some? {
        LessLocate(tree, root, d.path, links);
        LocateLooksUp(tree, d.path, links);
      }
    }
  }

  /** No path in the list denotes anything any more. */
  ghost predicate Gone(root: Node, links: nat, dirs: seq<Listed>) {
    forall d | d in dirs :: Locate(root, d.path, links).None?
  }

  lemma {:induction false} LinksStayInTmp(a: Node, b: Node, links: nat, dirs: seq<Listed>, tmp: Path)
    requires Less(a, b) && LinksInTmp(b, links, dirs, tmp)
    ensures LinksInTmp(a, links, dirs, tmp)
  {
    forall d | d in dirs
      ensures LinkInTmp(a, links, d, tmp)
    {
      LinkInTmpBelow(a, b, links, d, tmp);
    }
  }

  lemma {:induction false} AllStayApart(a: Node, b: Node, links: nat, dirs: seq<Listed>, repo: Path)
    requires Less(a, b) && AllApart(b, links, dirs, repo)
    ensures AllApart(a, links, dirs, repo)
  {
    forall d | d in dirs
      ensures Apart(a, links, d, repo)
    {
      ApartBelow(a, b, links, d, repo);
    }
  }

  /** As long as the listed links lie in the temporary directory, nothing outside of it changes. */
  lemma {:induction false} CleanSpares(root: Node, links: nat, dirs: seq<Listed>, allow: set<Listed>, places: Places)
    requires Standing(root, dirs) && LinksInTmp(root, links, dirs, places.tmp)
    ensures SparesOutside(root, Clean(root, links, dirs, allow, places).tree, places.tmp)
    decreases |dirs|
  {
    hide Check, Survives, Locate, Graft, Less, Valid, Lookup, LinkInTmp;
    if dirs != [] && Check(root, links, dirs[0], allow, places).Accepted? && Survives(root, dirs[0].path, links) {
      assert dirs[0] in dirs && forall d | d in dirs[1..] :: d in dirs;
      var at, next := FirstRemoved(root, links, dirs, allow, places);
      PassedInTmp(root, links, dirs[0], dirs, allow, places);
      SparedStep(root, root, at, None, places.tmp);
      LinksStayInTmp(next, root, links, dirs, places.tmp);
      CleanSpares(next, links, dirs[1..], allow, places);
    }
  }

  /** As long as no listed link lies in the repository and no name with two dots hides it, it does not change. */
  lemma {:induction false} CleanSparesRepository(root: Node, links: nat, dirs: seq<Listed>, allow: set<Listed>,
                                                 places: Places)
    requires Standing(root, dirs) && AllApart(root, links, dirs, places.repo) && Lookup(root, places.repo).Some?
    ensures Lookup(Clean(root, links, dirs, allow, places).tree, places.repo) == Lookup(root, places.repo)
    decreases |dirs|
  {
    hide Check, Survives, Locate, Graft, Less, Valid, Lookup, Apart;
    if dirs != [] && Check(root, links, dirs[0], allow, places).Accepted? && Survives(root, dirs[0].path, links) {
      assert dirs[0] in dirs && forall d | d in dirs[1..] :: d in dirs;
      var at, next := FirstRemoved(root, links, dirs, allow, places);
      RepositoryStep(root, links, dirs[0], dirs, allow, places, None);
      AllStayApart(next, root, links, dirs, places.repo);
      CleanSparesRepository(next, links, dirs[1..], allow, places);
    }
  }

  /**
   * MAIN RESULT, with its exact condition. When everything listed is removed, nothing outside the real
   * temporary directory changed if and only if every listed link lies in it.
   */
  lemma {:induction false} CleanSparesExactly(root: Node, links: nat, dirs: seq<Listed>, allow: set<Listed>,
                                              places: Places)
    requires Standing(root, dirs) && Physical(root, places.tmp)
    requires Clean(root, links, dirs, allow, places).count == |dirs|
    ensures SparesOutside(root, Clean(root, links, dirs, allow, places).tree, places.tmp) <==>
            LinksInTmp(root, links, dirs, places.tmp)
  {
    hide Clean, Locate, Lookup, Valid;
    var tree := Clean(root, links, dirs, allow, places).tree;
    if LinksInTmp(root, links, dirs, places.tmp) {
      CleanSpares(root, links, dirs, allow, places);
    } else {
      var d :| d in dirs && !LinkInTmp(root, links, d, places.tmp);
      PlacesEmptied(root, links, dirs, allow, places, d);
      var at := Locate(root, d.path, links).value;
      if at <= places.tmp {
        PrefixIsNoLink(root, places.tmp, at);
      }
      assert !(places.tmp <= at) && !(at <= places.tmp) && Lookup(tree, at) != Lookup(root, at);
    }
  }

  /** A physical path runs through no link. */
  lemma {:induction false} PrefixIsNoLink(root: Node, p: Path, at: Path)
    requires Physical(root, p) && root.Dir? && at <= p
    ensures Lookup(root, at).Some? && !Lookup(root, at).value.Link?
  {
    assert p[..|at|] == at;
  }

  /**
   * MAIN RESULT, with its exact condition. When everything listed is removed, the repository tree is as
   * it was if and only if no listed link lies in it and no name with two leading dots hides it.
   */
  lemma {:induction false} CleanSparesRepositoryExactly(root: Node, links: nat, dirs: seq<Listed>, allow: set<Listed>,
                                                        places: Places)
    requires Standing(root, dirs) && Lookup(root, places.repo).Some?
    requires Clean(root, links, dirs, allow, places).count == |dirs|
    ensures Lookup(Clean(root, links, dirs, allow, places).tree, places.repo) == Lookup(root, places.repo) <==>
            AllApart(root, links, dirs, places.repo)
  {
    hide Clean, Locate, Lookup, Valid;
    var tree := Clean(root, links, dirs, allow, places).tree;
    if AllApart(root, links, dirs, places.repo) {
      CleanSparesRepository(root, links, dirs, allow, places);
    } else {
      var d :| d in dirs && !Apart(root, links, d, places.repo);
      PlacesEmptied(root, links, dirs, allow, places, d);
      var at, repo := Locate(root, d.path, links).value, places.repo;
      if at <= repo {
        assert repo == at + repo[|at|..];
        LookupSum(tree, at, repo[|at|..]);
      } else {
        assert at == repo + at[|repo|..];
        LookupSum(tree, repo, at[|repo|..]);
        LookupSum(root, repo, at[|repo|..]);
      }
    }
  }

  /** A disk with a repository `/t/r` that holds a link `l`. */
  function RepositoryInTmp(): Node {
    Dir(map["t" := Dir(map["r" := Dir(map["l" := Link("x")])])])
  }

  lemma {:induction false} RepositoryInTmpPlaces()
    ensures var root := RepositoryInTmp();
            && Valid(root) && Lookup(root, ["t", "r"]).Some? && Lookup(root, ["t", "r", "l"]) == Some(Link("x"))
            && Real(root, ["t", "r"], 0) == Some(["t", "r"])
  {
    hide Resolve, Lookup;
    var root := RepositoryInTmp();
    var t := root.children["t"];
    assert Valid(t.children["r"]) && Valid(t);
    LookupHere(root);
    LookupSnoc(root, [], "t");
    LookupSnoc(root, ["t"], "r");
    LookupSnoc(root, ["t", "r"], "l");
    assert [] + ["t"] == ["t"] && ["t"] + ["r"] == ["t", "r"] && ["t", "r"] + ["l"] == ["t", "r", "l"];
    ResolveFirst(root, [], "t", ["r"], 0);
    ResolveFirst(root, ["t"], "r", [], 0);
    ResolveNone(root, ["t", "r"], 0);
    assert ["r"] + [] == ["r"];
  }

  /** A link that is located in the temporary directory by its text passes and survives. */
  lemma {:induction false} LinkPasses(root: Node, links: nat, dir: Listed, places: Places)
    requires dir.absolute && dir.path != [] && Locate(root, dir.path, links) == Some(dir.path)
    requires Lookup(root, dir.path).Some? && Lookup(root, dir.path).value.Link? && IsInside(dir.path, places.tmp)
    ensures Clean(root, links, [dir], {dir}, places).count == 1
    ensures places.repo <= dir.path ==> !AllApart(root, links, [dir], places.repo)
  {
    hide Lookup, Locate, Graft, PathText, CheckReal, Resolve, IsInside;
    assert Check(root, links, dir, {dir}, places).Accepted?;
    assert [dir][1..] == [] && dir in [dir];
    assert places.repo <= dir.path ==> !Apart(root, links, dir, places.repo);
  }

  /** A listed link in a repository that lies in the temporary directory: it passes, survives, and goes. */
  lemma {:induction false} ALinkInTheRepositoryGoes()
    ensures var root, dir := RepositoryInTmp(), Listed(true, ["t", "r", "l"]);
            var places := Places(["t"], ["h"], ["t", "r"]);
            && Standing(root, [dir]) && Lookup(root, places.repo).Some?
            && Clean(root, 0, [dir], {dir}, places).count == 1
            && Lookup(Clean(root, 0, [dir], {dir}, places).tree, places.repo) != Lookup(root, places.repo)
  {
    hide Clean, Lookup, Resolve, Valid, AllApart, IsInside;
    var root, dir := RepositoryInTmp(), Listed(true, ["t", "r", "l"]);
    var places := Places(["t"], ["h"], ["t", "r"]);
    RepositoryInTmpPlaces();
    assert dir.path[..2] == ["t", "r"] && ["t", "r"] + ["l"] == dir.path;
    IsInsideMeans(dir.path, ["t"]);
    assert ["t"] <= dir.path && !StartsWithDots("r");
    LinkPasses(root, 0, dir, places);
    CleanSparesRepositoryExactly(root, 0, [dir], {dir}, places);
  }

  // ---- Lists of plain directories ----

  /** A directory whose path runs through no link. */
  predicate Plain(root: Node, d: Listed) {
    d.path != [] && ValidPath(d.path) && Physical(root, d.path) && Lookup(root, d.path).value.Dir?
  }

  /** A plain directory is where its path says and survives, and its check does not depend on the disk. */
  lemma {:induction false} PlainMeans(root: Node, links: nat, d: Listed, allow: set<Listed>, places: Places)
    requires Plain(root, d)
    ensures Locate(root, d.path, links) == Some(d.path) && Survives(root, d.path, links)
    ensures Check(root, links, d, allow, places) ==
            if d !in allow then Refused(NotFromThisTrial)
            else if !d.absolute then Refused(RelativePath)
            else CheckReal(d.path, places)
  {
    hide CheckReal, Graft, Lookup, Resolve;
    var p := d.path;
    PhysicalRealIs(root, p, links);
    PhysicalPrefix(root, p, |p| - 1);
    PhysicalRealIs(root, p[..|p| - 1], links);
    assert p == p[..|p| - 1] + [p[|p| - 1]];
    var emptied := Graft(root, p, Some(Dir(map[])));
    StaysPhysical(root, p, Some(Dir(map[])), p[..|p| - 1]);
    PhysicalRealIs(emptied, p[..|p| - 1], links);
  }

  lemma {:induction false} PhysicalRealIs(root: Node, p: Path, links: nat)
    requires Physical(root, p) && ValidPath(p)
    ensures Real(root, p, links) == Some(p)
  {
    PhysicalResolves(root, p, 0, links);
    assert p[..0] == [] && p[0..] == p;
  }

  /** A graft leaves the physical paths that do not lead to it or below it. */
  lemma {:induction false} StaysPhysical(root: Node, at: Path, o: Option<Node>, p: Path)
    requires Physical(root, p) && at != [] && Lookup(root, at).Some? && !(at <= p)
    ensures Physical(Graft(root, at, o), p)
    ensures Lookup(root, p).value.Dir? ==> Lookup(Graft(root, at, o), p).value.Dir?
  {
    hide Graft, Lookup;
    forall i | 0 <= i <= |p|
      ensures Lookup(Graft(root, at, o), p[..i]).Some?
      ensures Lookup(root, p[..i]).Some? && Lookup(Graft(root, at, o), p[..i]).value.Link? ==>
              Lookup(root, p[..i]).value.Link?
      ensures Lookup(root, p[..i]).Some?
      ensures Lookup(root, p[..i]).value.Dir? ==> Lookup(Graft(root, at, o), p[..i]).value.Dir?
    {
      PhysicalPrefix(root, p, i);
      LookupGraft(root, at, o, p[..i]);
      assert at <= p[..i] ==> at <= p;
    }
    assert p[..|p|] == p;
  }

  /** No path of the list lies at or below an earlier one. */
  predicate Ordered(dirs: seq<Listed>) {
    forall i, j | 0 <= i < j < |dirs| :: !(dirs[i].path <= dirs[j].path)
  }

  /**
   * MAIN RESULT, with its exact condition. A list of directories that are plain at the start is removed
   * as a whole if and only if each of them is allowed, absolute and removable by its path, and none lies at
   * or below an earlier one.
   */
  lemma {:induction false} PlainListIsRemovedExactly(root: Node, links: nat, dirs: seq<Listed>, allow: set<Listed>,
                                                     places: Places)
    requires Standing(root, dirs) && forall d | d in dirs :: Plain(root, d)
    ensures Clean(root, links, dirs, allow, places).count == |dirs| <==>
            Ordered(dirs) && forall d | d in dirs :: d in allow && d.absolute && Removable(d.path, places)
    decreases |dirs|
  {
    hide Check, Survives, Locate, Graft, Less, Lookup, Plain, Valid, Ordered, Clean, CheckReal, Removable;
    CleanFirst(root, links, dirs, allow, places);
    if dirs == [] {
      OrderedNone();
    } else {
      var d, rest := dirs[0], dirs[1..];
      assert dirs == [d] + rest && d in dirs;
      PlainMeans(root, links, d, allow, places);
      CheckRealDecides(d.path, places);
      if Check(root, links, d, allow, places).Accepted? {
        var at, next := FirstRemoved(root, links, dirs, allow, places);
        OrderedStep(dirs);
        if forall e | e in rest :: !(d.path <= e.path) {
          forall e | e in rest
            ensures Plain(next, e)
          {
            PlainStays(root, at, e);
          }
          PlainListIsRemovedExactly(next, links, rest, allow, places);
        } else {
          var e :| e in rest && d.path <= e.path;
          BelowIsNotRemoved(root, next, links, at, rest, e, allow, places);
        }
      }
    }
  }

  lemma {:induction false} OrderedNone()
    ensures Ordered([])
  {
  }

  /** A plain directory at or below what went is not removed. */
  lemma {:induction false} BelowIsNotRemoved(root: Node, next: Node, links: nat, at: Path, rest: seq<Listed>, e: Listed,
                                             allow: set<Listed>, places: Places)
    requires Plain(root, e) && e in rest && at <= e.path && Less(next, root) && Lookup(next, at).None?
    requires Standing(next, rest)
    ensures Clean(next, links, rest, allow, places).count < |rest|
  {
    hide Check, Survives, Locate, Graft, Less, Lookup, Plain, CheckReal, Clean;
    PlainMeans(root, links, e, allow, places);
    BelowIsGone(root, next, links, at, e);
    if Clean(next, links, rest, allow, places).count == |rest| {
      PlacesEmptied(next, links, rest, allow, places, e);
    }
  }

  lemma {:induction false} OrderedStep(dirs: seq<Listed>)
    requires dirs != []
    ensures Ordered(dirs) <==> Ordered(dirs[1..]) && forall e | e in dirs[1..] :: !(dirs[0].path <= e.path)
  {
    var rest := dirs[1..];
    if Ordered(rest) && forall e | e in rest :: !(dirs[0].path <= e.path) {
      forall i, j | 0 <= i < j < |dirs|
        ensures !(dirs[i].path <= dirs[j].path)
      {
        assert dirs[j] == rest[j - 1] && rest[j - 1] in rest;
        assert i > 0 ==> dirs[i] == rest[i - 1];
      }
    }
    if Ordered(dirs) {
      forall i, j | 0 <= i < j < |rest|
        ensures !(rest[i].path <= rest[j].path)
      {
        assert dirs[i + 1] == rest[i] && dirs[j + 1] == rest[j];
      }
      forall e | e in rest
        ensures !(dirs[0].path <= e.path)
      {
        var j :| 0 <= j < |rest| && rest[j] == e;
        assert dirs[j + 1] == e;
      }
    }
  }

  lemma {:induction false} PlainStays(root: Node, at: Path, d: Listed)
    requires Plain(root, d) && at != [] && Lookup(root, at).Some? && !(at <= d.path)
    ensures Plain(Graft(root, at, None), d)
  {
    StaysPhysical(root, at, None, d.path);
  }

  /** A path that led to `at` or below it leads nowhere once `at` is gone. */
  lemma {:induction false} BelowIsGone(root: Node, next: Node, links: nat, at: Path, e: Listed)
    requires Less(next, root) && Lookup(next, at).None? && at <= e.path && Locate(root, e.path, links) == Some(e.path)
    ensures Locate(next, e.path, links).None?
  {
    if Locate(next, e.path, links).Some? {
      LessLocate(next, root, e.path, links);
      LocateLooksUp(next, e.path, links);
      assert e.path == at + e.path[|at|..];
      LookupSum(next, at, e.path[|at|..]);
    }
  }

  // ---- The loop ----

  /** How the loop leaves the disk: cleaned up, or with one directory `left` half removed. */
  ghost predicate CameTo(c: CleanUp, links: nat, dirs: seq<Listed>, end: Node, ok: bool, left: Option<Node>) {
    if ok then end == c.tree
    else
      && c.count < |dirs| && c.verdict.Accepted? && left.Some?
      && var at := Locate(c.tree, dirs[c.count].path, links);
         at.Some? && at.value != [] && Less(left.value, Lookup(c.tree, at.value).value)
             && end == Graft(c.tree, at.value, left)
  }

  lemma {:induction false} PlainCleans(root: Node, links: nat, dirs: seq<Listed>, places: Places)
    requires Standing(root, dirs)
    ensures (forall d | d in dirs :: Plain(root, d)) ==>
              (Clean(root, links, dirs, AllowOf(dirs), places).count == |dirs| <==>
               Ordered(dirs) && forall d | d in dirs :: d.absolute && Removable(d.path, places))
  {
    hide Clean, Plain, Ordered, Removable, Valid;
    if forall d | d in dirs :: Plain(root, d) {
      PlainListIsRemovedExactly(root, links, dirs, AllowOf(dirs), places);
    }
  }

  /**
   * `removeExactHarnessDirs`: checks and removes one path after the other, and stops at the first that
   * is refused or does not survive. The rest of its `ensures` holds however it stops.
   */
  method RemoveExactHarnessDirs(disk: Disk, dirs: seq<Listed>, places: Places)
    returns (removed: seq<Listed>, verdict: Verdict, ok: bool, ghost left: Option<Node>)
    requires Standing(disk.root, dirs)
    modifies disk
    ensures var c := Clean(old(disk.root), disk.links, dirs, AllowOf(dirs), places);
            && removed == dirs[..c.count] && verdict == c.verdict
            && (ok <==> c.verdict.Refused? || c.count == |dirs|)
            && CameTo(c, disk.links, dirs, disk.root, ok, left)
    ensures verdict.Accepted? && ok ==> removed == dirs && Gone(disk.root, disk.links, dirs)
    ensures (forall d | d in dirs :: Plain(old(disk.root), d)) ==>
              (removed == dirs <==> Ordered(dirs) && forall d | d in dirs :: d.absolute && Removable(d.path, places))
    ensures Less(disk.root, old(disk.root))
    ensures LinksInTmp(old(disk.root), disk.links, dirs, places.tmp) ==>
              SparesOutside(old(disk.root), disk.root, places.tmp)
    ensures Lookup(old(disk.root), places.repo).Some? && AllApart(old(disk.root), disk.links, dirs, places.repo) ==>
              Lookup(disk.root, places.repo) == Lookup(old(disk.root), places.repo)
    ensures verdict.Accepted? && ok && Physical(old(disk.root), places.tmp) ==>
              (SparesOutside(old(disk.root), disk.root, places.tmp) <==>
               LinksInTmp(old(disk.root), disk.links, dirs, places.tmp))
    ensures verdict.Accepted? && ok && Lookup(old(disk.root), places.repo).Some? ==>
              (Lookup(disk.root, places.repo) == Lookup(old(disk.root), places.repo) <==>
               AllApart(old(disk.root), disk.links, dirs, places.repo))
  {
    hide Less, Locate, Lookup, Valid, LinksInTmp, AllApart, SparesOutside, Gone, Check, Graft, Survives, Clean,
        Physical, Plain, Ordered, Removable;
    removed, verdict, ok, left := [], Accepted, true, None;
    var allow := AllowOf(dirs);
    var i := 0;
    ghost var start := disk.root;
    ghost var c := Clean(start, disk.links, dirs, allow, places);
    assert dirs[0..] == dirs;
    PlainCleans(start, disk.links, dirs, places);
    while i < |dirs|
      invariant 0 <= i <= |dirs| && removed == dirs[..i] && verdict.Accepted? && ok
      invariant Standing(disk.root, dirs[i..])
      invariant var rest := Clean(disk.root, disk.links, dirs[i..], allow, places);
                c == rest.(count := i + rest.count)
    {
      var dir := dirs[i];
      ghost var before := disk.root;
      CleanFirst(before, disk.links, dirs[i..], allow, places);
      assert dirs[i..][0] == dir && dirs[i..][1..] == dirs[i + 1..] && dir in dirs[i..];
      verdict := Check(disk.root, disk.links, dir, allow, places);
      if verdict.Refused? {
        Conclude(start, disk.links, dirs, allow, places, disk.root, ok, left);
        return;
      }
      ghost var at, node := AcceptedNode(before, disk.links, dir, allow, places);
      ok, left := disk.RemoveNoFollow(dir.path, node);
      if !ok {
        Conclude(start, disk.links, dirs, allow, places, disk.root, ok, left);
        return;
      }
      ghost var at1, next := FirstRemoved(before, disk.links, dirs[i..], allow, places);
      assert dirs[..i + 1] == dirs[..i] + [dir];
      removed := removed + [dir];
      i := i + 1;
    }
    CleanFirst(disk.root, disk.links, dirs[i..], allow, places);
    assert dirs[..i] == dirs;
    Conclude(start, disk.links, dirs, allow, places, disk.root, ok, left);
  }

  lemma {:induction false} CleanFirst(root: Node, links: nat, dirs: seq<Listed>, allow: set<Listed>, places: Places)
    ensures var c := Clean(root, links, dirs, allow, places);
            if dirs == [] then c == CleanUp(0, root, Accepted)
            else
              var verdict := Check(root, links, dirs[0], allow, places);
              if verdict.Refused? || !Survives(root, dirs[0].path, links) then c == CleanUp(0, root, verdict)
              else
                var rest := Clean(Without(root, links, dirs[0]), links, dirs[1..], allow, places);
                c == rest.(count := rest.count + 1)
  {
    hide Check, Survives, Without;
  }

  /** What is spared, however the loop stopped. */
  lemma {:induction false} Conclude(start: Node, links: nat, dirs: seq<Listed>, allow: set<Listed>, places: Places,
                                    end: Node, ok: bool, left: Option<Node>)
    requires Standing(start, dirs) && CameTo(Clean(start, links, dirs, allow, places), links, dirs, end, ok, left)
    ensures Less(end, start)
    ensures LinksInTmp(start, links, dirs, places.tmp) ==> SparesOutside(start, end, places.tmp)
    ensures Lookup(start, places.repo).Some? && AllApart(start, links, dirs, places.repo) ==>
              Lookup(end, places.repo) == Lookup(start, places.repo)
    ensures ok && Clean(start, links, dirs, allow, places).count == |dirs| ==>
              && Gone(end, links, dirs)
              && (Physical(start, places.tmp) ==>
                    (SparesOutside(start, end, places.tmp) <==> LinksInTmp(start, links, dirs, places.tmp)))
              && (Lookup(start, places.repo).Some? ==>
                    (Lookup(end, places.repo) == Lookup(start, places.repo) <==>
                     AllApart(start, links, dirs, places.repo)))
  {
    hide Clean, Check, Locate, Lookup, Graft, Less, Valid, Physical, Gone, SparesOutside, LinksInTmp, AllApart;
    var c := Clean(start, links, dirs, allow, places);
    CleanTree(start, links, dirs, allow, places);
    if c.count == |dirs| {
      CleanIsGone(start, links, dirs, allow, places);
      if Physical(start, places.tmp) {
        CleanSparesExactly(start, links, dirs, allow, places);
      }
      if Lookup(start, places.repo).Some? {
        CleanSparesRepositoryExactly(start, links, dirs, allow, places);
      }
    }
    if LinksInTmp(start, links, dirs, places.tmp) {
      CleanSpares(start, links, dirs, allow, places);
    }
    if Lookup(start, places.repo).Some? && AllApart(start, links, dirs, places.repo) {
      CleanSparesRepository(start, links, dirs, allow, places);
    }
    if !ok {
      HalfRemoved(start, links, dirs, allow, places, end, left);
    }
  }

  lemma {:induction false} HalfRemoved(start: Node, links: nat, dirs: seq<Listed>, allow: set<Listed>, places: Places,
                                       end: Node, left: Option<Node>)
    requires Standing(start, dirs) && CameTo(Clean(start, links, dirs, allow, places), links, dirs, end, false, left)
    ensures Less(end, start)
    ensures LinksInTmp(start, links, dirs, places.tmp)
            && SparesOutside(start, Clean(start, links, dirs, allow, places).tree, places.tmp) ==>
              SparesOutside(start, end, places.tmp)
    ensures Lookup(Clean(start, links, dirs, allow, places).tree, places.repo).Some?
            && AllApart(start, links, dirs, places.repo) ==>
              Lookup(end, places.repo) == Lookup(Clean(start, links, dirs, allow, places).tree, places.repo)
  {
    hide Clean, Check, Locate, Lookup, Graft, Less, Valid, SparesOutside;
    var c := Clean(start, links, dirs, allow, places);
    CleanTree(start, links, dirs, allow, places);
    var dir := dirs[c.count];
    assert dir in dirs;
    var at, node := AcceptedNode(c.tree, links, dir, allow, places);
    RemovedBelow(start, c.tree, at, left);
    if LinksInTmp(start, links, dirs, places.tmp) && SparesOutside(start, c.tree, places.tmp) {
      LinksStayInTmp(c.tree, start, links, dirs, places.tmp);
      PassedInTmp(c.tree, links, dir, dirs, allow, places);
      SparedStep(start, c.tree, at, left, places.tmp);
    }
    if Lookup(c.tree, places.repo).Some? && AllApart(start, links, dirs, places.repo) {
      AllStayApart(c.tree, start, links, dirs, places.repo);
      RepositoryStep(c.tree, links, dir, dirs, allow, places, left);
    }
  }
}
