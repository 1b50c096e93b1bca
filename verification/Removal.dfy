/**
 * Removing a directory without following links, and the check before it
 * (benchmarks/agentAcceptancePilot/fs.ts:181-184, 210-295).
 */
module Removal {
  import opened Options
  import opened FileTree
  import opened Inside
  import SplitJoin

  // ---- The disk ----

  /** The disk, with the calls the removal makes. A call that fails leaves the disk as it is. */
  class Disk {
    var root: Node
    /** How many symbolic links the system follows in one path. */
    const links: nat

    constructor (root: Node, links: nat)
      ensures this.root == root && this.links == links
    {
      this.root, this.links := root, links;
    }

    /** `lstat`: the node a path denotes, its last name not followed. */
    function Lstat(p: Path): (n: Option<Node>)
      reads this
    {
      var at := Locate(root, p, links);
      if at.Some? then Lookup(root, at.value) else None
    }

    /** `unlink`. */
    method Unlink(p: Path) returns (ok: bool)
      modifies this`root
      ensures ok <==>
              old(Locate(root, p, links)).Some? && p != []
              && !Lookup(old(root), Locate(old(root), p, links).value).value.Dir?
      ensures root == if ok then Graft(old(root), Locate(old(root), p, links).value, None) else old(root)
    {
      var at := Locate(root, p, links);
      ok := at.Some? && p != [] && !Lookup(root, at.value).value.Dir?;
      if ok {
        root := Graft(root, at.value, None);
      }
    }

    /** `rmdir`: only an empty directory can be removed. */
    method Rmdir(p: Path) returns (ok: bool)
      modifies this`root
      ensures ok <==>
              old(Locate(root, p, links)).Some? && p != []
              && Lookup(old(root), Locate(old(root), p, links).value) == Some(Dir(map[]))
      ensures root == if ok then Graft(old(root), Locate(old(root), p, links).value, None) else old(root)
    {
      var at := Locate(root, p, links);
      ok := at.Some? && p != [] && Lookup(root, at.value) == Some(Dir(map[]));
      if ok {
        root := Graft(root, at.value, None);
      }
    }

    /**
     * MAIN RESULT, with its exact condition. `removeNoFollow`, where `ok` is false when a call throws.
     * Whatever happens, nothing changes but the physical subtree `p` denotes, and in it nodes are only
     * deleted. It returns normally, and then the whole subtree is gone, if and only if the path denotes
     * no directory or survives the emptying of the one it denotes.
     */
    method RemoveNoFollow(p: Path, ghost node: Node) returns (ok: bool, ghost left: Option<Node>)
      requires p != [] && ValidPath(p) && Valid(node)
      requires Locate(root, p, links).Some? ==> Lookup(root, Locate(root, p, links).value) == Some(node)
      modifies this`root
      ensures old(Locate(root, p, links)).None? ==> root == old(root) && ok
      ensures old(Locate(root, p, links)).Some? ==>
                && root == Graft(old(root), Locate(old(root), p, links).value, left)
                && (left.Some? ==> Less(left.value, node))
                && (ok <==> left.None?)
                && (ok <==> Survives(old(root), p, links))
      decreases node
    {
      left := None;
      var stat := Lstat(p);
      if stat.None? {
        ok := true;
        return;
      }
      ghost var at := Locate(root, p, links).value;
      LocateNames(root, p, links);
      GraftSame(root, at);
      LessSame(node);
      if !stat.value.Dir? {
        ok := Unlink(p);
        if !ok {
          left := Some(node);
        }
        return;
      }
      ghost var r0 := root;
      ghost var stays := Survives(r0, p, links);
      left := Some(node);
      var entries := stat.value.children.Keys;
      while entries != {}
        invariant entries <= node.children.Keys
        invariant left.Some? && Less(left.value, node)
        invariant stays ==> left.value.children.Keys <= entries
        invariant root == Graft(r0, at, left)
        invariant forall k | k in entries :: k in left.value.children && left.value.children[k] == node.children[k]
        invariant forall k | k in left.value.children :: k in node.children
        decreases entries
      {
        var name :| name in entries;
        entries := entries - {name};
        var child := stat.value.children[name];
        ghost var before := root;
        ghost var was := left.value;
        ghost var childLeft;
        ChildLocated(r0, p, at, node, was, name, links);
        if stays {
          ChildStays(r0, p, at, node, was, name, links);
        }
        if !child.Dir? {
          ok := Unlink(p + [name]);
          childLeft := None;
          if !ok {
            return;
          }
        } else {
          ok, childLeft := RemoveNoFollow(p + [name], child);
        }
        if Locate(before, p + [name], links).Some? {
          ChildRemoved(r0, at, node, was, name, childLeft);
          left := Some(Graft(was, [name], childLeft));
        }
        if !ok {
          return;
        }
      }
      ok := Rmdir(p);
      RmdirDone(r0, p, at, node, left.value, links);
      if stays {
        EmptiedStays(r0, p, at, links);
      }
      if ok {
        GraftTwice(r0, at, left, None);
        left := None;
      }
    }
  }

  lemma {:induction false} LocateNames(root: Node, p: Path, links: nat)
    requires p != [] && Locate(root, p, links).Some?
    ensures var at := Locate(root, p, links).value; at != [] && Lookup(root, at).Some? && at[|at| - 1] == p[|p| - 1]
  {
  }

  /**
   * While the directory `at` is being emptied, the path of its entry `name` denotes the entry below
   * `at`, or nothing: deleting nodes never redirects a path.
   */
  lemma {:induction false} ChildLocated(r0: Node, p: Path, at: Path, node: Node, left: Node, name: Name, links: nat)
    requires p != [] && ValidPath(p) && Locate(r0, p, links) == Some(at) && Lookup(r0, at) == Some(node) && node.Dir?
    requires Less(left, node) && name in left.children && left.Dir? && name in node.children
    requires left.children[name] == node.children[name]
    ensures var r := Graft(r0, at, Some(left));
            Locate(r, p + [name], links).Some? ==>
              Locate(r, p + [name], links) == Some(at + [name]) && Lookup(r, at + [name]) == Some(node.children[name])
  {
    var r := Graft(r0, at, Some(left));
    LocateNames(r0, p, links);
    LookupGraft(r0, at, Some(left), at);
    LookupSnoc(r, at, name);
    LessGraft(r0, at, Some(left));
    if Locate(r, p + [name], links).Some? {
      assert (p + [name])[..|p|] == p;
      LessResolve(r, r0, [], p, links);
      DirectoryResolves(r0, p, links);
    }
  }

  /** The path denotes no directory, or it would still resolve with the directory emptied. */
  predicate Survives(root: Node, p: Path, links: nat) {
    var at := Locate(root, p, links);
    at.Some? && at.value != [] && Lookup(root, at.value).value.Dir? ==>
      Real(Graft(root, at.value, Some(Dir(map[]))), p[..|p| - 1], links).Some?
  }

  /** Such a path leads to the directory however much of the directory is left. */
  lemma {:induction false} DirectoryStays(r0: Node, p: Path, at: Path, left: Node, links: nat)
    requires p != [] && ValidPath(p) && Locate(r0, p, links) == Some(at) && Lookup(r0, at).Some?
             && Lookup(r0, at).value.Dir?
    requires Survives(r0, p, links) && left.Dir? && Less(left, Lookup(r0, at).value)
    ensures var r := Graft(r0, at, Some(left));
            Real(r, p[..|p| - 1], links) == Some(at[..|at| - 1]) && Real(r, p, links) == Some(at)
  {
    LocateNames(r0, p, links);
    var r, emptied := Graft(r0, at, Some(left)), Graft(r0, at, Some(Dir(map[])));
    var parent := p[..|p| - 1];
    LookupGraft(r0, at, Some(left), at);
    GraftTwice(r0, at, Some(left), Some(Dir(map[])));
    LessGraft(r, at, Some(Dir(map[])));
    LessGraft(r0, at, Some(left));
    LessResolve(emptied, r, [], parent, links);
    LessResolve(r, r0, [], parent, links);
    assert p == parent + [p[|p| - 1]];
    assert at == at[..|at| - 1] + [at[|at| - 1]];
    LookupSnoc(r, at[..|at| - 1], p[|p| - 1]);
    ResolveLast(r, [], parent, p[|p| - 1], links);
  }

  /** So do the paths of its entries, which survive as well. */
  lemma {:induction false} ChildStays(r0: Node, p: Path, at: Path, node: Node, left: Node, name: Name, links: nat)
    requires p != [] && ValidPath(p) && Locate(r0, p, links) == Some(at) && Lookup(r0, at) == Some(node) && node.Dir?
    requires Survives(r0, p, links) && left.Dir? && Less(left, node)
    requires name in left.children && name in node.children && left.children[name] == node.children[name]
    ensures var r := Graft(r0, at, Some(left));
            Locate(r, p + [name], links) == Some(at + [name]) && Survives(r, p + [name], links)
  {
    var r := Graft(r0, at, Some(left));
    LocateNames(r0, p, links);
    DirectoryStays(r0, p, at, left, links);
    assert (p + [name])[..|p|] == p;
    LookupGraft(r0, at, Some(left), at);
    LookupSnoc(r, at, name);
    if left.children[name].Dir? {
      var less := Graft(left, [name], Some(Dir(map[])));
      GraftBelow(r, at, [name], Some(Dir(map[])));
      GraftTwice(r0, at, Some(left), Some(less));
      LessGraft(left, [name], Some(Dir(map[])));
      LessTransitive(less, left, node);
      DirectoryStays(r0, p, at, less, links);
    }
  }

  lemma {:induction false} EmptiedStays(r0: Node, p: Path, at: Path, links: nat)
    requires p != [] && ValidPath(p) && Locate(r0, p, links) == Some(at) && Lookup(r0, at).Some?
             && Lookup(r0, at).value.Dir?
    requires Survives(r0, p, links)
    ensures Locate(Graft(r0, at, Some(Dir(map[]))), p, links) == Some(at)
  {
    LocateNames(r0, p, links);
    DirectoryStays(r0, p, at, Dir(map[]), links);
    LookupGraft(r0, at, Some(Dir(map[])), at);
    assert at == at[..|at| - 1] + [at[|at| - 1]];
  }

  /** Splitting `d/s/../..`. */
  lemma {:induction false} LoopingTarget()
    ensures SplitJoin.Split("d/s/../..", '/') == ["d", "s", "..", ".."]
  {
    var names := ["d", "s", "..", ".."];
    assert names[1..] == ["s", "..", ".."] && ["s", "..", ".."][1..] == ["..", ".."] && ["..", ".."][1..] == [".."];
    assert SplitJoin.Join([".."], '/') == "..";
    assert SplitJoin.Join(["..", ".."], '/') == "../..";
    assert SplitJoin.Join(["s", "..", ".."], '/') == "s/../..";
    assert SplitJoin.Join(names, '/') == "d/s/../..";
    SplitJoin.SplitOfJoin(names, '/');
  }

  /** The directory `/t` with a directory `d` and a link `l` to `d/s/../..`, which is `/t` again. */
  function Looping(d: Node): Node {
    Dir(map["t" := Dir(map["d" := d, "l" := Link("d/s/../..")])])
  }

  lemma {:induction false} LoopingPlaces(d: Node, e: Node)
    ensures Lookup(Looping(d), []) == Some(Looping(d))
    ensures Lookup(Looping(d), ["t"]) == Some(Looping(d).children["t"]) && Lookup(Looping(d), ["t", "d"]) == Some(d)
    ensures Graft(Looping(d), ["t", "d"], Some(e)) == Looping(e)
  {
    var t := Looping(d).children["t"];
    LookupSnoc(Looping(d), [], "t");
    LookupSnoc(Looping(d), ["t"], "d");
    assert [] + ["t"] == ["t"] && ["t"] + ["d"] == ["t", "d"] && ["t", "d"][1..] == ["d"];
    assert t.children["d" := e] == Looping(e).children["t"].children;
    assert Looping(d).children["t" := Looping(e).children["t"]] == Looping(e).children;
  }

  /** The link leads on from `d` through `s` and back. */
  lemma {:induction false} LoopingLeads(d: Node)
    requires d.Dir?
    ensures Real(Looping(d), ["t", "l"], 1) == Resolve(Looping(d), ["t", "d"], ["s", "..", ".."], 0)
  {
    hide Resolve, Lookup, SplitJoin.Split;
    var root, back := Looping(d), ["s", "..", ".."];
    LoopingTarget();
    LoopingPlaces(d, d);
    ResolveFirst(root, [], "t", ["l"], 1);
    ResolveFirst(root, ["t"], "l", [], 1);
    ResolveFirst(root, ["t"], "d", back, 0);
    assert ["t", "l"] == ["t"] + ["l"] && [] + ["t"] == ["t"] && ["l"] + [] == ["l"];
    assert ["d", "s", "..", ".."] + [] == ["d"] + back && ["t"] + ["d"] == ["t", "d"];
  }

  /**
   * A path that does not survive: `/t/l` leads to `/t` through `d/s/../..`, so removing `/t/l/d`, which
   * is `/t/d`, removes the directory `s` that the path itself runs through.
   */
  lemma {:induction false} APathThroughItselfDoesNotSurvive()
    ensures var root := Looping(Dir(map["s" := Dir(map[])]));
            Locate(root, ["t", "l", "d"], 1) == Some(["t", "d"]) && !Survives(root, ["t", "l", "d"], 1)
  {
    var d, none := Dir(map["s" := Dir(map[])]), Dir(map[]);
    var root := Looping(d);
    LoopingPlaces(d, none);
    LoopingPlaces(none, none);
    LoopingLeads(d);
    LoopingLeads(none);
    LookupSnoc(root, ["t", "d"], "s");
    assert ["t", "d"] + ["s"] == ["t", "d", "s"] && ["t"] + ["d"] == ["t", "d"] && ["t", "l", "d"][..2] == ["t", "l"];
    assert ["s", "..", ".."][1..] == ["..", ".."] && ["..", ".."][1..] == [".."];
    assert ["t", "d", "s"][..2] == ["t", "d"] && ["t", "d"][..1] == ["t"];
    assert Resolve(root, ["t", "d"], [".."], 0) == Some(["t"]);
    assert Resolve(root, ["t", "d", "s"], ["..", ".."], 0) == Some(["t"]);
  }

  /** A path whose last name is a directory resolves to where it is located. */
  lemma {:induction false} DirectoryResolves(root: Node, p: Path, links: nat)
    requires p != [] && ValidPath(p) && Locate(root, p, links).Some?
    requires Lookup(root, Locate(root, p, links).value).value.Dir?
    ensures Real(root, p, links).Some? ==> Real(root, p, links) == Locate(root, p, links)
  {
    assert p == p[..|p| - 1] + [p[|p| - 1]];
    ResolveLast(root, [], p[..|p| - 1], p[|p| - 1], links);
    LookupSnoc(root, Real(root, p[..|p| - 1], links).value, p[|p| - 1]);
  }

  /** Removing one entry, or what can be removed of it. */
  lemma {:induction false} ChildRemoved(r0: Node, at: Path, node: Node, left: Node, name: Name, childLeft: Option<Node>)
    requires at != [] && Lookup(r0, at) == Some(node) && node.Dir? && left.Dir? && Less(left, node)
    requires name in left.children && name in node.children && left.children[name] == node.children[name]
    requires childLeft.Some? ==> Less(childLeft.value, node.children[name])
    ensures var next := Graft(left, [name], childLeft);
            && next.Dir? && Less(next, node)
            && Graft(Graft(r0, at, Some(left)), at + [name], childLeft) == Graft(r0, at, Some(next))
            && (forall k | k in next.children :: k in left.children)
            && (forall k | k in left.children && k != name ::
                k in next.children && next.children[k] == left.children[k])
  {
    var r := Graft(r0, at, Some(left));
    LookupGraft(r0, at, Some(left), at);
    GraftBelow(r, at, [name], childLeft);
    GraftTwice(r0, at, Some(left), Some(Graft(left, [name], childLeft)));
  }

  lemma {:induction false} RmdirDone(r0: Node, p: Path, at: Path, node: Node, left: Node, links: nat)
    requires p != [] && Locate(r0, p, links) == Some(at) && Lookup(r0, at) == Some(node) && Less(left, node)
    ensures var r := Graft(r0, at, Some(left));
            && (Locate(r, p, links).Some? ==> Locate(r, p, links) == Some(at) && Lookup(r, at) == Some(left))
  {
    LocateNames(r0, p, links);
    LookupGraft(r0, at, Some(left), at);
    LessGraft(r0, at, Some(left));
    var r := Graft(r0, at, Some(left));
    if Locate(r, p, links).Some? {
      LessLocate(r, r0, p, links);
    }
  }

  // ---- The safety check ----

  /** A listed directory: whether its path is absolute, and its names. */
  datatype Listed = Listed(absolute: bool, path: Path)

  datatype Refusal =
    | NotFromThisTrial
    | RelativePath
    | Unresolved
    | LinkOutsideTmp
    | LinkWithUnresolvedParent
    | NotADirectory
    | ProtectedPath
    | ContainsRepository
    | InsideRepository
    | HomeOutsideTmp
    | OutsideTmp

  datatype Verdict = Accepted | Refused(reason: Refusal)

  /** The real paths of the temporary, home and repository directories. */
  datatype Places = Places(tmp: Path, home: Path, repo: Path)

  /** `assertSafeHarnessDir`. */
  function Check(root: Node, links: nat, dir: Listed, allow: set<Listed>, places: Places): Verdict {
    if dir !in allow then Refused(NotFromThisTrial)
    else if !dir.absolute then Refused(RelativePath)
    else
      var at := Locate(root, dir.path, links);
      if at.None? then Refused(Unresolved)
      else if Lookup(root, at.value).value.Link? then CheckLink(root, links, dir.path, places)
      else if !Lookup(root, at.value).value.Dir? then Refused(NotADirectory)
      else
        var resolved := Real(root, dir.path, links);
        if resolved.None? then Refused(Unresolved) else CheckReal(resolved.value, places)
  }

  function CheckLink(root: Node, links: nat, p: Path, places: Places): Verdict {
    if IsInside(p, places.tmp) || PathText(places.tmp) <= PathText(p) then Accepted
    else
      var parent := Real(root, if p == [] then [] else p[..|p| - 1], links);
      if parent.None? then Refused(LinkWithUnresolvedParent)
      else if !IsInside(parent.value, places.tmp) && parent.value != places.tmp then Refused(LinkOutsideTmp)
      else Accepted
  }

  function CheckReal(resolved: Path, places: Places): Verdict {
    if resolved == [] || resolved == places.home || resolved == places.repo || resolved == places.tmp
        then Refused(ProtectedPath)
    else if IsInside(places.repo, resolved) && resolved != places.repo then Refused(ContainsRepository)
    else if IsInside(resolved, places.repo) then Refused(InsideRepository)
    else if IsInside(resolved, places.home) && !IsInside(resolved, places.tmp) && resolved != places.tmp then
      if !IsInside(places.tmp, places.home) || !IsInside(resolved, places.tmp) then Refused(HomeOutsideTmp)
          else Accepted
    else if !IsInside(resolved, places.tmp) && resolved != places.tmp then Refused(OutsideTmp)
    else Accepted
  }

  /** `p` is `at` or lies below it, but not below a name with two leading dots. */
  predicate Under(at: Path, p: Path) {
    at <= p && (|at| < |p| ==> !(".." <= p[|at|]))
  }

  /** What may be removed: strictly under the temporary directory, and apart from the home and the repository. */
  predicate Removable(p: Path, places: Places) {
    && Under(places.tmp, p) && p != places.tmp && p != places.home
    && !Under(places.repo, p) && !Under(p, places.repo)
  }

  /**
   * MAIN RESULT, with its exact conditions. The verdict on a real path: it passes if and only if it may be
   * removed, and otherwise the first of the reasons counts.
   */
  lemma {:induction false} CheckRealDecides(p: Path, places: Places)
    ensures CheckReal(p, places).Accepted? <==> Removable(p, places)
    ensures !Removable(p, places) ==>
              CheckReal(p, places) ==
              Refused(if p in {[], places.home, places.repo, places.tmp} then ProtectedPath
                      else if Under(p, places.repo) then ContainsRepository
                      else if Under(places.repo, p) then InsideRepository
                      else if Under(places.home, p) then HomeOutsideTmp
                      else OutsideTmp)
  {
    UnderMeans(p, places.tmp);
    UnderMeans(places.repo, p);
    UnderMeans(p, places.repo);
    UnderMeans(p, places.home);
  }

  lemma {:induction false} UnderMeans(p: Path, at: Path)
    ensures IsInside(p, at) <==> Under(at, p)
  {
    IsInsideMeans(p, at);
  }

  /** What passes as a link: for the text of its path, or for the real path of its parent. */
  predicate RemovableLink(root: Node, links: nat, p: Path, tmp: Path) {
    || PathText(tmp) <= PathText(p) || Under(tmp, p)
    || (var parent := Real(root, if p == [] then [] else p[..|p| - 1], links);
        parent.Some? && Under(tmp, parent.value))
  }

  /** What passes of whatever is listed: absolute, there, and a removable directory or link. */
  predicate Passes(root: Node, links: nat, dir: Listed, allow: set<Listed>, places: Places) {
    var at := Locate(root, dir.path, links);
    && dir in allow && dir.absolute && at.Some?
    && match Lookup(root, at.value)
       case Some(Link(_)) => RemovableLink(root, links, dir.path, places.tmp)
       case Some(Dir(_)) =>
         var resolved := Real(root, dir.path, links);
         resolved.Some? && Removable(resolved.value, places)
       case _ => false
  }

  /** MAIN RESULT, with its exact condition. A listed path passes the check if and only if `Passes` holds of it. */
  lemma {:induction false} CheckDecides(root: Node, links: nat, dir: Listed, allow: set<Listed>, places: Places)
    ensures Check(root, links, dir, allow, places).Accepted? <==> Passes(root, links, dir, allow, places)
  {
    hide Resolve, CheckReal, Removable, Under, IsInside, PathText, CheckLink, RemovableLink;
    if Locate(root, dir.path, links).Some? {
      LocateLooksUp(root, dir.path, links);
    }
    CheckLinkDecides(root, links, dir.path, places);
    if Real(root, dir.path, links).Some? {
      CheckRealDecides(Real(root, dir.path, links).value, places);
    }
  }

  lemma {:induction false} CheckLinkDecides(root: Node, links: nat, p: Path, places: Places)
    ensures CheckLink(root, links, p, places).Accepted? <==> RemovableLink(root, links, p, places.tmp)
  {
    hide Resolve, PathText, IsInside;
    UnderMeans(p, places.tmp);
    var parent := Real(root, if p == [] then [] else p[..|p| - 1], links);
    if parent.Some? {
      UnderMeans(parent.value, places.tmp);
    }
  }

  lemma {:induction false} LocateLooksUp(root: Node, p: Path, links: nat)
    requires Locate(root, p, links).Some?
    ensures Lookup(root, Locate(root, p, links).value).Some?
  {
  }

  /** A real path that passes is strictly inside the temporary directory, and how it lies to the repository. */
  lemma {:induction false} AcceptedReal(resolved: Path, places: Places)
    requires CheckReal(resolved, places).Accepted?
    ensures places.tmp < resolved
    ensures resolved != places.repo
    ensures resolved < places.repo ==> StartsWithDots(places.repo[|resolved|])
    ensures places.repo < resolved ==> StartsWithDots(resolved[|places.repo|])
  {
    IsInsideMeans(resolved, places.tmp);
    IsInsideMeans(places.repo, resolved);
    IsInsideMeans(resolved, places.repo);
  }

  /** What a directory that passes denotes. */
  lemma {:induction false} AcceptedDirectory(root: Node, links: nat, dir: Listed, allow: set<Listed>, places: Places)
    requires ValidPath(dir.path)
    requires Check(root, links, dir, allow, places).Accepted?
    requires var at := Locate(root, dir.path, links); at.Some? && !Lookup(root, at.value).value.Link?
    ensures dir in allow && dir.absolute && dir.path != []
    ensures var at := Locate(root, dir.path, links).value;
            && Lookup(root, at).Some? && Lookup(root, at).value.Dir?
            && CheckReal(at, places).Accepted? && places.tmp < at
  {
    var at := Locate(root, dir.path, links).value;
    if dir.path != [] {
      DirectoryResolves(root, dir.path, links);
      AcceptedReal(at, places);
    }
  }

  /** The path of a link is compared with the temporary directory as text. */
  predicate TextuallyInTmp(p: Path, places: Places) {
    IsInside(p, places.tmp) || PathText(places.tmp) <= PathText(p)
  }

  /** The second test of a link: the real path of its parent is the temporary directory or below it. */
  predicate RealParentInTmp(root: Node, links: nat, p: Path, tmp: Path)
    requires p != []
  {
    var parent := Real(root, p[..|p| - 1], links);
    parent.Some? && tmp <= parent.value
  }

  /** A path denotes something in the temporary directory exactly when the real path of its parent is in it. */
  lemma {:induction false} PlaceInTmpExactly(root: Node, links: nat, p: Path, tmp: Path)
    requires p != [] && Locate(root, p, links).Some?
    ensures tmp < Locate(root, p, links).value <==> RealParentInTmp(root, links, p, tmp)
  {
    var parent, at := Real(root, p[..|p| - 1], links).value, Locate(root, p, links).value;
    assert parent == at[..|at| - 1];
    if tmp < at {
      assert tmp == parent[..|tmp|];
    }
  }

  /** A link that passes lies there, unless it passed for the text of its path alone. */
  lemma {:induction false} AcceptedLink(root: Node, links: nat, dir: Listed, allow: set<Listed>, places: Places)
    requires root.Dir? && Check(root, links, dir, allow, places).Accepted?
    requires var at := Locate(root, dir.path, links); at.Some? && Lookup(root, at.value).value.Link?
    ensures dir.path != []
    ensures !TextuallyInTmp(dir.path, places) ==> places.tmp < Locate(root, dir.path, links).value
  {
    IsInsideMeans(Real(root, dir.path[..|dir.path| - 1], links).value, places.tmp);
    PlaceInTmpExactly(root, links, dir.path, places.tmp);
  }

  /** Such a link: `/t/d` leads to `/o`, so the accepted `/t/d/l` is the link `/o/l` outside of `/t`. */
  lemma {:induction false} ALinkBelowALinkIsElsewhere()
    ensures var root := Dir(map["t" := Dir(map["d" := Link("/o")]), "o" := Dir(map["l" := Link("x")])]);
            var dir := Listed(true, ["t", "d", "l"]);
            && Check(root, 1, dir, {dir}, Places(["t"], ["h"], ["r"])).Accepted?
            && Locate(root, dir.path, 1) == Some(["o", "l"])
  {
    hide Resolve, Lookup, SplitJoin.Split, PathText, CheckReal;
    var root := Dir(map["t" := Dir(map["d" := Link("/o")]), "o" := Dir(map["l" := Link("x")])]);
    ElsewherePlaces(root);
    ResolveFirst(root, [], "t", ["d"], 1);
    ResolveFirst(root, ["t"], "d", [], 1);
    ElsewhereResolves(root);
    assert ["t"] + ["d"] == ["t", "d"] && [] + ["t"] == ["t"] && ["d"] + [] == ["d"] && ["", "o"] + [] == ["", "o"];
    assert ["t", "d", "l"][..2] == ["t", "d"] && ["o"] + ["l"] == ["o", "l"];
    IsInsideMeans(["t", "d", "l"], ["t"]);
    assert ["t"] <= ["t", "d", "l"] && !StartsWithDots("d");
  }

  lemma {:induction false} ElsewherePlaces(root: Node)
    requires root == Dir(map["t" := Dir(map["d" := Link("/o")]), "o" := Dir(map["l" := Link("x")])])
    ensures Lookup(root, []) == Some(root) && Lookup(root, ["t"]) == Some(root.children["t"])
    ensures Lookup(root, ["o"]) == Some(root.children["o"]) && Lookup(root, ["o", "l"]) == Some(Link("x"))
    ensures SplitJoin.Split("/o", '/') == ["", "o"]
  {
    LookupSnoc(root, [], "t");
    LookupSnoc(root, [], "o");
    LookupSnoc(root, ["o"], "l");
    assert [] + ["t"] == ["t"] && [] + ["o"] == ["o"] && ["o"] + ["l"] == ["o", "l"];
    SplitJoin.SplitSum("", '/', "o");
    SplitJoin.SplitPart("o", '/');
    assert "" + ['/'] + "o" == "/o";
  }

  lemma {:induction false} ElsewhereResolves(root: Node)
    requires root.Dir? && "o" in root.children && Lookup(root, ["o"]).Some? && !root.children["o"].Link?
    ensures Resolve(root, [], ["", "o"], 0) == Some(["o"])
  {
    assert ["", "o"][1..] == ["o"] && ["o"][1..] == [] && [] + ["o"] == ["o"];
    assert Resolve(root, [], ["o"], 0) == Resolve(root, ["o"], [], 0);
  }

  // ---- What removal spares ----

  /**
   * MAIN RESULT. Whatever is left of a directory that passed, nothing changed outside the temporary
   * directory: neither files, nor links, nor what the links below the directory lead to.
   */
  lemma {:induction false} OutsideTmpIsSpared(root: Node, at: Path, left: Option<Node>, places: Places, q: Path)
    requires Lookup(root, at).Some? && CheckReal(at, places).Accepted?
    requires !(places.tmp <= q) && !(q <= places.tmp)
    ensures at != [] && Lookup(Graft(root, at, left), q) == Lookup(root, q)
  {
    AcceptedReal(at, places);
    BelowTmpSpares(root, at, left, places.tmp, q);
  }

  lemma {:induction false} BelowTmpSpares(root: Node, at: Path, left: Option<Node>, tmp: Path, q: Path)
    requires Lookup(root, at).Some? && tmp < at && !(tmp <= q) && !(q <= tmp)
    ensures Lookup(Graft(root, at, left), q) == Lookup(root, q)
  {
    LookupGraft(root, at, left, q);
    if q <= at {
      PrefixesAreOrdered(q, tmp, at);
    }
  }

  lemma {:induction false} PrefixesAreOrdered(a: Path, b: Path, c: Path)
    requires a <= c && b <= c
    ensures a <= b || b <= a
  {
    if |a| <= |b| {
      assert a == c[..|a|] == b[..|a|];
    } else {
      assert b == c[..|b|] == a[..|b|];
    }
  }

  /** The repository lies below the directory, or the directory below it, under a name with two leading dots. */
  predicate HiddenByDots(at: Path, repo: Path) {
    || (at < repo && StartsWithDots(repo[|at|]))
    || (repo < at && StartsWithDots(at[|repo|]))
  }

  /**
   * MAIN RESULT, with its exact condition. Removing a directory that passed leaves the repository
   * tree as it was, if and only if neither lies below the other under a name that starts with two
   * dots: `isInside` takes such a name for a step up.
   */
  lemma {:induction false} RepositoryIsSparedExactly(root: Node, at: Path, places: Places)
    requires Lookup(root, at).Some? && Lookup(root, places.repo).Some? && CheckReal(at, places).Accepted?
    ensures at != []
    ensures Lookup(Graft(root, at, None), places.repo) == Lookup(root, places.repo) <==> !HiddenByDots(at, places.repo)
  {
    AcceptedReal(at, places);
    LookupGraft(root, at, None, places.repo);
    var repo := places.repo;
    if at < repo {
      var below := repo[|at|..];
      assert repo == at + below;
      LookupSum(Graft(root, at, None), at, below);
      LookupGraft(root, at, None, at);
    } else if repo < at {
      var below := at[|repo|..];
      assert at == repo + below;
      LookupSum(root, repo, below);
      LookupGraft(Lookup(root, repo).value, below, None, below);
    }
  }

  /** Such a disk: the repository `/t/a/..r` goes when the accepted directory `/t/a` is removed. */
  lemma {:induction false} DotsHideTheRepository()
    ensures var root := Dir(map["t" := Dir(map["a" := Dir(map["..r" := Dir(map[])])]), "h" := Dir(map[])]);
            var places := Places(["t"], ["h"], ["t", "a", "..r"]);
            && CheckReal(["t", "a"], places).Accepted?
            && Lookup(root, places.repo).Some?
            && Lookup(Graft(root, ["t", "a"], None), places.repo).None?
  {
    var root := Dir(map["t" := Dir(map["a" := Dir(map["..r" := Dir(map[])])]), "h" := Dir(map[])]);
    var places := Places(["t"], ["h"], ["t", "a", "..r"]);
    IsInsideMeans(["t", "a"], ["t"]);
    IsInsideMeans(places.repo, ["t", "a"]);
    IsInsideMeans(["t", "a"], places.repo);
    IsInsideMeans(["t", "a"], ["h"]);
    assert ["t", "a", "..r"][1..] == ["a", "..r"] && ["a", "..r"][1..] == ["..r"] && ["..r"][1..] == [];
    assert Lookup(root, places.repo) == Some(Dir(map[]));
    RepositoryIsSparedExactly(root, ["t", "a"], places);
    assert HiddenByDots(["t", "a"], places.repo);
    LookupGraft(root, ["t", "a"], None, ["t", "a"]);
    assert places.repo == ["t", "a"] + ["..r"];
    LookupSum(Graft(root, ["t", "a"], None), ["t", "a"], ["..r"]);
  }
}
