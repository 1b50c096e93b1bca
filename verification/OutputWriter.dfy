/**
 * What the scaffold writer does to the disk before it writes its files: it clears the confirmed output
 * directory and makes it anew (benchmarks/stress/scaffold/write.ts:35-54).
 */
module OutputWriter {
  import opened Options
  import opened FileTree
  import opened Inside
  import opened SplitJoin
  import opened Text
  import opened Removal
  import G = OutputGuard

  // ---- Making directories ----

  function NewDirs(p: Path): Node {
    if p == [] then Dir(map[]) else Dir(map[p[0] := NewDirs(p[1..])])
  }

  /**
   * `mkdir(.., { recursive: true })` along a canonical path. An entry on the way that is not a directory
   * refuses it. That holds of a link too: on a canonical path it leads nowhere, and `mkdir` makes nothing
   * at the end of a link.
   */
  function MakeDirs(n: Node, p: Path): Option<Node> {
    if !n.Dir? then None
    else if p == [] then Some(n)
    else if p[0] in n.children then
      match MakeDirs(n.children[p[0]], p[1..])
      case Some(m) => Some(Dir(n.children[p[0] := m]))
      case None => None
    else Some(Dir(n.children[p[0] := NewDirs(p[1..])]))
  }

  /** Nothing on the way to `p`, nor at `p`, is anything but a directory. */
  predicate OnlyDirs(n: Node, p: Path) {
    forall i | 0 <= i <= |p| && Lookup(n, p[..i]).Some? :: Lookup(n, p[..i]).value.Dir?
  }

  lemma {:induction false} OnlyDirsStep(n: Node, p: Path)
    requires n.Dir? && p != [] && p[0] in n.children
    ensures OnlyDirs(n, p) <==> OnlyDirs(n.children[p[0]], p[1..])
  {
    var child := n.children[p[0]];
    forall i | 0 <= i < |p|
      ensures Lookup(n, p[..i + 1]) == Lookup(child, p[1..][..i])
    {
      assert p[..i + 1][1..] == p[1..][..i];
    }
    if OnlyDirs(n, p) {
      forall i | 0 <= i <= |p[1..]| && Lookup(child, p[1..][..i]).Some?
        ensures Lookup(child, p[1..][..i]).value.Dir?
      {
        assert Lookup(n, p[..i + 1]) == Lookup(child, p[1..][..i]);
      }
    }
    if OnlyDirs(child, p[1..]) {
      forall i | 0 <= i <= |p| && Lookup(n, p[..i]).Some?
        ensures Lookup(n, p[..i]).value.Dir?
      {
        if i > 0 {
          assert Lookup(n, p[..i - 1 + 1]) == Lookup(child, p[1..][..i - 1]);
        }
      }
    }
  }

  /** Directories can be made exactly when only directories stand on the way. */
  lemma {:induction false} MakeDirsWhen(n: Node, p: Path)
    ensures MakeDirs(n, p).Some? <==> OnlyDirs(n, p)
  {
    assert p[..0] == [];
    if n.Dir? && p != [] {
      if p[0] in n.children {
        OnlyDirsStep(n, p);
        MakeDirsWhen(n.children[p[0]], p[1..]);
      } else {
        forall i | 0 < i <= |p|
          ensures Lookup(n, p[..i]).None?
        {
          assert p[..i][0] == p[0];
        }
      }
    } else {
      assert Lookup(n, p[..0]) == Some(n);
    }
  }

  lemma {:induction false} NewDirsAt(p: Path, q: Path)
    ensures Lookup(NewDirs(p), p) == Some(Dir(map[]))
    ensures !(p <= q) && !(q <= p) ==> Lookup(NewDirs(p), q).None?
  {
    if p != [] {
      NewDirsAt(p[1..], if q == [] then [] else q[1..]);
      assert p == [p[0]] + p[1..] && (q != [] ==> q == [q[0]] + q[1..]);
    }
  }

  /** What is made is an empty directory at `p`, unless something was there, and nothing apart from `p`. */
  lemma {:induction false} MakeDirsAt(n: Node, p: Path, q: Path)
    requires MakeDirs(n, p).Some?
    ensures var made := MakeDirs(n, p).value;
            && (if Lookup(n, p).Some? then made == n else Lookup(made, p) == Some(Dir(map[])))
            && (!(p <= q) && !(q <= p) ==> Lookup(made, q) == Lookup(n, q))
  {
    if p != [] {
      assert p == [p[0]] + p[1..] && (q != [] ==> q == [q[0]] + q[1..]);
      var below := if q == [] then [] else q[1..];
      if p[0] in n.children {
        MakeDirsAt(n.children[p[0]], p[1..], below);
        assert n.children[p[0] := n.children[p[0]]] == n.children;
      } else {
        NewDirsAt(p[1..], below);
      }
    }
  }

  // ---- Preparing the output directory ----

  /** `existsSync` and `rm`. */
  function Emptied(root: Node, links: nat, c: Path, overwrite: bool): Node {
    if overwrite && c != [] && G.Exists(root, c, links) then Graft(root, c, None) else root
  }

  /** `existsSync` and `rm`, then `mkdir`. */
  function Prepare(root: Node, links: nat, c: Path, overwrite: bool): Option<Node> {
    MakeDirs(Emptied(root, links, c, overwrite), c)
  }

  /** A path the guard can return twice: canonical, and where it exists a directory that may be replaced. */
  predicate Confirmed(root: Node, links: nat, c: Path, overwrite: bool) {
    && Valid(root) && root.Dir? && ValidPath(c) && c != [] && G.Canonical(root, c, links) == c
    && (Lookup(root, c).Some? && G.Exists(root, c, links) ==>
          Lookup(root, c).value.Dir? && (overwrite || Lookup(root, c) == Some(Dir(map[]))))
  }

  /** A canonical path exists exactly as far as it is physical. */
  lemma {:induction false} CanonicalIsPhysical(root: Node, links: nat, c: Path, overwrite: bool)
    requires Confirmed(root, links, c, overwrite)
    ensures var n := G.Existing(root, c, links); Physical(root, c[..n])
    ensures G.Exists(root, c, links) ==> Lookup(root, c).Some?
    ensures Lookup(root, c).Some? && Lookup(root, c).value.Dir? ==> G.Exists(root, c, links)
  {
    var n := G.Existing(root, c, links);
    G.AnchorIsReal(root, c, links);
    G.HeadOfSum(G.Anchor(root, c, links), c, n);
    assert c[..|c|] == c;
    if Lookup(root, c).Some? && Lookup(root, c).value.Dir? {
      DirExists(root, links, c, n);
    }
  }

  /** A directory below a real path, reached through directories only, exists. */
  lemma {:induction false} DirExists(root: Node, links: nat, c: Path, n: nat)
    requires Valid(root) && ValidPath(c) && n <= |c| && Physical(root, c[..n])
    requires Lookup(root, c).Some? && Lookup(root, c).value.Dir?
    ensures G.Exists(root, c, links)
  {
    forall i | 0 < i <= |c|
      ensures Lookup(root, c[..i]).Some? && !Lookup(root, c[..i]).value.Link?
    {
      assert c == c[..i] + c[i..];
      LookupSum(root, c[..i], c[i..]);
    }
    PhysicalResolves(root, c, 0, links);
    assert c[..0] == [] && c[0..] == c;
  }

  /**
   * MAIN RESULT, with its exact condition. The output directory can be prepared if and only if nothing
   * but directories stands on the way to it; then it is an empty directory, and nothing apart from its
   * own path changed.
   */
  lemma {:induction false} PreparedExactly(root: Node, links: nat, c: Path, overwrite: bool, q: Path)
    requires Confirmed(root, links, c, overwrite)
    ensures Prepare(root, links, c, overwrite).Some? <==> OnlyDirs(root, c)
    ensures Prepare(root, links, c, overwrite).None? ==> Emptied(root, links, c, overwrite) == root
    ensures Prepare(root, links, c, overwrite).Some? ==>
              var w := Prepare(root, links, c, overwrite).value;
              && Lookup(w, c) == Some(Dir(map[]))
              && (Lookup(root, c) == Some(Dir(map[])) ==> w == root)
              && (!(c <= q) && !(q <= c) ==> Lookup(w, q) == Lookup(root, q))
  {
    hide MakeDirs, OnlyDirs, Graft;
    CanonicalIsPhysical(root, links, c, overwrite);
    MakeDirsWhen(root, c);
    if overwrite && G.Exists(root, c, links) {
      Cleared(root, c, q);
    } else if OnlyDirs(root, c) {
      MakeDirsAt(root, c, q);
      AtItsEnd(root, c);
    }
  }

  lemma {:induction false} AtItsEnd(root: Node, c: Path)
    requires OnlyDirs(root, c)
    ensures Lookup(root, c).Some? ==> Lookup(root, c).value.Dir?
  {
    assert c[..|c|] == c;
  }

  /** Removing an existing directory and making it again. */
  lemma {:induction false} Cleared(root: Node, c: Path, q: Path)
    requires c != [] && Lookup(root, c).Some? && Lookup(root, c).value.Dir?
    ensures OnlyDirs(root, c)
    ensures MakeDirs(Graft(root, c, None), c) == Some(Graft(root, c, Some(Dir(map[]))))
    ensures Lookup(Graft(root, c, Some(Dir(map[]))), c) == Some(Dir(map[]))
    ensures Lookup(root, c) == Some(Dir(map[])) ==> Graft(root, c, Some(Dir(map[]))) == root
    ensures !(c <= q) && !(q <= c) ==> Lookup(Graft(root, c, Some(Dir(map[]))), q) == Lookup(root, q)
  {
    hide MakeDirs, Graft;
    forall i | 0 <= i <= |c|
      ensures Lookup(root, c[..i]).Some? && Lookup(root, c[..i]).value.Dir?
    {
      assert c == c[..i] + c[i..];
      LookupSum(root, c[..i], c[i..]);
    }
    MakeAgain(root, c);
    LookupGraft(root, c, Some(Dir(map[])), q);
    LookupGraft(root, c, Some(Dir(map[])), c);
    GraftSame(root, c);
  }

  lemma {:induction false} MakeAgain(n: Node, p: Path)
    requires p != [] && Lookup(n, p).Some?
    ensures MakeDirs(Graft(n, p, None), p) == Some(Graft(n, p, Some(Dir(map[]))))
  {
    if |p| == 1 {
      assert p[1..] == [];
      assert (n.children - {p[0]})[p[0] := Dir(map[])] == n.children[p[0] := Dir(map[])];
    } else {
      MakeAgain(n.children[p[0]], p[1..]);
      var less := Graft(n.children[p[0]], p[1..], None);
      var made := Graft(n.children[p[0]], p[1..], Some(Dir(map[])));
      assert n.children[p[0] := less][p[0] := made] == n.children[p[0] := made];
    }
  }

  // ---- The repository ----

  /**
   * MAIN RESULT, with its exact condition. Preparing the output directory leaves the repository tree as
   * it was if and only if the directory is no ancestor of the repository and, when it lies in the
   * repository, was an empty directory before.
   */
  lemma {:induction false} PreparingSparesRepositoryExactly(root: Node, links: nat, c: Path, overwrite: bool,
                                                            repo: Path)
    requires Confirmed(root, links, c, overwrite) && Prepare(root, links, c, overwrite).Some?
    requires Lookup(root, repo).Some?
    ensures Lookup(Prepare(root, links, c, overwrite).value, repo) == Lookup(root, repo) <==>
            !(c < repo) && (repo <= c ==> Lookup(root, c) == Some(Dir(map[])))
  {
    hide Prepare, Lookup, Confirmed;
    PreparedExactly(root, links, c, overwrite, repo);
    var w := Prepare(root, links, c, overwrite).value;
    if c < repo {
      EmptyHoldsNothing(w, c, repo);
    } else if repo <= c {
      assert c == repo + c[|repo|..];
      LookupSum(root, repo, c[|repo|..]);
      LookupSum(w, repo, c[|repo|..]);
    }
  }

  lemma {:induction false} EmptyHoldsNothing(w: Node, c: Path, repo: Path)
    requires c < repo && Lookup(w, c) == Some(Dir(map[]))
    ensures Lookup(w, repo).None?
  {
    assert repo == c + repo[|c|..];
    LookupSum(w, c, repo[|c|..]);
  }

  /** What the guard confirms, by its second call. */
  lemma {:induction false} GuardConfirms(site: G.Site, abs: Path, overwrite: bool, allowCorpus: bool)
    requires G.GoodSite(site) && site.root.Dir? && ValidPath(abs)
    requires G.GuardPath(site, abs, overwrite, allowCorpus).Resolved?
    requires G.GuardPath(site, G.GuardPath(site, abs, overwrite, allowCorpus).path, overwrite, allowCorpus) ==
             G.GuardPath(site, abs, overwrite, allowCorpus)
    ensures Confirmed(site.root, site.links, G.GuardPath(site, abs, overwrite, allowCorpus).path, overwrite)
  {
    hide G.Broad, G.InRepo, G.InCorpus, G.Canonical, G.Existing;
    var c := G.GuardPath(site, abs, overwrite, allowCorpus).path;
    G.CanonicalIsValid(site.root, abs, site.links);
    NotTheRoot(site, c);
    if G.Exists(site.root, c, site.links) {
      RealIsItself(site.root, site.links, c);
    }
  }

  /** The root is one of the broad paths the guard refuses. */
  lemma {:induction false} NotTheRoot(site: G.Site, c: Path)
    ensures c == [] ==> G.Broad(site, c)
  {
    assert G.BroadPaths(site)[0] == [] && [] in G.BroadPaths(site);
    assert Real(site.root, [], site.links) == Some([]);
  }

  lemma {:induction false} RealIsItself(root: Node, links: nat, c: Path)
    requires Valid(root) && ValidPath(c) && G.Exists(root, c, links) && G.Canonical(root, c, links) == c
    ensures Real(root, c, links) == Some(c)
  {
    assert c[..|c|] == c;
    G.ExistingIs(root, c, links, |c|);
    assert c[|c|..] == [];
  }

  /**
   * MAIN RESULT. What the writer's own guard leaves of that condition: the directory is an ancestor of the
   * repository only when it is to be overwritten, and lies in the repository only by the corpus opt-in or
   * behind a name with two leading dots.
   */
  lemma {:induction false} WriterSparesRepositoryExactly(site: G.Site, abs: Path, overwrite: bool, allowCorpus: bool)
    requires G.GoodSite(site) && site.root.Dir? && ValidPath(abs) && G.Exists(site.root, site.repo, site.links)
    requires G.GuardPath(site, abs, overwrite, allowCorpus).Resolved?
    requires var g := G.GuardPath(site, abs, overwrite, allowCorpus);
             && G.GuardPath(site, g.path, overwrite, allowCorpus) == g
             && Prepare(site.root, site.links, g.path, overwrite).Some?
    ensures var c := G.GuardPath(site, abs, overwrite, allowCorpus).path;
            var repo := G.RealIfExists(site, site.repo);
            && (Lookup(Prepare(site.root, site.links, c, overwrite).value, repo) == Lookup(site.root, repo) <==>
                !(c < repo) && (repo <= c ==> Lookup(site.root, c) == Some(Dir(map[]))))
            && (c < repo ==> overwrite)
            && (repo <= c ==> (allowCorpus && G.InCorpus(site, c)) || (repo < c && StartsWithDots(c[|repo|])))
  {
    hide G.GuardPath, Prepare, G.InCorpus, Lookup, G.Canonical;
    var c, repo := G.GuardPath(site, abs, overwrite, allowCorpus).path, G.RealIfExists(site, site.repo);
    GuardConfirms(site, abs, overwrite, allowCorpus);
    RealIsPhysical(site.root, site.repo, site.links);
    PreparingSparesRepositoryExactly(site.root, site.links, c, overwrite, repo);
    G.GuardReturnsCanonical(site, abs, overwrite, allowCorpus);
    IsInsideMeans(c, repo);
    if c < repo {
      AboveSomething(site.root, c, repo);
      CanonicalIsPhysical(site.root, site.links, c, overwrite);
    }
  }

  /** The second call sees the path by its text, which is the same path unless white space is trimmed from it. */
  lemma {:induction false} ConfirmedByText(site: G.Site, output: string, overwrite: bool, allowCorpus: bool)
    requires G.GoodSite(site) && site.root.Dir? && G.Guard(site, output, overwrite, allowCorpus).Resolved?
    requires var g := G.Guard(site, output, overwrite, allowCorpus);
             IsTrimmed(PathText(g.path)) && G.Guard(site, PathText(g.path), overwrite, allowCorpus) == g
    ensures var g, abs := G.Guard(site, output, overwrite, allowCorpus), G.Normalize(site.cwd, Trim(output));
            && ValidPath(abs) && G.GuardPath(site, abs, overwrite, allowCorpus) == g
            && G.GuardPath(site, g.path, overwrite, allowCorpus) == g
  {
    hide G.GuardPath, G.Normalize, G.HasTraversal;
    var abs := G.Normalize(site.cwd, Trim(output));
    var c := G.Guard(site, output, overwrite, allowCorpus).path;
    G.NormalizeIsValid(site.cwd, Trim(output));
    G.GuardReturnsCanonical(site, abs, overwrite, allowCorpus);
    G.CanonicalIsValid(site.root, abs, site.links);
    G.GuardAgain(site, c, overwrite, allowCorpus);
  }

  /**
   * `writeDeterministicStressScaffolds`, up to the point where it writes the projects: the path is
   * confirmed, cleared and made. Whatever fails, the disk changes only by being prepared.
   */
  method PrepareOutput(disk: Disk, site: G.Site, output: string, overwrite: bool, allowCorpus: bool)
    returns (root: Option<Path>, ok: bool)
    requires G.GoodSite(site) && site.root.Dir? && disk.root == site.root && disk.links == site.links
    modifies disk
    ensures root.None? ==> !ok && disk.root == site.root
    ensures root.Some? ==>
              && G.Guard(site, output, overwrite, allowCorpus) == G.Resolved(root.value)
              && (ok <==> Prepare(site.root, site.links, root.value, overwrite).Some?)
              && (ok ==> Some(disk.root) == Prepare(site.root, site.links, root.value, overwrite))
    ensures root.Some? && IsTrimmed(PathText(root.value)) ==>
              && (ok <==> OnlyDirs(site.root, root.value))
              && (!ok ==> disk.root == site.root)
              && (ok ==> Lookup(disk.root, root.value) == Some(Dir(map[])))
    ensures root.Some? && IsTrimmed(PathText(root.value)) && ok && G.Exists(site.root, site.repo, site.links) ==>
              var c, repo := root.value, G.RealIfExists(site, site.repo);
              && (Lookup(disk.root, repo) == Lookup(site.root, repo) <==>
                  !(c < repo) && (repo <= c ==> Lookup(site.root, c) == Some(Dir(map[]))))
              && (c < repo ==> overwrite)
              && (repo <= c ==> (allowCorpus && G.InCorpus(site, c)) || (repo < c && StartsWithDots(c[|repo|])))
  {
    hide G.Guard, G.GuardPath, G.InCorpus, G.RealIfExists, Lookup, MakeDirs, OnlyDirs, Graft, G.Existing, PathText;
    ok := false;
    root := G.ConfirmOutput(site, output, overwrite, allowCorpus);
    if root.None? {
      return;
    }
    var c := root.value;
    if overwrite && c != [] && G.Exists(disk.root, c, disk.links) {
      disk.root := Graft(disk.root, c, None);
    }
    var made := MakeDirs(disk.root, c);
    if made.Some? {
      disk.root, ok := made.value, true;
    }
    if IsTrimmed(PathText(c)) {
      ConfirmedByText(site, output, overwrite, allowCorpus);
      var abs := G.Normalize(site.cwd, Trim(output));
      GuardConfirms(site, abs, overwrite, allowCorpus);
      PreparedExactly(site.root, site.links, c, overwrite, c);
      if ok && G.Exists(site.root, site.repo, site.links) {
        WriterSparesRepositoryExactly(site, abs, overwrite, allowCorpus);
      }
    }
  }

  /** An ancestor of a place that exists is a directory that is not empty. */
  lemma {:induction false} AboveSomething(root: Node, c: Path, repo: Path)
    requires c < repo && Lookup(root, repo).Some?
    ensures Lookup(root, c).Some? && Lookup(root, c).value.Dir? && Lookup(root, c).value.children != map[]
  {
    assert repo == c + repo[|c|..];
    LookupSum(root, c, repo[|c|..]);
  }

  /**
   * The condition does fail: with `--overwrite` the guard accepts every ancestor of the repository that is
   * not one of the broad paths, and preparing it removes the repository.
   */
  lemma {:induction false} AnAncestorIsCleared(site: G.Site, c: Path, allowCorpus: bool)
    requires G.GoodSite(site) && site.root.Dir? && ValidPath(c) && c != [] && Physical(site.root, c)
    requires G.Exists(site.root, site.repo, site.links) && c < G.RealIfExists(site, site.repo) && !G.Broad(site, c)
    ensures G.GuardPath(site, c, true, allowCorpus) == G.Resolved(c)
    ensures var w := Prepare(site.root, site.links, c, true);
            w.Some? && Lookup(w.value, G.RealIfExists(site, site.repo)).None?
  {
    hide G.Broad, Prepare, Lookup;
    var repo := G.RealIfExists(site, site.repo);
    RealIsPhysical(site.root, site.repo, site.links);
    AboveSomething(site.root, c, repo);
    IsInsideMeans(c, repo);
    PhysicalResolves(site.root, c, 0, site.links);
    assert c[..0] == [] && c[0..] == c && c[..|c|] == c && c[|c|..] == [] && c + [] == c;
    G.ExistingIs(site.root, c, site.links, |c|);
    PreparedExactly(site.root, site.links, c, true, repo);
    Cleared(site.root, c, repo);
    EmptyHoldsNothing(Prepare(site.root, site.links, c, true).value, c, repo);
  }

  /**
   * A link that leads nowhere yet: canonicalizing `/o` keeps its own name, although it names a place in
   * the repository `/r`. The guard lets it pass, and no directory can be made there.
   */
  lemma {:induction false} ADanglingLinkRefuses(links: nat)
    ensures var root := Dir(map["o" := Link("/r/x"), "r" := Dir(map[])]);
            && G.Canonical(root, ["o"], links) == ["o"]
            && forall overwrite :: Prepare(root, links, ["o"], overwrite).None?
  {
    var root := Dir(map["o" := Link("/r/x"), "r" := Dir(map[])]);
    DanglingTarget();
    assert ["o"][1..] == [] && ["o"][..0] == [] && ["o"][..1] == ["o"] && ["o"][0..] == ["o"];
    assert G.Exists(root, ["o"], links) == false by {
      DanglingNowhere(links);
    }
    G.ExistingIs(root, ["o"], links, 0);
    assert MakeDirs(Link("/r/x"), []).None?;
  }

  lemma {:induction false} DanglingTarget()
    ensures Split("/r/x", '/') == ["", "r", "x"]
  {
    var names := ["", "r", "x"];
    assert names[1..] == ["r", "x"] && ["r", "x"][1..] == ["x"];
    assert Join(["x"], '/') == "x" && Join(["r", "x"], '/') == "r/x" && Join(names, '/') == "/r/x";
    SplitOfJoin(names, '/');
  }

  lemma {:induction false} DanglingNowhere(links: nat)
    ensures Real(Dir(map["o" := Link("/r/x"), "r" := Dir(map[])]), ["o"], links).None?
  {
    var root := Dir(map["o" := Link("/r/x"), "r" := Dir(map[])]);
    DanglingTarget();
    assert ["o"][1..] == [];
    if links > 0 {
      var names := ["", "r", "x"];
      assert names + [] == names && names[1..] == ["r", "x"] && ["r", "x"][1..] == ["x"] && [] + ["r"] == ["r"];
      LookupSnoc(root, [], "r");
      assert Resolve(root, ["r"], ["x"], links - 1).None?;
      assert Resolve(root, [], ["r", "x"], links - 1).None?;
      assert Resolve(root, [], names, links - 1).None?;
    }
  }
}
