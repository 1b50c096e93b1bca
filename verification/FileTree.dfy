/** A disk as a tree of files, symbolic links and directories, and how the system follows a path in it. */
module FileTree {
  import opened Options
  import opened SplitJoin

  type Name = string
  type Path = seq<Name>

  datatype Node = File(bytes: string) | Link(target: string) | Dir(children: map<Name, Node>)

  /** A name a directory entry can have. */
  predicate ValidName(name: Name) {
    name != "" && name != "." && name != ".." && '/' !in name
  }

  predicate ValidPath(p: Path) {
    forall i | 0 <= i < |p| :: ValidName(p[i])
  }

  predicate Valid(n: Node) {
    n.Dir? ==> forall k | k in n.children :: ValidName(k) && Valid(n.children[k])
  }

  /** The node at a physical path, following no link. */
  function Lookup(n: Node, p: Path): Option<Node> {
    if p == [] then Some(n)
    else if n.Dir? && p[0] in n.children then Lookup(n.children[p[0]], p[1..])
    else None
  }

  /** The tree with the node at `p` replaced, or removed when `o` is absent. */
  function Graft(n: Node, p: Path, o: Option<Node>): Node
    requires p != []
  {
    if !n.Dir? then n
    else if |p| == 1 then
      if o.Some? then Dir(n.children[p[0] := o.value]) else Dir(n.children - {p[0]})
    else if p[0] in n.children then Dir(n.children[p[0] := Graft(n.children[p[0]], p[1..], o)])
    else n
  }

  /** `path` as text: absolute, with single slashes. */
  function PathText(p: Path): string {
    "/" + Join(p, '/')
  }

  /**
   * Follows `names` from the physical directory `at`, through at most `links` symbolic links, to a
   * physical path. Absent when a name is missing, a directory is needed and there is none, or too
   * many links are met.
   */
  function Resolve(root: Node, at: Path, names: seq<string>, links: nat): Option<Path>
    decreases links, |names|
  {
    if names == [] then (if Lookup(root, at).Some? then Some(at) else None)
    else
      var here := Lookup(root, at);
      if here.None? || !here.value.Dir? then None
      else if names[0] == "" || names[0] == "." then Resolve(root, at, names[1..], links)
      else if names[0] == ".." then Resolve(root, if at == [] then [] else at[..|at| - 1], names[1..], links)
      else if names[0] !in here.value.children then None
      else
        match here.value.children[names[0]]
        case Link(target) =>
          if links == 0 then None
          else Resolve(root, if Absolute(target) then [] else at, Split(target, '/') + names[1..], links - 1)
        case _ => Resolve(root, at + [names[0]], names[1..], links)
  }

  predicate Absolute(path: string) {
    path != "" && path[0] == '/'
  }

  /** `realpath` of an absolute path given by its names. */
  function Real(root: Node, names: seq<string>, links: nat): Option<Path> {
    Resolve(root, [], names, links)
  }

  /** The physical path an unfollowed last name denotes: what `lstat`, `unlink` and `rmdir` act on. */
  function Locate(root: Node, p: Path, links: nat): Option<Path> {
    if p == [] then Some([])
    else
      var parent := Real(root, p[..|p| - 1], links);
      if parent.None? || Lookup(root, parent.value + [p[|p| - 1]]).None? then None
      else Some(parent.value + [p[|p| - 1]])
  }

  // ---- Lookup and Graft ----

  lemma {:induction false} LookupSum(n: Node, p: Path, q: Path)
    ensures Lookup(n, p + q) == (if Lookup(n, p).Some? then Lookup(Lookup(n, p).value, q) else None)
  {
    if p == [] {
      assert p + q == q;
    } else {
      assert (p + q)[0] == p[0] && (p + q)[1..] == p[1..] + q;
      if n.Dir? && p[0] in n.children {
        LookupSum(n.children[p[0]], p[1..], q);
      }
    }
  }

  lemma {:induction false} LookupHere(n: Node)
    ensures Lookup(n, []) == Some(n)
  {
  }

  lemma {:induction false} LookupSnoc(n: Node, p: Path, name: Name)
    ensures Lookup(n, p + [name]) ==
            (if Lookup(n, p).Some? && Lookup(n, p).value.Dir? && name in Lookup(n, p).value.children
             then Some(Lookup(n, p).value.children[name]) else None)
  {
    LookupSum(n, p, [name]);
    if Lookup(n, p).Some? {
      var d := Lookup(n, p).value;
      assert [name][1..] == [];
    }
  }

  /** A graft changes the subtree at its path and nothing else. */
  lemma {:induction false} LookupGraft(n: Node, p: Path, o: Option<Node>, q: Path)
    requires p != [] && Lookup(n, p).Some?
    ensures !(p <= q) && !(q <= p) ==> Lookup(Graft(n, p, o), q) == Lookup(n, q)
    ensures Lookup(Graft(n, p, o), p) == o
    ensures q < p ==> Lookup(Graft(n, p, o), q).Some? && Lookup(n, q).Some?
                      && Lookup(Graft(n, p, o), q).value.Dir? && Lookup(n, q).value.Dir?
                      && Lookup(Graft(n, p, o), q).value == Graft(Lookup(n, q).value, p[|q|..], o)
  {
    if |p| > 1 {
      LookupGraft(n.children[p[0]], p[1..], o, if q == [] then [] else q[1..]);
      if q != [] && q[0] == p[0] {
        assert p <= q ==> p[1..] <= q[1..];
        assert p == [p[0]] + p[1..] && q == [q[0]] + q[1..];
        assert p[1..] <= q[1..] ==> p <= q;
        assert q[1..] <= p[1..] ==> q <= p;
        if |q| <= |p| {
          assert p[1..][|q[1..]|..] == p[|q|..];
        }
      }
      if q == [] {
        assert p[0..] == p;
      }
    } else {
      assert p[1..] == [];
      if q != [] {
        if q[0] == p[0] {
          assert p <= q;
        }
      } else {
        assert p[0..] == p;
      }
    }
  }

  lemma {:induction false} GraftTwice(n: Node, p: Path, a: Option<Node>, b: Option<Node>)
    requires p != [] && Lookup(n, p).Some?
    ensures Graft(Graft(n, p, a), p, b) == Graft(n, p, b)
  {
    if |p| == 1 {
      var m := if a.Some? then n.children[p[0] := a.value] else n.children - {p[0]};
      if b.Some? {
        assert m[p[0] := b.value] == n.children[p[0] := b.value];
      } else {
        assert m - {p[0]} == n.children - {p[0]};
      }
    } else {
      GraftTwice(n.children[p[0]], p[1..], a, b);
      var c := Graft(n.children[p[0]], p[1..], a);
      assert n.children[p[0] := c][p[0] := Graft(c, p[1..], b)] == n.children[p[0] := Graft(c, p[1..], b)];
    }
  }

  lemma {:induction false} GraftSame(n: Node, p: Path)
    requires p != [] && Lookup(n, p).Some?
    ensures Graft(n, p, Lookup(n, p)) == n
  {
    if |p| == 1 {
      assert n.children[p[0] := n.children[p[0]]] == n.children;
    } else {
      GraftSame(n.children[p[0]], p[1..]);
      assert n.children[p[0] := n.children[p[0]]] == n.children;
    }
  }

  /** A graft below a node is a graft of the changed node. */
  lemma {:induction false} GraftBelow(n: Node, p: Path, q: Path, o: Option<Node>)
    requires p != [] && q != [] && Lookup(n, p).Some?
    ensures Graft(n, p + q, o) == Graft(n, p, Some(Graft(Lookup(n, p).value, q, o)))
  {
    assert (p + q)[0] == p[0] && (p + q)[1..] == p[1..] + q;
    if |p| == 1 {
      assert p[1..] + q == q;
    } else {
      GraftBelow(n.children[p[0]], p[1..], q, o);
    }
  }

  // ---- Trees with nodes deleted ----

  /** `a` is `b` with some nodes deleted: nothing in it was added or changed. */
  predicate Less(a: Node, b: Node)
    decreases b
  {
    if b.Dir? then
      && a.Dir?
      && a.children.Keys <= b.children.Keys
      && forall k | k in b.children :: k in a.children ==> Less(a.children[k], b.children[k])
    else a == b
  }

  lemma {:induction false} LessSame(a: Node)
    ensures Less(a, a)
  {
    if a.Dir? {
      forall k | k in a.children ensures Less(a.children[k], a.children[k]) {
        LessSame(a.children[k]);
      }
    }
  }

  lemma {:induction false} LessTransitive(a: Node, b: Node, c: Node)
    requires Less(a, b) && Less(b, c)
    ensures Less(a, c)
    decreases c
  {
    if c.Dir? {
      forall k | k in c.children && k in a.children ensures Less(a.children[k], c.children[k]) {
        LessTransitive(a.children[k], b.children[k], c.children[k]);
      }
    }
  }

  lemma {:induction false} LessLookup(a: Node, b: Node, p: Path)
    requires Less(a, b) && Lookup(a, p).Some?
    ensures Lookup(b, p).Some? && Less(Lookup(a, p).value, Lookup(b, p).value)
  {
    if p != [] {
      LessLookup(a.children[p[0]], b.children[p[0]], p[1..]);
    }
  }

  lemma {:induction false} LessGraft(n: Node, p: Path, o: Option<Node>)
    requires p != [] && Lookup(n, p).Some?
    requires o.Some? ==> Less(o.value, Lookup(n, p).value)
    ensures Less(Graft(n, p, o), n)
  {
    forall k | k in n.children ensures Less(n.children[k], n.children[k]) {
      LessSame(n.children[k]);
    }
    if |p| > 1 {
      LessGraft(n.children[p[0]], p[1..], o);
    }
  }

  /** Deleting nodes can make a path fail, but never makes it lead somewhere else. */
  lemma {:induction false} LessResolve(a: Node, b: Node, at: Path, names: seq<string>, links: nat)
    requires Less(a, b) && Resolve(a, at, names, links).Some?
    ensures Resolve(b, at, names, links) == Resolve(a, at, names, links)
    decreases links, |names|
  {
    LessLookupHere(a, b, at);
    if names != [] {
      var here := Lookup(a, at).value;
      if names[0] == "" || names[0] == "." {
        LessResolve(a, b, at, names[1..], links);
      } else if names[0] == ".." {
        LessResolve(a, b, if at == [] then [] else at[..|at| - 1], names[1..], links);
      } else {
        match here.children[names[0]]
        case Link(target) =>
          LessResolve(a, b, if Absolute(target) then [] else at, Split(target, '/') + names[1..], links - 1);
        case _ =>
          LessResolve(a, b, at + [names[0]], names[1..], links);
      }
    }
  }

  lemma {:induction false} LessLookupHere(a: Node, b: Node, at: Path)
    requires Less(a, b)
    ensures Lookup(a, at).Some? ==> Lookup(b, at).Some? && Less(Lookup(a, at).value, Lookup(b, at).value)
  {
    if Lookup(a, at).Some? {
      LessLookup(a, b, at);
    }
  }

  lemma {:induction false} LessLocate(a: Node, b: Node, p: Path, links: nat)
    requires Less(a, b) && Locate(a, p, links).Some?
    ensures Locate(b, p, links) == Locate(a, p, links)
  {
    if p != [] {
      LessResolve(a, b, [], p[..|p| - 1], links);
      LessLookupHere(a, b, Locate(a, p, links).value);
    }
  }

  /** Resolving one more name from a path that resolves. */
  lemma {:induction false} ResolveLast(root: Node, at: Path, names: seq<string>, last: Name, links: nat)
    requires ValidName(last) && Resolve(root, at, names, links).Some?
    ensures var here := Lookup(root, Resolve(root, at, names, links).value);
            && here.Some?
            && (!here.value.Dir? || last !in here.value.children ==> Resolve(root, at, names + [last], links).None?)
            && (here.value.Dir? && last in here.value.children && !here.value.children[last].Link?
                ==> Resolve(root, at, names + [last], links) == Some(Resolve(root, at, names, links).value + [last]))
    decreases links, |names|
  {
    if names == [] {
      assert names + [last] == [last];
      assert [last][1..] == [];
      LookupSnoc(root, at, last);
    } else {
      assert (names + [last])[0] == names[0] && (names + [last])[1..] == names[1..] + [last];
      var here := Lookup(root, at).value;
      if names[0] == "" || names[0] == "." {
        ResolveLast(root, at, names[1..], last, links);
      } else if names[0] == ".." {
        ResolveLast(root, if at == [] then [] else at[..|at| - 1], names[1..], last, links);
      } else {
        match here.children[names[0]]
        case Link(target) =>
          var inner := Split(target, '/') + names[1..];
          assert Split(target, '/') + (names[1..] + [last]) == inner + [last];
          ResolveLast(root, if Absolute(target) then [] else at, inner, last, links - 1);
        case _ => ResolveLast(root, at + [names[0]], names[1..], last, links);
      }
    }
  }

  /** The first step of a resolution, to an entry or through a link. */
  lemma {:induction false} ResolveFirst(root: Node, at: Path, name: Name, rest: seq<string>, links: nat)
    requires ValidName(name) && Lookup(root, at).Some? && Lookup(root, at).value.Dir?
    requires name in Lookup(root, at).value.children
    ensures match Lookup(root, at).value.children[name]
            case Link(target) =>
              var from := if Absolute(target) then [] else at;
              Resolve(root, at, [name] + rest, links) ==
              if links == 0 then None else Resolve(root, from, Split(target, '/') + rest, links - 1)
            case _ => Resolve(root, at, [name] + rest, links) == Resolve(root, at + [name], rest, links)
  {
    assert ([name] + rest)[1..] == rest;
  }

  lemma {:induction false} ResolveNone(root: Node, at: Path, links: nat)
    requires Lookup(root, at).Some?
    ensures Resolve(root, at, [], links) == Some(at)
  {
  }

  // ---- Physical paths ----

  /** No proper prefix of a physical path, and not the path itself, is a link. */
  predicate Physical(root: Node, p: Path) {
    Lookup(root, p).Some? && forall i | 0 < i <= |p| :: Lookup(root, p[..i]).Some? && !Lookup(root, p[..i]).value.Link?
  }

  /** What resolution returns is physical and its names are valid. */
  lemma {:induction false} ResolveIsPhysical(root: Node, at: Path, names: seq<string>, links: nat)
    requires Valid(root) && Physical(root, at) && ValidPath(at)
    requires Resolve(root, at, names, links).Some?
    ensures Physical(root, Resolve(root, at, names, links).value)
    ensures ValidPath(Resolve(root, at, names, links).value)
    decreases links, |names|
  {
    if names != [] {
      var here := Lookup(root, at).value;
      if names[0] == "" || names[0] == "." {
        ResolveIsPhysical(root, at, names[1..], links);
      } else if names[0] == ".." {
        if at == [] {
          ResolveIsPhysical(root, at, names[1..], links);
        } else {
          PhysicalPrefix(root, at, |at| - 1);
          ResolveIsPhysical(root, at[..|at| - 1], names[1..], links);
        }
      } else {
        match here.children[names[0]]
        case Link(target) =>
          assert Physical(root, []);
          ResolveIsPhysical(root, if Absolute(target) then [] else at, Split(target, '/') + names[1..], links - 1);
        case _ =>
          PhysicalSnoc(root, at, names[0]);
          ValidLookup(root, at);
          ResolveIsPhysical(root, at + [names[0]], names[1..], links);
      }
    }
  }

  lemma {:induction false} PhysicalPrefix(root: Node, p: Path, n: nat)
    requires Physical(root, p) && n <= |p|
    ensures Physical(root, p[..n])
  {
    forall i | 0 < i <= n ensures Lookup(root, p[..n][..i]).Some? && !Lookup(root, p[..n][..i]).value.Link? {
      assert p[..n][..i] == p[..i];
    }
    assert p == p[..n] + p[n..];
    LookupSum(root, p[..n], p[n..]);
  }

  lemma {:induction false} PhysicalSnoc(root: Node, p: Path, name: Name)
    requires Physical(root, p) && Lookup(root, p).value.Dir? && name in Lookup(root, p).value.children
    requires !Lookup(root, p).value.children[name].Link?
    ensures Physical(root, p + [name])
  {
    LookupSnoc(root, p, name);
    forall i | 0 < i <= |p| + 1
      ensures Lookup(root, (p + [name])[..i]).Some? && !Lookup(root, (p + [name])[..i]).value.Link?
    {
      if i <= |p| {
        assert (p + [name])[..i] == p[..i];
      } else {
        assert (p + [name])[..i] == p + [name];
      }
    }
  }

  lemma {:induction false} ValidLookup(n: Node, p: Path)
    requires Valid(n) && Lookup(n, p).Some?
    ensures Valid(Lookup(n, p).value)
  {
    if p != [] {
      ValidLookup(n.children[p[0]], p[1..]);
    }
  }

  /** A physical path resolves to itself, whatever the limit on links. */
  lemma {:induction false} PhysicalResolves(root: Node, p: Path, i: nat, links: nat)
    requires Physical(root, p) && ValidPath(p) && i <= |p|
    ensures Resolve(root, p[..i], p[i..], links) == Some(p)
    decreases |p| - i
  {
    PhysicalPrefix(root, p, i);
    if i == |p| {
      assert p[..i] == p;
    } else {
      PhysicalPrefix(root, p, i + 1);
      LookupSnoc(root, p[..i], p[i]);
      assert p[..i + 1] == p[..i] + [p[i]];
      assert p[i..][0] == p[i] && p[i..][1..] == p[i + 1..];
      assert !Lookup(root, p[..i + 1]).value.Link? by { assert p[..i + 1] == p[..i + 1][..i + 1]; }
      PhysicalResolves(root, p, i + 1, links);
    }
  }

  /** What `realpath` returns is physical and its names are valid. */
  lemma {:induction false} RealIsPhysical(root: Node, names: seq<string>, links: nat)
    requires Valid(root) && Real(root, names, links).Some?
    ensures Physical(root, Real(root, names, links).value) && ValidPath(Real(root, names, links).value)
  {
    ResolveIsPhysical(root, [], names, links);
  }

  /** `realpath` of a real path is the path itself. */
  lemma {:induction false} RealTwice(root: Node, names: seq<string>, links: nat, again: nat)
    requires Valid(root) && Real(root, names, links).Some?
    ensures Real(root, Real(root, names, links).value, again) == Real(root, names, links)
  {
    RealIsPhysical(root, names, links);
    var p := Real(root, names, links).value;
    PhysicalResolves(root, p, 0, again);
    assert p[..0] == [] && p[0..] == p;
  }
}
