/**
 * Containment of normalized absolute paths, as both the trial cleanup and the scaffold guard decide
 * it (benchmarks/agentAcceptancePilot/fs.ts:181-184, benchmarks/stress/scaffold/outputGuard.ts:31-34).
 */
module Inside {
  import opened FileTree

  /** `relative(root, abs)` for normalized absolute paths: up to the common ancestor, then down. */
  function Relative(root: Path, abs: Path): seq<string>
    decreases |root|
  {
    if root == [] then abs
    else if abs != [] && root[0] == abs[0] then Relative(root[1..], abs[1..])
    else seq(|root|, _ => "..") + abs
  }

  predicate StartsWithDots(name: string) {
    ".." <= name
  }

  /** `isInside`. */
  predicate IsInside(abs: Path, root: Path) {
    var rel := Relative(root, abs);
    rel == [] || !StartsWithDots(rel[0])
  }

  /** What `isInside` decides: being at or below the root, except below a name that starts with two dots. */
  lemma {:induction false} IsInsideMeans(abs: Path, root: Path)
    ensures IsInside(abs, root) <==> root <= abs && (|abs| == |root| || !StartsWithDots(abs[|root|]))
  {
    if root != [] {
      if abs != [] && root[0] == abs[0] {
        IsInsideMeans(abs[1..], root[1..]);
        assert root <= abs <==> root[1..] <= abs[1..] by {
          if root[1..] <= abs[1..] { assert root == [root[0]] + root[1..]; assert abs == [abs[0]] + abs[1..]; }
        }
        if |abs| > |root| && root <= abs {
          assert abs[1..][|root[1..]|] == abs[|root|];
        }
      } else {
        assert Relative(root, abs)[0] == "..";
        assert !(root <= abs);
      }
    }
  }
}
