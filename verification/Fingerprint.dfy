/**
 * The byte stream a scaffold project is fingerprinted by (benchmarks/stress/scaffold/generate.ts:277-286):
 * each path and its content, in the order of the sorted paths, each followed by a NUL.
 */
module Fingerprint {
  import opened Lists

  type Files = map<string, string>

  const NUL: char := '\0'

  /** The order of `sort()`: by the characters, a proper prefix first. */
  predicate Below(a: string, b: string) {
    b != "" && (a == "" || a[0] < b[0] || (a[0] == b[0] && Below(a[1..], b[1..])))
  }

  lemma {:induction false} BelowIsStrict(a: string, b: string)
    ensures !(Below(a, b) && Below(b, a)) && !Below(a, a)
    ensures a == b || Below(a, b) || Below(b, a)
  {
    if a != "" {
      BelowIsStrict(a[1..], if b == "" then b else b[1..]);
      assert a == [a[0]] + a[1..];
      assert b != "" ==> b == [b[0]] + b[1..];
    }
  }

  lemma {:induction false} BelowChains(a: string, b: string, c: string)
    requires Below(a, b) && Below(b, c)
    ensures Below(a, c)
  {
    if a != "" && a[0] == b[0] == c[0] {
      BelowChains(a[1..], b[1..], c[1..]);
    }
  }

  predicate Ordered(keys: seq<string>) {
    forall i, j | 0 <= i < j < |keys| :: Below(keys[i], keys[j])
  }

  function Insert(k: string, keys: seq<string>): seq<string> {
    if keys == [] || Below(k, keys[0]) then [k] + keys else [keys[0]] + Insert(k, keys[1..])
  }

  /** `sort()` on a copy of the keys. */
  function Sort(keys: seq<string>): seq<string> {
    if keys == [] then [] else Insert(keys[0], Sort(keys[1..]))
  }

  lemma {:induction false} InsertMeans(k: string, keys: seq<string>)
    requires Ordered(keys) && k !in keys
    ensures Ordered(Insert(k, keys))
    ensures forall s :: s in Insert(k, keys) <==> s == k || s in keys
  {
    if keys == [] {
    } else if Below(k, keys[0]) {
      forall j | 0 <= j < |keys|
        ensures Below(k, keys[j])
      {
        if j > 0 {
          BelowChains(k, keys[0], keys[j]);
        }
      }
    } else {
      var rest := keys[1..];
      assert keys == [keys[0]] + rest;
      InsertMeans(k, rest);
      BelowIsStrict(k, keys[0]);
      var r := Insert(k, rest);
      forall j | 0 <= j < |r|
        ensures Below(keys[0], r[j])
      {
        assert r[j] in r;
        if r[j] != k {
          var i :| 0 <= i < |rest| && rest[i] == r[j];
          assert Below(keys[0], keys[i + 1]);
        }
      }
    }
  }

  lemma {:induction false} SortMeans(keys: seq<string>)
    requires Distinct(keys)
    ensures Ordered(Sort(keys))
    ensures forall s :: s in Sort(keys) <==> s in keys
  {
    if keys != [] {
      var rest := keys[1..];
      assert keys == [keys[0]] + rest;
      forall j | 0 <= j < |rest|
        ensures rest[j] != keys[0]
      {
        assert keys[j + 1] == rest[j];
      }
      SortMeans(rest);
      InsertMeans(keys[0], Sort(rest));
    }
  }

  /** An ordered list is determined by its elements. */
  lemma {:induction false} OrderedIsUnique(a: seq<string>, b: seq<string>)
    requires Ordered(a) && Ordered(b) && forall s :: s in a <==> s in b
    ensures a == b
  {
    assert b != [] ==> b[0] in a;
    if a != [] {
      assert a[0] in a && a[0] in b;
      assert b[0] in b && b[0] in a;
      var i :| 0 <= i < |b| && b[i] == a[0];
      var j :| 0 <= j < |a| && a[j] == b[0];
      assert a[0] == b[0] by {
        if a[0] != b[0] {
          BelowIsStrict(a[0], b[0]);
        }
      }
      assert a == [a[0]] + a[1..] && b == [b[0]] + b[1..];
      BelowIsStrict(a[0], a[0]);
      assert a[0] !in a[1..] && a[0] !in b[1..];
      forall s
        ensures s in a[1..] <==> s in b[1..]
      {
        assert s in a <==> s == a[0] || s in a[1..];
        assert s in b <==> s == a[0] || s in b[1..];
      }
      OrderedIsUnique(a[1..], b[1..]);
    }
  }

  // ---- The stream ----

  /** The keys of an object in the order of their insertion. */
  predicate KeysOf(keys: seq<string>, files: Files) {
    Distinct(keys) && (forall s | s in keys :: s in files) && (forall s | s in files :: s in keys)
  }

  /** What is fed for one path. */
  function Record(files: Files, path: string): string
    requires path in files
  {
    path + [NUL] + files[path] + [NUL]
  }

  function Stream(files: Files, keys: seq<string>): string
    requires forall s | s in keys :: s in files
  {
    if keys == [] then ""
    else
      assert forall s | s in keys[1..] :: s in keys;
      Record(files, keys[0]) + Stream(files, keys[1..])
  }

  lemma {:induction false} StreamSum(files: Files, keys: seq<string>, k: string)
    requires forall s | s in keys + [k] :: s in files
    ensures (forall s | s in keys :: s in files) && k in files
    ensures Stream(files, keys + [k]) == Stream(files, keys) + Record(files, k)
  {
    hide Record;
    assert k in keys + [k] && forall s | s in keys :: s in keys + [k];
    if keys == [] {
      assert keys + [k] == [k] && [k][1..] == [];
    } else {
      assert (keys + [k])[1..] == keys[1..] + [k];
      StreamSum(files, keys[1..], k);
    }
  }

  lemma {:induction false} StreamOfNone(files: Files)
    ensures Stream(files, []) == ""
  {
  }

  /** `projectBytesFingerprint`, up to the hash of what it feeds. */
  method ProjectBytesFingerprint(files: Files, inserted: seq<string>) returns (bytes: string)
    requires KeysOf(inserted, files)
    ensures (forall s | s in Sort(inserted) :: s in files) && bytes == Stream(files, Sort(inserted))
  {
    hide Sort, Ordered, Distinct, Stream;
    var keys := Sort(inserted);
    SortMeans(inserted);
    bytes := "";
    StreamOfNone(files);
    for i := 0 to |keys|
      invariant forall s | s in keys[..i] :: s in files
      invariant bytes == Stream(files, keys[..i])
    {
      assert keys[..i + 1] == keys[..i] + [keys[i]];
      StreamSum(files, keys[..i], keys[i]);
      ghost var before := bytes;
      bytes := bytes + keys[i];
      bytes := bytes + [NUL];
      bytes := bytes + files[keys[i]];
      bytes := bytes + [NUL];
      assert bytes == before + Record(files, keys[i]);
    }
    assert keys[..|keys|] == keys;
  }

  predicate NulFree(files: Files) {
    forall s | s in files :: NUL !in s && NUL !in files[s]
  }

  /** What precedes the first NUL, and what follows it. */
  lemma {:induction false} FirstNul(a: string, x: string, b: string, y: string)
    requires NUL !in a && NUL !in b && a + [NUL] + x == b + [NUL] + y
    ensures a == b && x == y
  {
    var s, t := a + [NUL] + x, b + [NUL] + y;
    var n := if |a| <= |b| then |a| else |b|;
    assert s[n] == t[n] && s[..n] == t[..n];
    assert a == s[..|a|] && b == t[..|b|];
    assert x == s[|a| + 1..] && y == t[|b| + 1..];
  }

  lemma {:induction false} StreamDetermines(f: Files, kf: seq<string>, g: Files, kg: seq<string>)
    requires NulFree(f) && NulFree(g)
    requires (forall s | s in kf :: s in f) && (forall s | s in kg :: s in g)
    requires Stream(f, kf) == Stream(g, kg)
    ensures kf == kg && forall s | s in kf :: f[s] == g[s]
  {
    if kf != [] && kg != [] {
      var xf, xg := Stream(f, kf[1..]), Stream(g, kg[1..]);
      RecordSum(f, kf[0], xf);
      RecordSum(g, kg[0], xg);
      FirstNul(kf[0], f[kf[0]] + [NUL] + xf, kg[0], g[kg[0]] + [NUL] + xg);
      FirstNul(f[kf[0]], xf, g[kg[0]], xg);
      StreamDetermines(f, kf[1..], g, kg[1..]);
      assert kf == [kf[0]] + kf[1..] && kg == [kg[0]] + kg[1..];
    }
  }

  lemma {:induction false} RecordSum(f: Files, k: string, rest: string)
    requires k in f
    ensures Record(f, k) + rest == k + [NUL] + (f[k] + [NUL] + rest)
  {
  }

  /**
   * MAIN RESULT. For NUL-free paths and contents two projects feed the same bytes if and only if they
   * are the same files, whatever the orders of insertion.
   */
  lemma {:induction false} SameBytesExactly(f: Files, insertedF: seq<string>, g: Files, insertedG: seq<string>)
    requires KeysOf(insertedF, f) && KeysOf(insertedG, g) && NulFree(f) && NulFree(g)
    ensures (forall s | s in Sort(insertedF) :: s in f) && (forall s | s in Sort(insertedG) :: s in g)
    ensures Stream(f, Sort(insertedF)) == Stream(g, Sort(insertedG)) <==> f == g
  {
    hide Stream, Sort, NulFree;
    SortMeans(insertedF);
    SortMeans(insertedG);
    if f == g {
      OrderedIsUnique(Sort(insertedF), Sort(insertedG));
    }
    if Stream(f, Sort(insertedF)) == Stream(g, Sort(insertedG)) {
      StreamDetermines(f, Sort(insertedF), g, Sort(insertedG));
      assert forall s :: s in f <==> s in g;
      assert forall s | s in f :: f[s] == g[s];
      assert f == g;
    }
  }

  // ---- When the bytes do not determine the files ----

  ghost predicate Feeds(files: Files, inserted: seq<string>, bytes: string) {
    KeysOf(inserted, files) && (forall s | s in Sort(inserted) :: s in files) && Stream(files, Sort(inserted)) == bytes
  }

  /** Some other files feed the same bytes. */
  ghost predicate Shared(files: Files, bytes: string) {
    exists other, inserted :: other != files && Feeds(other, inserted, bytes)
  }

  function Nuls(s: string): nat {
    if s == "" then 0 else (if s[0] == NUL then 1 else 0) + Nuls(s[1..])
  }

  lemma {:induction false} NulsOfSum(a: string, b: string)
    ensures Nuls(a + b) == Nuls(a) + Nuls(b)
  {
    if a == "" {
      assert a + b == b;
    } else {
      assert (a + b)[1..] == a[1..] + b;
      NulsOfSum(a[1..], b);
    }
  }

  lemma {:induction false} NoNuls(s: string)
    ensures Nuls(s) == 0 <==> NUL !in s
  {
    if s != "" {
      NoNuls(s[1..]);
      assert s == [s[0]] + s[1..];
    }
  }

  lemma {:induction false} NulsOfRecord(files: Files, path: string)
    requires path in files
    ensures Nuls(Record(files, path)) == 2 + Nuls(path) + Nuls(files[path])
  {
    assert Nuls([NUL]) == 1 + Nuls([NUL][1..]);
    NulsOfSum(path, [NUL]);
    NulsOfSum(path + [NUL], files[path]);
    NulsOfSum(path + [NUL] + files[path], [NUL]);
  }

  /** One file feeds its record. */
  lemma {:induction false} OneFeeds(path: string, content: string)
    ensures Feeds(map[path := content], [path], path + [NUL] + content + [NUL])
  {
    assert [path][1..] == [] && Sort([path]) == [path];
    var files: Files := map[path := content];
    assert Stream(files, [path]) == Record(files, path) + "";
  }

  lemma {:induction false} StreamEnds(files: Files, keys: seq<string>)
    requires keys != [] && forall s | s in keys :: s in files
    ensures var bytes := Stream(files, keys); bytes != "" && bytes[|bytes| - 1] == NUL
  {
    assert forall s | s in keys[1..] :: s in keys;
    if |keys| > 1 {
      StreamEnds(files, keys[1..]);
    }
  }

  /** Several files feed what one file feeds, whose content is the rest of the stream. */
  lemma {:induction false} SeveralAreShared(files: Files, keys: seq<string>)
    requires |keys| >= 2 && Ordered(keys) && forall s | s in keys :: s in files
    ensures Shared(files, Stream(files, keys))
  {
    assert keys[0] in keys && keys[1] in keys && forall s | s in keys[1..] :: s in keys;
    var rest := Stream(files, keys[1..]);
    StreamEnds(files, keys[1..]);
    var content := files[keys[0]] + [NUL] + rest[..|rest| - 1];
    OneFeeds(keys[0], content);
    assert rest == rest[..|rest| - 1] + [NUL];
    assert Record(files, keys[0]) + rest == keys[0] + [NUL] + content + [NUL];
    BelowIsStrict(keys[0], keys[1]);
    assert keys[1] !in map[keys[0] := content];
  }

  /** One file with a NUL feeds what another does, split at the NUL. */
  lemma {:induction false} OneWithNulIsShared(path: string, content: string)
    requires NUL in path || NUL in content
    ensures Shared(map[path := content], path + [NUL] + content + [NUL])
  {
    var bytes := path + [NUL] + content + [NUL];
    if NUL in path {
      var i :| 0 <= i < |path| && path[i] == NUL;
      var shorter, longer := path[..i], path[i + 1..] + [NUL] + content;
      OneFeeds(shorter, longer);
      assert path == shorter + [NUL] + path[i + 1..];
      assert shorter + [NUL] + longer + [NUL] == bytes;
      assert path !in map[shorter := longer];
    } else {
      var i :| 0 <= i < |content| && content[i] == NUL;
      var longer, shorter := path + [NUL] + content[..i], content[i + 1..];
      OneFeeds(longer, shorter);
      assert content == content[..i] + [NUL] + shorter;
      assert longer + [NUL] + shorter + [NUL] == bytes;
      assert path !in map[longer := shorter];
    }
  }

  /** Whatever feeds the bytes of one file without NULs is that file. */
  lemma {:induction false} OneIsAlone(path: string, content: string, other: Files, inserted: seq<string>)
    requires NUL !in path && NUL !in content && Feeds(other, inserted, path + [NUL] + content + [NUL])
    ensures other == map[path := content]
  {
    hide Sort, Stream, Record, Nuls, Distinct;
    var one: Files := map[path := content];
    var keys := Sort(inserted);
    OneFeeds(path, content);
    OneKey(path);
    OneRecord(one, path);
    NulsOfRecord(one, path);
    NoNuls(path);
    NoNuls(content);
    SortMeans(inserted);
    StreamOfNone(other);
    if keys != [] {
      assert keys[0] in keys && forall s | s in keys[1..] :: s in keys;
      StreamFirst(other, keys);
      NulsOfSum(Record(other, keys[0]), Stream(other, keys[1..]));
      NulsOfRecord(other, keys[0]);
      NoNuls(keys[0]);
      NoNuls(other[keys[0]]);
      if keys[1..] != [] {
        StreamEnds(other, keys[1..]);
        NoNuls(Stream(other, keys[1..]));
        assert false;
      }
      assert keys == [keys[0]];
      assert NulFree(other);
      SameBytesExactly(one, [path], other, inserted);
    }
  }

  lemma {:induction false} OneKey(path: string)
    ensures Sort([path]) == [path]
  {
    assert [path][1..] == [];
  }

  lemma {:induction false} OneRecord(files: Files, path: string)
    requires path in files
    ensures Stream(files, [path]) == Record(files, path) == path + [NUL] + files[path] + [NUL]
  {
    assert [path][1..] == [];
  }

  lemma {:induction false} StreamFirst(files: Files, keys: seq<string>)
    requires keys != [] && forall s | s in keys :: s in files
    ensures keys[0] in files && (forall s | s in keys[1..] :: s in files)
    ensures Stream(files, keys) == Record(files, keys[0]) + Stream(files, keys[1..])
  {
    assert forall s | s in keys[1..] :: s in keys;
  }

  /**
   * MAIN RESULT, with its exact condition. Some other files feed the same bytes if and only if there are
   * at least two files, or a NUL in a path or a content.
   */
  lemma {:induction false} SharedExactly(files: Files, inserted: seq<string>)
    requires KeysOf(inserted, files)
    ensures forall s | s in Sort(inserted) :: s in files
    ensures Shared(files, Stream(files, Sort(inserted))) <==> |files| >= 2 || !NulFree(files)
  {
    hide Sort, Stream, Distinct, Feeds;
    SortMeans(inserted);
    var keys := Sort(inserted);
    if |keys| >= 2 {
      assert keys[0] in keys && keys[1] in keys;
      BelowIsStrict(keys[0], keys[1]);
      assert {keys[0], keys[1]} <= files.Keys;
      TwoKeys(files, keys[0], keys[1]);
      SeveralAreShared(files, keys);
    } else if |keys| == 1 {
      assert keys == [keys[0]] && files.Keys == {keys[0]};
      OnlyOne(files, keys[0]);
      OneRecord(files, keys[0]);
      if NulFree(files) {
        forall other, insertedOther | Feeds(other, insertedOther, Stream(files, keys))
          ensures other == files
        {
          OneIsAlone(keys[0], files[keys[0]], other, insertedOther);
        }
      } else {
        OneWithNulIsShared(keys[0], files[keys[0]]);
      }
    } else {
      assert files == map[];
      StreamOfNone(files);
      forall other, insertedOther | Feeds(other, insertedOther, "")
        ensures other == files
      {
        NothingFeedsNothing(other, insertedOther);
      }
    }
  }

  lemma {:induction false} TwoKeys(files: Files, a: string, b: string)
    requires a in files && b in files && a != b
    ensures |files| >= 2
  {
    assert |files.Keys - {a, b}| == |files.Keys| - 2;
    assert |files.Keys| == |files|;
  }

  lemma {:induction false} OnlyOne(files: Files, path: string)
    requires files.Keys == {path}
    ensures |files| == 1 && files == map[path := files[path]]
  {
    assert |files.Keys| == |files|;
  }

  lemma {:induction false} NothingFeedsNothing(files: Files, inserted: seq<string>)
    requires Feeds(files, inserted, "")
    ensures files == map[]
  {
    SortMeans(inserted);
    if Sort(inserted) != [] {
      StreamEnds(files, Sort(inserted));
    }
  }

  /** Two projects that feed the same bytes. */
  lemma {:induction false} NulsCollide()
    ensures var f: Files, g: Files := map["a" := "x\0b\0y"], map["a" := "x", "b" := "y"];
            && f != g && KeysOf(["a"], f) && KeysOf(["a", "b"], g)
            && Sort(["a"]) == ["a"] && Sort(["a", "b"]) == ["a", "b"]
            && Stream(f, ["a"]) == Stream(g, ["a", "b"])
  {
    var f: Files, g: Files := map["a" := "x\0b\0y"], map["a" := "x", "b" := "y"];
    assert Below("a", "b");
    assert "a" in f && "b" !in f && "b" in g;
    assert ["a"][1..] == [] && ["a", "b"][1..] == ["b"] && ["b"][1..] == [];
    assert Record(f, "a") == Record(g, "a") + Record(g, "b");
    assert Stream(f, ["a"]) == Record(f, "a") + "" && Stream(g, ["b"]) == Record(g, "b") + "";
  }
}
