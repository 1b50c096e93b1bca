/**
 * The cache of editor models: the full sync of a project and the sync of what changed
 * (src/monaco/typescriptProject.ts:15, 82-96, 171-257, src/monaco/projectPaths.ts:1, 10-12).
 *
 * A disk holds the readable files; files and models are named by their project-relative path.
 */
module MonacoSync {
  import Text

  type Files = map<string, string>

  const MAX_SYNC_FILES: nat := 200

  // ---- Which paths count ----

  const ENDINGS := [".ts", ".tsx", ".js", ".jsx", ".mts", ".cts", ".mjs", ".cjs"]

  /** `isTypeScriptLikePath`. */
  predicate TypeScriptLike(path: string) {
    exists ending | ending in ENDINGS :: Text.EndsWith(Text.Lower(path), ending)
  }

  /** The TypeScript-like part of a map. */
  function Ts(files: Files): Files {
    map r | r in files && TypeScriptLike(r) :: files[r]
  }

  function TsPaths(scan: seq<string>): seq<string> {
    if scan == [] then [] else (if TypeScriptLike(scan[0]) then [scan[0]] else []) + TsPaths(scan[1..])
  }

  lemma {:induction false} TsPathsHold(scan: seq<string>, r: string)
    ensures r in TsPaths(scan) <==> r in scan && TypeScriptLike(r)
  {
    if scan != [] {
      TsPathsHold(scan[1..], r);
      assert scan == [scan[0]] + scan[1..];
    }
  }

  // ---- What the two syncs leave ----

  function Candidates(scan: seq<string>): seq<string> {
    if |TsPaths(scan)| <= MAX_SYNC_FILES then TsPaths(scan) else TsPaths(scan)[..MAX_SYNC_FILES]
  }

  /** The models after the paths were read again, one model per readable path. */
  function Reread(models: Files, paths: set<string>, disk: Files): Files {
    map r | r in models.Keys + disk.Keys && (if r in paths then r in disk else r in models) ::
      if r in paths then disk[r] else models[r]
  }

  lemma {:induction false} RereadOne(models: Files, paths: set<string>, disk: Files, r: string)
    requires r !in paths
    ensures Reread(models, paths + {r}, disk) ==
            if r in disk then Reread(models, paths, disk)[r := disk[r]] else Reread(models, paths, disk) - {r}
  {
  }

  lemma {:induction false} RereadNone(models: Files, disk: Files)
    ensures Reread(models, {}, disk) == models
  {
  }

  /** The models after a full sync. */
  function FullSync(scan: seq<string>, disk: Files): Files {
    Reread(map[], (set r | r in Candidates(scan)), disk)
  }

  function Gone(deleted: seq<string>): set<string> {
    set r | r in deleted && r != ""
  }

  function Again(changed: seq<string>): set<string> {
    set r | r in changed && r != "" && TypeScriptLike(r)
  }

  /** The models after the sync of a delta. */
  function Synced(models: Files, changed: seq<string>, deleted: seq<string>, disk: Files): Files {
    Reread(models - Gone(deleted), Again(changed), disk)
  }

  lemma {:induction false} EmptyIsNotTypeScriptLike()
    ensures !TypeScriptLike("")
  {
    forall ending | ending in ENDINGS
      ensures !Text.EndsWith(Text.Lower(""), ending)
    {
    }
  }

  // ---- The editor ----

  class Editor {
    var models: Files

    constructor ()
      ensures models == map[]
    {
      models := map[];
    }

    method EnsureMonacoModel(path: string, content: string)
      modifies this
      ensures models == old(models)[path := content]
    {
      if path in models {
        if models[path] != content {
          models := models[path := content];
        }
        return;
      }
      models := models[path := content];
    }

    method DisposeMonacoModelsForPaths(paths: set<string>)
      modifies this
      ensures models == old(models) - paths
    {
      var pending := paths;
      while pending != {}
        invariant pending <= paths && models == old(models) - (paths - pending)
        decreases |pending|
      {
        var path :| path in pending;
        models := models - {path};
        pending := pending - {path};
      }
    }

    /** `syncMonacoTypeScriptProject`: the reads end in any order. */
    method SyncTypeScriptProject(scan: seq<string>, disk: Files)
      modifies this
      ensures models == FullSync(scan, disk)
    {
      hide Reread, Candidates;
      models := map[];
      var candidates := Candidates(scan);
      var pending := set r | r in candidates;
      ghost var done: set<string> := {};
      RereadNone(models, disk);
      while pending != {}
        invariant done !! pending && done + pending == set r | r in candidates
        invariant models == Reread(map[], done, disk)
        decreases |pending|
      {
        var path :| path in pending;
        RereadOne(map[], done, disk, path);
        pending, done := pending - {path}, done + {path};
        if path in disk {
          EnsureMonacoModel(path, disk[path]);
        } else {
          NeverThere(done - {path}, disk, path);
        }
      }
      assert done == set r | r in candidates;
    }

    /** `syncMonacoChangedFiles`: the reads end in any order. */
    method SyncChangedFiles(changed: seq<string>, deleted: seq<string>, disk: Files)
      modifies this
      ensures models == Synced(old(models), changed, deleted, disk)
    {
      hide Gone, Again, Reread;
      if changed == [] && deleted == [] {
        NothingToSync(models, disk);
        return;
      }
      DisposeMonacoModelsForPaths(Gone(deleted));
      var pending := Again(changed);
      ghost var start, all, done: set<string> := models, pending, {};
      RereadNone(models, disk);
      while pending != {}
        invariant done !! pending && done + pending == all
        invariant models == Reread(start, done, disk)
        decreases |pending|
      {
        var path :| path in pending;
        RereadOne(start, done, disk, path);
        pending, done := pending - {path}, done + {path};
        if path in disk {
          EnsureMonacoModel(path, disk[path]);
        } else {
          DisposeMonacoModelsForPaths({path});
        }
      }
      assert done == all;
    }
  }

  /** A full sync starts from no models, so an unreadable path has none to dispose. */
  lemma {:induction false} NeverThere(done: set<string>, disk: Files, r: string)
    requires r !in disk
    ensures Reread(map[], done, disk) - {r} == Reread(map[], done, disk)
  {
  }

  lemma {:induction false} NothingToSync(models: Files, disk: Files)
    ensures Synced(models, [], [], disk) == models
  {
    hide TypeScriptLike;
    assert Again([]) == {} && models - Gone([]) == models;
    RereadNone(models, disk);
  }

  // ---- What the syncs do to one path ----

  lemma {:induction false} TypeScriptLikeDecides(path: string)
    ensures TypeScriptLike(path) <==>
            var lower := Text.Lower(path);
            || Text.EndsWith(lower, ".ts") || Text.EndsWith(lower, ".tsx") || Text.EndsWith(lower, ".js")
            || Text.EndsWith(lower, ".jsx") || Text.EndsWith(lower, ".mts") || Text.EndsWith(lower, ".cts")
            || Text.EndsWith(lower, ".mjs") || Text.EndsWith(lower, ".cjs")
  {
    hide Text.EndsWith, Text.Lower;
    assert ENDINGS[0] in ENDINGS && ENDINGS[1] in ENDINGS && ENDINGS[2] in ENDINGS && ENDINGS[3] in ENDINGS;
    assert ENDINGS[4] in ENDINGS && ENDINGS[5] in ENDINGS && ENDINGS[6] in ENDINGS && ENDINGS[7] in ENDINGS;
  }

  /** How many of the listed paths are TypeScript-like. */
  function Count(scan: seq<string>): nat {
    if scan == [] then 0
    else Count(scan[..|scan| - 1]) + if TypeScriptLike(scan[|scan| - 1]) then 1 else 0
  }

  /** The candidates are the first 200 TypeScript-like files of the scan. */
  lemma {:induction false} CandidatesDecide(scan: seq<string>, r: string)
    ensures r in Candidates(scan) <==>
            TypeScriptLike(r) && exists i :: 0 <= i < |scan| && scan[i] == r && Count(scan[..i]) < 200
  {
    hide TypeScriptLike;
    if scan == [] {
      assert Candidates(scan) == [];
    } else {
      var n := |scan| - 1;
      var init, last := scan[..n], scan[n];
      assert scan == init + [last];
      CandidatesDecide(init, r);
      TsPathsSnoc(init, last);
      TsPathsCount(init);
      assert forall i | 0 <= i <= n :: scan[..i] == init[..i];
      var whole := TsPaths(scan);
      assert TypeScriptLike(last) ==> whole == TsPaths(init) + [last];
      assert Candidates(scan) == Candidates(init) + if TypeScriptLike(last) && Count(init) < 200 then [last] else [];
    }
  }

  lemma {:induction false} TsPathsSnoc(scan: seq<string>, last: string)
    ensures TsPaths(scan + [last]) == TsPaths(scan) + if TypeScriptLike(last) then [last] else []
  {
    hide TypeScriptLike;
    if scan == [] {
      assert [] + [last] == [last] && [last][1..] == [];
    } else {
      assert (scan + [last])[1..] == scan[1..] + [last];
      TsPathsSnoc(scan[1..], last);
    }
  }

  lemma {:induction false} TsPathsCount(scan: seq<string>)
    ensures |TsPaths(scan)| == Count(scan)
  {
    hide TypeScriptLike;
    if scan != [] {
      var n := |scan| - 1;
      assert scan == scan[..n] + [scan[n]];
      TsPathsCount(scan[..n]);
      TsPathsSnoc(scan[..n], scan[n]);
    }
  }

  /** What a delta leaves of one path: changed files are as on disk, deleted ones gone, others as they were. */
  lemma {:induction false} SyncedDecides(models: Files, changed: seq<string>, deleted: seq<string>, disk: Files,
                                         r: string)
    ensures SameAt(Synced(models, changed, deleted, disk),
                   if r != "" && r in changed && TypeScriptLike(r) then disk
                   else if r != "" && r in deleted then map[]
                   else models, r)
  {
    hide TypeScriptLike;
  }

  // ---- Deltas ----

  /** A delta and the disk it leads to. */
  datatype Delta = Delta(changed: seq<string>, deleted: seq<string>, disk: Files)

  predicate SameAt(a: Files, b: Files, r: string) {
    (r in a <==> r in b) && (r in a ==> a[r] == b[r])
  }

  /**
   * The delta names each TypeScript-like file that differs, as changed or, when it is gone, as deleted;
   * what it calls deleted is gone or also called changed.
   */
  ghost predicate Truthful(before: Files, d: Delta) {
    && (forall r | TypeScriptLike(r) && !SameAt(before, d.disk, r) ::
        r in d.changed || (r in d.deleted && r !in d.disk))
    && (forall r | TypeScriptLike(r) && r in d.deleted && r in d.disk :: r in d.changed)
  }

  ghost predicate AllTruthful(disk: Files, deltas: seq<Delta>)
    decreases |deltas|
  {
    deltas == [] || (Truthful(disk, deltas[0]) && AllTruthful(deltas[0].disk, deltas[1..]))
  }

  function LastDisk(disk: Files, deltas: seq<Delta>): Files
    decreases |deltas|
  {
    if deltas == [] then disk else LastDisk(deltas[0].disk, deltas[1..])
  }

  function SyncedAll(models: Files, deltas: seq<Delta>): Files
    decreases |deltas|
  {
    if deltas == [] then models
    else SyncedAll(Synced(models, deltas[0].changed, deltas[0].deleted, deltas[0].disk), deltas[1..])
  }

  /** Every TypeScript-like model holds what is on disk. */
  ghost predicate Current(models: Files, disk: Files) {
    forall r | r in models && TypeScriptLike(r) :: r in disk && models[r] == disk[r]
  }

  predicate Named(deltas: seq<Delta>, r: string) {
    exists i | 0 <= i < |deltas| :: r in deltas[i].changed
  }

  lemma {:induction false} DeltaStep(models: Files, before: Files, d: Delta, r: string)
    requires TypeScriptLike(r) && Truthful(before, d) && Current(models, before)
    ensures Current(Synced(models, d.changed, d.deleted, d.disk), d.disk)
    ensures r in d.disk && r !in Synced(models, d.changed, d.deleted, d.disk) ==>
            r in before && r !in models && r !in d.changed
    ensures r in d.disk && r !in models && r !in d.changed ==> r !in Synced(models, d.changed, d.deleted, d.disk)
  {
    hide TypeScriptLike;
    EmptyIsNotTypeScriptLike();
    var after := Synced(models, d.changed, d.deleted, d.disk);
    forall q | q in after && TypeScriptLike(q)
      ensures q in d.disk && after[q] == d.disk[q]
    {
      if q !in d.changed {
        assert SameAt(before, d.disk, q);
      }
    }
    if r in d.disk && r !in d.changed {
      assert SameAt(before, d.disk, r);
    }
  }

  /**
   * MAIN RESULT. Over any sequence of truthful deltas no TypeScript-like model is ever stale, and the one
   * way a file on disk has no model is to have had none at the start and to be named changed by no delta.
   */
  lemma {:induction false} DeltasKeepCurrent(models: Files, disk: Files, deltas: seq<Delta>, r: string)
    requires AllTruthful(disk, deltas) && Current(models, disk) && TypeScriptLike(r)
    ensures Current(SyncedAll(models, deltas), LastDisk(disk, deltas))
    ensures r in LastDisk(disk, deltas) ==>
              (r !in SyncedAll(models, deltas) <==> r !in models && !Named(deltas, r))
    decreases |deltas|
  {
    hide Current, Truthful, Synced, TypeScriptLike;
    if deltas != [] {
      var d, rest := deltas[0], deltas[1..];
      var next := Synced(models, d.changed, d.deleted, d.disk);
      DeltaStep(models, disk, d, r);
      DeltasKeepCurrent(next, d.disk, rest, r);
      NamedStep(deltas, r);
      if r in LastDisk(d.disk, rest) && !Named(rest, r) {
        UnnamedIsOld(d.disk, rest, r);
      }
    }
  }

  lemma {:induction false} NamedStep(deltas: seq<Delta>, r: string)
    requires deltas != []
    ensures Named(deltas, r) <==> r in deltas[0].changed || Named(deltas[1..], r)
  {
    if Named(deltas, r) {
      var i :| 0 <= i < |deltas| && r in deltas[i].changed;
      assert i > 0 ==> r in deltas[1..][i - 1].changed;
    }
    if Named(deltas[1..], r) {
      var i :| 0 <= i < |deltas[1..]| && r in deltas[1..][i].changed;
      assert r in deltas[i + 1].changed;
    }
  }

  /** A file that no delta names changed and that is there at the end was there all along. */
  lemma {:induction false} UnnamedIsOld(disk: Files, deltas: seq<Delta>, r: string)
    requires AllTruthful(disk, deltas) && TypeScriptLike(r) && r in LastDisk(disk, deltas) && !Named(deltas, r)
    ensures r in disk
    decreases |deltas|
  {
    hide TypeScriptLike;
    if deltas != [] {
      NamedStep(deltas, r);
      UnnamedIsOld(deltas[0].disk, deltas[1..], r);
      assert SameAt(disk, deltas[0].disk, r);
    }
  }

  // ---- Against a full sync ----

  /** The scan lists every TypeScript-like file on disk. */
  predicate Covers(scan: seq<string>, disk: Files) {
    forall r | r in disk && TypeScriptLike(r) :: r in scan
  }

  /** Every TypeScript-like file on disk is among the candidates. */
  predicate Fits(scan: seq<string>, disk: Files) {
    forall r | r in disk && TypeScriptLike(r) :: r in Candidates(scan)
  }

  /** A full sync leaves nothing stale, and it covers the disk exactly when the limit cuts no file off. */
  lemma {:induction false} FullSyncIsCurrent(scan: seq<string>, disk: Files)
    ensures Current(FullSync(scan, disk), disk)
    ensures Ts(FullSync(scan, disk)) == Ts(disk) <==> Fits(scan, disk)
    ensures Covers(scan, disk) && |TsPaths(scan)| <= MAX_SYNC_FILES ==> Fits(scan, disk)
  {
    hide TypeScriptLike, Candidates;
    var models := FullSync(scan, disk);
    if Ts(models) == Ts(disk) {
      forall r | r in disk && TypeScriptLike(r)
        ensures r in Candidates(scan)
      {
        assert r in Ts(disk);
        assert r in Ts(models);
      }
    }
    if Fits(scan, disk) {
      assert Ts(models) == Ts(disk);
    }
    if Covers(scan, disk) && |TsPaths(scan)| <= MAX_SYNC_FILES {
      forall r | r in disk && TypeScriptLike(r)
        ensures r in Candidates(scan)
      {
        TsPathsHold(scan, r);
        FewPaths(scan);
      }
    }
  }

  lemma {:induction false} FewPaths(scan: seq<string>)
    requires |TsPaths(scan)| <= MAX_SYNC_FILES
    ensures Candidates(scan) == TsPaths(scan)
  {
  }

  /**
   * MAIN RESULT. After a full sync whose limit cut no file off (at most 200 TypeScript-like files, say),
   * any sequence of truthful deltas leaves the TypeScript-like models equal to the disk. That is what a
   * fresh full sync would leave if and only if the limit cuts off no file of the current disk either.
   */
  lemma {:induction false} DeltasAgreeWithFullSync(scan: seq<string>, disk: Files, deltas: seq<Delta>,
                                                   current: seq<string>)
    requires Fits(scan, disk) && AllTruthful(disk, deltas)
    ensures var models := SyncedAll(FullSync(scan, disk), deltas);
            var now := LastDisk(disk, deltas);
            Ts(models) == Ts(now) && (Ts(models) == Ts(FullSync(current, now)) <==> Fits(current, now))
  {
    hide TypeScriptLike, FullSync, SyncedAll, LastDisk, TsPaths, Candidates, AllTruthful, Fits, Covers, Named;
    var start := FullSync(scan, disk);
    var models, now := SyncedAll(start, deltas), LastDisk(disk, deltas);
    FullSyncIsCurrent(scan, disk);
    FullSyncIsCurrent(current, now);
    forall r | TypeScriptLike(r)
      ensures Current(models, now) && (r in now ==> r in models)
    {
      DeltasKeepCurrent(start, disk, deltas, r);
      if r in now && !Named(deltas, r) {
        UnnamedIsOld(disk, deltas, r);
        assert r in Ts(disk) && r in Ts(start);
      }
    }
    assert Ts(models) == Ts(now);
  }

  /** File `i` of a project of many files: `a.ts`, `aa.ts` and so on. */
  function Numbered(i: nat): string {
    seq(i + 1, _ => 'a') + ".ts"
  }

  function ManyFiles(n: nat): seq<string> {
    seq(n, i requires 0 <= i < n => Numbered(i))
  }

  lemma {:induction false} NumberedIsTypeScriptLike(i: nat)
    ensures TypeScriptLike(Numbered(i))
  {
    var path := Numbered(i);
    var lower := Text.Lower(path);
    assert lower[i + 1] == '.' && lower[i + 2] == 't' && lower[i + 3] == 's';
    assert lower[|lower| - 3..] == ".ts";
    assert Text.EndsWith(lower, ".ts") && ".ts" == ENDINGS[0];
  }

  lemma {:induction false} AllAreTsPaths(scan: seq<string>)
    requires forall r | r in scan :: TypeScriptLike(r)
    ensures TsPaths(scan) == scan
  {
    if scan != [] {
      assert scan[0] in scan && forall r | r in scan[1..] :: r in scan;
      AllAreTsPaths(scan[1..]);
    }
  }

  /** A project of 201 files: the last one is on disk and listed, and yet a full sync leaves it without a model. */
  lemma {:induction false} AFileIsCutOff()
    ensures var scan := ManyFiles(MAX_SYNC_FILES + 1);
            var disk: Files := map r | r in scan :: "";
            && Covers(scan, disk) && !Fits(scan, disk)
            && Numbered(MAX_SYNC_FILES) in disk && Numbered(MAX_SYNC_FILES) !in FullSync(scan, disk)
  {
    hide TypeScriptLike, Numbered, TsPaths;
    var scan := ManyFiles(MAX_SYNC_FILES + 1);
    var last := Numbered(MAX_SYNC_FILES);
    forall i: nat
      ensures TypeScriptLike(Numbered(i)) && |Numbered(i)| == i + 4
    {
      NumberedIsTypeScriptLike(i);
      NumberedLength(i);
    }
    assert scan[MAX_SYNC_FILES] == last;
    AllAreTsPaths(scan);
    forall i | 0 <= i < MAX_SYNC_FILES
      ensures scan[i] != last
    {
      assert |scan[i]| == i + 4;
    }
    assert last !in scan[..MAX_SYNC_FILES];
  }

  lemma {:induction false} NumberedLength(i: nat)
    ensures |Numbered(i)| == i + 4
  {
  }
}
