/**
 * The coordinated write of an approved plan and the rollback of a failed one
 * (src/app/orchestration/applyPlanApply.ts:113-289, src/core/build/followUpCheckpoint.ts:255-295,
 * with the file operations of electron/fileWriter.cts:504-581).
 */
module ApplyWrite {
  import opened Options

  datatype Action = Create | Modify

  datatype Status = Pending | Proposing | Ready | Errored | Skipped

  datatype Decision = Undecided | Approved | Rejected

  datatype Entry = Entry(
    relPath: string,
    absPath: string,
    action: Option<Action>,
    status: Status,
    decision: Decision,
    basis: Option<string>,
    proposal: Option<string>)

  /** The contents of the project's files. */
  type Contents = map<string, string>

  /** An entry the apply may write. */
  predicate Writable(f: Entry) {
    f.decision.Approved? && f.status.Ready? && f.basis.Some? && f.proposal.Some?
  }

  /** The approval filter. */
  function ApprovedOf(files: seq<Entry>): (r: seq<Entry>)
    ensures forall f | f in r :: Writable(f)
  {
    if files == [] then [] else (if Writable(files[0]) then [files[0]] else []) + ApprovedOf(files[1..])
  }

  /** A file of the plan that was approved, is ready, and holds both what it was made from and what to write. */
  predicate Chosen(f: Entry) {
    f.decision == Approved && f.status == Ready && f.basis != None && f.proposal != None
  }

  lemma {:induction false} ApprovedSnoc(files: seq<Entry>, last: Entry)
    ensures ApprovedOf(files + [last]) == ApprovedOf(files) + if Chosen(last) then [last] else []
  {
    if files == [] {
      assert [] + [last] == [last] && [last][1..] == [];
    } else {
      assert (files + [last])[1..] == files[1..] + [last];
      ApprovedSnoc(files[1..], last);
    }
  }

  /** The filter keeps the chosen files, each as often as it is listed, in the order of the list. */
  lemma {:induction false} ApprovedInOrder(files: seq<Entry>) returns (at: seq<nat>)
    ensures |at| == |ApprovedOf(files)| && forall i, j | 0 <= i < j < |at| :: at[i] < at[j]
    ensures forall i | 0 <= i < |at| :: at[i] < |files| && files[at[i]] == ApprovedOf(files)[i]
    ensures forall j: nat | j < |files| :: j in at <==> Chosen(files[j])
  {
    hide Chosen;
    at := [];
    if files != [] {
      hide ApprovedOf;
      var n := |files| - 1;
      assert files == files[..n] + [files[n]];
      ApprovedSnoc(files[..n], files[n]);
      var init := ApprovedInOrder(files[..n]);
      at := init + if Chosen(files[n]) then [n] else [];
      assert forall j: nat | j < n :: files[..n][j] == files[j] && (j in at <==> j in init);
    }
  }

  lemma {:induction false} ApprovedHolds(files: seq<Entry>, f: Entry)
    ensures f in ApprovedOf(files) <==> f in files && Chosen(f)
  {
    hide Chosen;
    var at := ApprovedInOrder(files);
    if f in ApprovedOf(files) {
      var i :| 0 <= i < |at| && ApprovedOf(files)[i] == f;
      assert at[i] in at;
    }
    if f in files && Chosen(f) {
      var j: nat :| j < |files| && files[j] == f;
      var i :| 0 <= i < |at| && at[i] == j;
      assert ApprovedOf(files)[i] == f;
    }
  }

  predicate AllWritable(files: seq<Entry>) {
    forall f | f in files :: Writable(f)
  }

  predicate Creates(f: Entry) {
    f.action == Some(Create)
  }

  // ---- What a write does, and when it may happen ----

  /** The disk lets the write of `f` through: a create needs the path free, an edit needs the basis on disk. */
  predicate Allowed(disk: Contents, f: Entry)
    requires Writable(f)
  {
    if Creates(f) then f.absPath !in disk else f.absPath in disk && disk[f.absPath] == f.basis.value
  }

  /** The disk after all of `files` were written in order. */
  function Written(disk: Contents, files: seq<Entry>): Contents
    requires AllWritable(files)
  {
    if files == [] then disk
    else
      var last := files[|files| - 1];
      assert last in files;
      Written(disk, files[..|files| - 1])[last.absPath := last.proposal.value]
  }

  /** Each of `files` could be written in its turn. */
  predicate Went(disk: Contents, files: seq<Entry>)
    requires AllWritable(files)
  {
    files == [] ||
    (Went(disk, files[..|files| - 1]) && Allowed(Written(disk, files[..|files| - 1]), files[|files| - 1]))
  }

  function RelPaths(files: seq<Entry>): seq<string> {
    seq(|files|, i requires 0 <= i < |files| => files[i].relPath)
  }

  predicate DistinctPaths(files: seq<Entry>) {
    forall i, j | 0 <= i < j < |files| :: files[i].relPath != files[j].relPath && files[i].absPath != files[j].absPath
  }

  /** The disk after the last of the writes. */
  lemma {:induction false} WrittenLast(disk: Contents, files: seq<Entry>)
    requires AllWritable(files) && files != []
    ensures var init, last := files[..|files| - 1], files[|files| - 1];
            && files == init + [last] && AllWritable(init) && Writable(last)
            && Written(disk, files) == Written(disk, init)[last.absPath := last.proposal.value]
  {
    assert files[|files| - 1] in files;
  }

  lemma {:induction false} WrittenElsewhere(disk: Contents, files: seq<Entry>, p: string)
    requires AllWritable(files) && forall f | f in files :: f.absPath != p
    ensures (p in Written(disk, files) <==> p in disk) && (p in disk ==> Written(disk, files)[p] == disk[p])
  {
    hide Written;
    if files == [] {
      NothingWritten(disk, files);
    } else {
      WrittenLast(disk, files);
      WrittenElsewhere(disk, files[..|files| - 1], p);
    }
  }

  lemma {:induction false} WrittenThere(disk: Contents, files: seq<Entry>, f: Entry)
    requires AllWritable(files) && DistinctPaths(files) && f in files
    ensures f.absPath in Written(disk, files) && Written(disk, files)[f.absPath] == f.proposal.value
  {
    hide Written, Writable;
    WrittenLast(disk, files);
    var init, last := files[..|files| - 1], files[|files| - 1];
    if f != last {
      var i :| 0 <= i < |files| && files[i] == f;
      assert init[i] == f;
      WrittenThere(disk, init, f);
    }
  }

  /** For distinct paths the disk differs from its start at the written paths only, each holding its proposal. */
  lemma {:induction false} WrittenAt(disk: Contents, files: seq<Entry>, p: string)
    requires AllWritable(files) && DistinctPaths(files)
    ensures (forall f | f in files :: f.absPath != p) ==>
              (p in Written(disk, files) <==> p in disk) && (p in disk ==> Written(disk, files)[p] == disk[p])
    ensures forall f | f in files && f.absPath == p ::
              p in Written(disk, files) && Written(disk, files)[p] == f.proposal.value
  {
    hide Written, DistinctPaths;
    if forall f | f in files :: f.absPath != p {
      WrittenElsewhere(disk, files, p);
    }
    forall f | f in files && f.absPath == p
      ensures p in Written(disk, files) && Written(disk, files)[p] == f.proposal.value
    {
      WrittenThere(disk, files, f);
    }
  }

  /** Before its own turn a distinct path is as it was at the start, so its check was against the start. */
  lemma {:induction false} WentFromStart(disk: Contents, files: seq<Entry>, i: nat)
    requires AllWritable(files) && DistinctPaths(files) && Went(disk, files) && i < |files|
    ensures Allowed(disk, files[i])
  {
    var init := files[..|files| - 1];
    if i == |init| {
      assert forall f | f in init :: f.absPath != files[i].absPath;
      WrittenAt(disk, init, files[i].absPath);
    } else {
      WentFromStart(disk, init, i);
    }
  }

  // ---- The write loop ----

  /**
   * The project's files and the faults to come: each file operation takes one, and a `true` makes it
   * fail for a reason outside the model without touching the disk.
   */
  class Workspace {
    var disk: Contents
    var faults: seq<bool>

    constructor (disk: Contents, faults: seq<bool>)
      ensures this.disk == disk && this.faults == faults
    {
      this.disk, this.faults := disk, faults;
    }

    method Fault() returns (fault: bool)
      modifies this`faults
      ensures fault == (old(faults) != [] && old(faults)[0])
      ensures faults == if old(faults) == [] then [] else old(faults)[1..]
    {
      fault := false;
      if faults != [] {
        fault := faults[0];
        faults := faults[1..];
      }
    }

    /** `createProjectFile`: refuses a path that exists. */
    method CreateProjectFile(path: string, content: string) returns (ok: bool)
      modifies this
      ensures ok ==> path !in old(disk) && disk == old(disk)[path := content]
      ensures !ok ==> disk == old(disk)
      ensures old(faults) == [] ==> faults == [] && ok == (path !in old(disk))
    {
      var fault := Fault();
      ok := !fault && path !in disk;
      if ok {
        disk := disk[path := content];
      }
    }

    /** `applyEdit`: writes only while the disk still holds what the patch was made from. */
    method ApplyEdit(path: string, before: string, after: string) returns (ok: bool)
      modifies this
      ensures ok ==> path in old(disk) && old(disk)[path] == before && disk == old(disk)[path := after]
      ensures !ok ==> disk == old(disk)
      ensures old(faults) == [] ==> faults == [] && ok == (path in old(disk) && old(disk)[path] == before)
    {
      var fault := Fault();
      ok := !fault && path in disk && disk[path] == before;
      if ok {
        disk := disk[path := after];
      }
    }

    /** `deleteProjectFile`: a path that is gone already counts as deleted. */
    method DeleteProjectFile(path: string) returns (ok: bool)
      modifies this
      ensures disk == if ok then old(disk) - {path} else old(disk)
      ensures old(faults) == [] ==> faults == [] && ok
    {
      var fault := Fault();
      ok := !fault;
      if ok {
        disk := disk - {path};
      }
    }

    /**
     * The write loop. The paths it reports are those of the first files of the list, the disk holds
     * exactly those writes, and the loop stopped early exactly when it reports an error.
     */
    method WriteApproved(approved: seq<Entry>, passes: Entry -> bool)
      returns (applied: seq<string>, error: bool, ghost n: nat)
      requires AllWritable(approved)
      modifies this
      ensures n <= |approved| && applied == RelPaths(approved[..n]) && (error <==> n < |approved|)
      ensures Went(old(disk), approved[..n]) && disk == Written(old(disk), approved[..n])
      ensures forall f | f in approved[..n] :: passes(f)
      ensures old(faults) == [] ==> faults == []
      ensures error && old(faults) == [] ==> !passes(approved[n]) || !Allowed(disk, approved[n])
    {
      applied, error, n := [], false, 0;
      for i := 0 to |approved|
        invariant n == i && !error
        invariant applied == RelPaths(approved[..i])
        invariant Went(old(disk), approved[..i]) && disk == Written(old(disk), approved[..i])
        invariant forall f | f in approved[..i] :: passes(f)
        invariant old(faults) == [] ==> faults == []
      {
        var file := approved[i];
        assert file in approved;
        if !passes(file) {
          error := true;
          break;
        }
        var ok;
        if Creates(file) {
          ok := CreateProjectFile(file.absPath, file.proposal.value);
        } else {
          ok := ApplyEdit(file.absPath, file.basis.value, file.proposal.value);
        }
        if !ok {
          error := true;
          break;
        }
        assert approved[..i + 1][..i] == approved[..i] && approved[..i + 1] == approved[..i] + [file];
        applied := applied + [file.relPath];
        n := i + 1;
      }
      assert approved[..|approved|] == approved;
    }

    /**
     * `rollbackPartialApply`: undoes the applied paths in the order in which they were applied, and stops
     * at the first it cannot undo. `m` is how many it got through.
     */
    method RollbackPartialApply(applied: seq<string>, entries: seq<Entry>)
      returns (ok: bool, rolledBack: seq<string>, ghost m: nat)
      requires AllWritable(entries)
      modifies this
      ensures m <= |applied| && (ok <==> m == |applied|)
      ensures RolledBack(old(disk), applied[..m], entries) == Rollback(disk, true)
      ensures rolledBack == Undone(applied[..m], entries)
      ensures forall p :: p in rolledBack <==> p in applied[..m] && exists f :: f in entries && Undoable(f, p)
      ensures old(faults) == [] ==> RolledBack(old(disk), applied, entries) == Rollback(disk, ok)
      ensures forall p :: AsWrittenOrRestored(old(disk), disk, applied, entries, p)
    {
      ok, rolledBack, m := true, [], 0;
      ghost var start := disk;
      for i := 0 to |applied|
        invariant ok && m == i
        invariant RolledBack(start, applied[..i], entries) == Rollback(disk, true)
        invariant rolledBack == Undone(applied[..i], entries)
        invariant old(faults) == [] ==> faults == []
        invariant forall p :: AsWrittenOrRestored(start, disk, applied, entries, p)
      {
        var entry := Find(applied[i], entries);
        ghost var before := disk;
        NextUndone(start, before, applied, entries, i);
        if entry.None? {
          m := i + 1;
          continue;
        }
        FindMeans(applied[i], entries);
        if Creates(entry.value) {
          ok := DeleteProjectFile(entry.value.absPath);
        } else {
          var current := if entry.value.absPath in disk then disk[entry.value.absPath] else "";
          ok := ApplyEdit(entry.value.absPath, current, entry.value.basis.value);
        }
        RestoredStep(start, before, disk, applied, entries, applied[i], entry.value);
        if !ok {
          UndoneHolds(applied[..m], entries);
          return;
        }
        m := i + 1;
        rolledBack := rolledBack + [applied[i]];
      }
      assert applied[..|applied|] == applied;
      UndoneHolds(applied, entries);
    }
  }

  // ---- Rollback ----

  /** The first entry with the path, among those that say whether they create or modify. */
  function Find(relPath: string, entries: seq<Entry>): Option<Entry> {
    if entries == [] then None
    else if entries[0].action.Some? && entries[0].relPath == relPath then Some(entries[0])
    else Find(relPath, entries[1..])
  }

  lemma {:induction false} FindMeans(relPath: string, entries: seq<Entry>)
    ensures Find(relPath, entries).Some? ==>
              Find(relPath, entries).value in entries && Find(relPath, entries).value.relPath == relPath
              && Find(relPath, entries).value.action.Some?
    ensures Find(relPath, entries).None? ==> forall f | f in entries && f.relPath == relPath :: f.action.None?
  {
    if entries != [] {
      FindMeans(relPath, entries[1..]);
      assert entries == [entries[0]] + entries[1..];
    }
  }

  datatype Rollback = Rollback(disk: Contents, ok: bool)

  /** The rollback without outside faults. */
  function RolledBack(disk: Contents, applied: seq<string>, entries: seq<Entry>): Rollback
    requires AllWritable(entries)
  {
    if applied == [] then Rollback(disk, true)
    else
      var entry := Find(applied[0], entries);
      if entry.None? then RolledBack(disk, applied[1..], entries)
      else
        FindMeans(applied[0], entries);
        if Creates(entry.value) then RolledBack(disk - {entry.value.absPath}, applied[1..], entries)
        else if entry.value.absPath in disk then
          RolledBack(disk[entry.value.absPath := entry.value.basis.value], applied[1..], entries)
        else Rollback(disk, false)
  }

  /** The applied paths that have an entry to undo. */
  function Undone(applied: seq<string>, entries: seq<Entry>): seq<string> {
    if applied == [] then []
    else (if Find(applied[0], entries).Some? then [applied[0]] else []) + Undone(applied[1..], entries)
  }

  /** An entry for the path that says whether it created or modified. */
  predicate Undoable(f: Entry, p: string) {
    f.relPath == p && f.action != None
  }

  /** The rolled back paths are the applied ones for which there is such an entry. */
  lemma {:induction false} UndoneHolds(applied: seq<string>, entries: seq<Entry>)
    ensures forall p :: p in Undone(applied, entries) <==>
              p in applied && exists f :: f in entries && Undoable(f, p)
  {
    hide Find;
    if applied != [] {
      assert applied == [applied[0]] + applied[1..];
      UndoneHolds(applied[1..], entries);
      FindMeans(applied[0], entries);
      var found := Find(applied[0], entries);
      assert found.Some? ==> Undoable(found.value, applied[0]);
    }
  }

  lemma {:induction false} UndoneSum(a: seq<string>, b: seq<string>, entries: seq<Entry>)
    ensures Undone(a + b, entries) == Undone(a, entries) + Undone(b, entries)
  {
    if a == [] {
      assert a + b == b;
    } else {
      assert (a + b)[0] == a[0] && (a + b)[1..] == a[1..] + b;
      UndoneSum(a[1..], b, entries);
    }
  }

  /** A rollback in two parts. */
  lemma {:induction false} RolledBackSum(disk: Contents, a: seq<string>, b: seq<string>, entries: seq<Entry>)
    requires AllWritable(entries)
    ensures RolledBack(disk, a + b, entries) ==
            if RolledBack(disk, a, entries).ok then RolledBack(RolledBack(disk, a, entries).disk, b, entries)
            else RolledBack(disk, a, entries)
  {
    if a == [] {
      assert a + b == b;
    } else {
      assert (a + b)[0] == a[0] && (a + b)[1..] == a[1..] + b;
      var entry := Find(a[0], entries);
      if entry.None? {
        RolledBackSum(disk, a[1..], b, entries);
      } else {
        FindMeans(a[0], entries);
        if Creates(entry.value) {
          RolledBackSum(disk - {entry.value.absPath}, a[1..], b, entries);
        } else if entry.value.absPath in disk {
          RolledBackSum(disk[entry.value.absPath := entry.value.basis.value], a[1..], b, entries);
        }
      }
    }
  }

  /** What undoing one more path does, and what it means for the whole rollback when it cannot be undone. */
  lemma {:induction false} NextUndone(start: Contents, disk: Contents, applied: seq<string>, entries: seq<Entry>,
                                      i: nat)
    requires AllWritable(entries) && i < |applied| && RolledBack(start, applied[..i], entries) == Rollback(disk, true)
    ensures RolledBack(start, applied[..i + 1], entries) == RolledBack(disk, [applied[i]], entries)
    ensures Undone(applied[..i + 1], entries) == Undone(applied[..i], entries) + Undone([applied[i]], entries)
    ensures !RolledBack(disk, [applied[i]], entries).ok ==> RolledBack(start, applied, entries) == Rollback(disk, false)
  {
    assert applied[..i + 1] == applied[..i] + [applied[i]];
    RolledBackSum(start, applied[..i], [applied[i]], entries);
    UndoneSum(applied[..i], [applied[i]], entries);
    if !RolledBack(disk, [applied[i]], entries).ok {
      assert applied == applied[..i + 1] + applied[i + 1..];
      RolledBackSum(start, applied[..i + 1], applied[i + 1..], entries);
      RolledBackOne(disk, applied[i], entries);
    }
  }

  lemma {:induction false} RolledBackOne(disk: Contents, relPath: string, entries: seq<Entry>)
    requires AllWritable(entries)
    ensures !RolledBack(disk, [relPath], entries).ok ==> RolledBack(disk, [relPath], entries).disk == disk
  {
    assert [relPath][1..] == [];
  }

  /** Whatever fails during the rollback, each path is as it was before it, or as its entry restores it. */
  ghost predicate AsWrittenOrRestored(before: Contents, after: Contents, applied: seq<string>, entries: seq<Entry>,
                                      p: string)
    requires AllWritable(entries)
  {
    || ((p in after <==> p in before) && (p in after ==> after[p] == before[p]))
    || exists f :: f in entries && f.absPath == p && f.relPath in applied && Restored(after, f)
  }

  /** The disk holds what `f` started from. */
  predicate Restored(disk: Contents, f: Entry)
    requires Writable(f)
  {
    if Creates(f) then f.absPath !in disk else f.absPath in disk && disk[f.absPath] == f.basis.value
  }

  lemma {:induction false} RestoredStep(start: Contents, before: Contents, after: Contents, applied: seq<string>,
                                        entries: seq<Entry>, rel: string, f: Entry)
    requires AllWritable(entries) && f in entries && f.relPath == rel && rel in applied
    requires forall p :: AsWrittenOrRestored(start, before, applied, entries, p)
    requires after == before || (Creates(f) && after == before - {f.absPath})
             || (!Creates(f) && after == before[f.absPath := f.basis.value])
    ensures forall p :: AsWrittenOrRestored(start, after, applied, entries, p)
  {
    forall p
      ensures AsWrittenOrRestored(start, after, applied, entries, p)
    {
      assert AsWrittenOrRestored(start, before, applied, entries, p);
      if after != before && p == f.absPath {
        assert Restored(after, f);
      }
    }
  }

  /** A written entry the rollback passes over although it changed the file. */
  predicate Overlooked(f: Entry) {
    f.action.None? && f.proposal != f.basis
  }

  /** The disk after `f` was undone. */
  function UndoneOne(disk: Contents, f: Entry): Contents
    requires Writable(f)
  {
    if f.action.None? then disk
    else if Creates(f) then disk - {f.absPath}
    else disk[f.absPath := f.basis.value]
  }

  lemma {:induction false} RolledBackFirst(disk: Contents, files: seq<Entry>, entries: seq<Entry>)
    requires AllWritable(entries) && DistinctPaths(entries)
    requires files != [] && files[0] in entries && files[0].absPath in disk
    ensures RolledBack(disk, RelPaths(files), entries) ==
            RolledBack(UndoneOne(disk, files[0]), RelPaths(files[1..]), entries)
  {
    assert RelPaths(files)[0] == files[0].relPath && RelPaths(files)[1..] == RelPaths(files[1..]);
    FindMeans(files[0].relPath, entries);
    FindDistinct(files[0], entries);
  }

  /** The first of distinct files shares its path with none of the others. */
  lemma {:induction false} FirstIsApart(files: seq<Entry>)
    requires files != [] && DistinctPaths(files)
    ensures DistinctPaths(files[1..]) && files == [files[0]] + files[1..]
    ensures forall g | g in files[1..] :: g in files && g.absPath != files[0].absPath
  {
    forall j | 0 <= j < |files[1..]|
      ensures files[1..][j].absPath != files[0].absPath
    {
      assert files[j + 1] == files[1..][j];
    }
    assert files == [files[0]] + files[1..];
  }

  /** Rolling back a list of distinct written files: what is left at each path. */
  lemma {:induction false} RolledBackAt(disk: Contents, files: seq<Entry>, entries: seq<Entry>)
    requires AllWritable(entries) && DistinctPaths(entries) && DistinctPaths(files)
    requires forall f | f in files :: f in entries
    requires forall f | f in files :: f.absPath in disk
    ensures var r := RolledBack(disk, RelPaths(files), entries);
            && r.ok
            && (forall p | forall f | f in files :: f.absPath != p ::
                  (p in r.disk <==> p in disk) && (p in disk ==> r.disk[p] == disk[p]))
            && (forall f | f in files && f.action.Some? :: Restored(r.disk, f))
            && (forall f | f in files && f.action.None? :: f.absPath in r.disk && r.disk[f.absPath] == disk[f.absPath])
  {
    hide RolledBack, RelPaths, DistinctPaths, Find;
    if files == [] {
      NothingRolledBack(disk, entries);
    } else {
      FirstIsApart(files);
      RolledBackFirst(disk, files, entries);
      RolledBackAt(UndoneOne(disk, files[0]), files[1..], entries);
    }
  }

  lemma {:induction false} NothingRolledBack(disk: Contents, entries: seq<Entry>)
    requires AllWritable(entries)
    ensures RolledBack(disk, RelPaths([]), entries) == Rollback(disk, true)
  {
  }

  lemma {:induction false} FindDistinct(f: Entry, entries: seq<Entry>)
    requires DistinctPaths(entries) && f in entries
    ensures Find(f.relPath, entries) == if f.action.Some? then Some(f) else None
  {
    if entries[0] != f {
      assert entries[0].relPath != f.relPath by {
        var j :| 0 <= j < |entries| && entries[j] == f;
      }
      assert f in entries[1..] by {
        var j :| 0 <= j < |entries| && entries[j] == f;
        assert entries[1..][j - 1] == f;
      }
      assert DistinctPaths(entries[1..]);
      FindDistinct(f, entries[1..]);
    } else if f.action.None? {
      NotFound(f.relPath, entries[1..]);
    }
  }

  lemma {:induction false} NotFound(relPath: string, entries: seq<Entry>)
    requires forall f | f in entries :: f.relPath != relPath
    ensures Find(relPath, entries).None?
  {
    if entries != [] {
      assert entries == [entries[0]] + entries[1..];
      NotFound(relPath, entries[1..]);
    }
  }

  /**
   * MAIN RESULT, with its exact condition. After any prefix of the approved list was written, rolling
   * back with no outside fault reports success, and it restores the starting disk if and only if no
   * written entry is overlooked: one that carries no action and changed its file. (The write treats
   * such an entry as an edit; the rollback list leaves it out.)
   */
  lemma {:induction false} RollbackRestoresExactly(disk: Contents, approved: seq<Entry>, n: nat)
    requires AllWritable(approved) && DistinctPaths(approved) && n <= |approved|
    requires Went(disk, approved[..n])
    ensures var r := RolledBack(Written(disk, approved[..n]), RelPaths(approved[..n]), approved);
            && r.ok
            && (r.disk == disk <==> forall f | f in approved[..n] :: !Overlooked(f))
  {
    hide Written, Went, RolledBack, RelPaths;
    var files := approved[..n];
    var after := Written(disk, files);
    forall f | f in files
      ensures f in approved && f.absPath in after && after[f.absPath] == f.proposal.value && Allowed(disk, f)
    {
      WrittenAt(disk, files, f.absPath);
      var i :| 0 <= i < |files| && files[i] == f;
      assert approved[i] == f;
      WentFromStart(disk, files, i);
    }
    RolledBackAt(after, files, approved);
    var r := RolledBack(after, RelPaths(files), approved);
    forall p | forall f | f in files :: f.absPath != p
      ensures (p in r.disk <==> p in disk) && (p in disk ==> r.disk[p] == disk[p])
    {
      WrittenAt(disk, files, p);
    }
    if forall f | f in files :: !Overlooked(f) {
      forall p
        ensures (p in r.disk <==> p in disk) && (p in disk ==> r.disk[p] == disk[p])
      {
        if f :| f in files && f.absPath == p {
          assert !Overlooked(f);
        }
      }
      assert r.disk == disk;
    } else {
      var f :| f in files && Overlooked(f);
      assert r.disk[f.absPath] == f.proposal.value && disk[f.absPath] == f.basis.value;
    }
  }

  /** Such an entry: an edit without an action is written, and the rollback leaves it. */
  lemma {:induction false} AnEditWithoutActionStays()
    ensures var f := Entry("a", "/a", None, Ready, Approved, Some("old"), Some("new"));
            var disk: Contents := map["/a" := "old"];
            && AllWritable([f]) && Went(disk, [f])
            && RolledBack(Written(disk, [f]), ["a"], [f]) == Rollback(map["/a" := "new"], true)
  {
    var f := Entry("a", "/a", None, Ready, Approved, Some("old"), Some("new"));
    var disk: Contents := map["/a" := "old"];
    assert [f][..0] == [] && ["a"][1..] == [] && [f][1..] == [];
    assert Written(disk, []) == disk && Went(disk, []);
    assert disk["/a" := "new"] == map["/a" := "new"];
    assert Find("a", [f]).None?;
  }

  // ---- The orchestration around the writes ----

  /** A list can be written only if each of its prefixes can. */
  lemma {:induction false} WentPrefix(disk: Contents, files: seq<Entry>, n: nat)
    requires AllWritable(files) && Went(disk, files) && n < |files|
    ensures Went(disk, files[..n]) && Allowed(Written(disk, files[..n]), files[n])
    decreases |files|
  {
    if n < |files| - 1 {
      var init := files[..|files| - 1];
      WentPrefix(disk, init, n);
      assert init[..n] == files[..n];
    }
  }

  /** A file that is to be created is not there; any other holds what its proposal was made from. */
  predicate Matches(disk: Contents, f: Entry) {
    if f.action == Some(Create) then f.absPath !in disk
    else f.absPath in disk && f.basis == Some(disk[f.absPath])
  }

  /** Distinct files can all be written in turn exactly when each of them matches the disk at the start. */
  lemma {:induction false} WentExactly(disk: Contents, files: seq<Entry>)
    requires AllWritable(files) && DistinctPaths(files)
    ensures Went(disk, files) <==> forall f | f in files :: Matches(disk, f)
    decreases |files|
  {
    hide Written, DistinctPaths;
    if files != [] {
      var init, last := files[..|files| - 1], files[|files| - 1];
      WrittenLast(disk, files);
      DistinctInit(files);
      WentExactly(disk, init);
      WrittenElsewhere(disk, init, last.absPath);
      assert Allowed(Written(disk, init), last) <==> Matches(disk, last);
      assert forall f :: f in files <==> f in init || f == last;
    }
  }

  lemma {:induction false} DistinctInit(files: seq<Entry>)
    requires DistinctPaths(files) && files != []
    ensures DistinctPaths(files[..|files| - 1])
    ensures forall f | f in files[..|files| - 1] :: f.absPath != files[|files| - 1].absPath
  {
  }

  /** The same of the files of a plan, without the filter. */
  lemma {:induction false} ApprovedMeans(disk: Contents, files: seq<Entry>, passes: Entry -> bool)
    requires DistinctPaths(ApprovedOf(files))
    ensures ApprovedOf(files) == [] <==> forall f | f in files :: !Chosen(f)
    ensures (forall f | f in ApprovedOf(files) :: passes(f)) <==> forall f | f in files && Chosen(f) :: passes(f)
    ensures Went(disk, ApprovedOf(files)) <==> forall f | f in files && Chosen(f) :: Matches(disk, f)
    ensures var after := Written(disk, ApprovedOf(files));
            && (forall f | f in files && Chosen(f) :: f.absPath in after && f.proposal == Some(after[f.absPath]))
            && (forall p | forall f | f in files && Chosen(f) :: f.absPath != p ::
                  (p in after <==> p in disk) && (p in after ==> after[p] == disk[p]))
  {
    hide Written, Went, Chosen, Matches, DistinctPaths, ApprovedOf;
    var approved := ApprovedOf(files);
    forall f
      ensures f in approved <==> f in files && Chosen(f)
    {
      ApprovedHolds(files, f);
    }
    assert approved != [] ==> approved[0] in approved;
    WentExactly(disk, approved);
    forall p
      ensures (forall f | f in approved :: f.absPath != p) ==>
                var after := Written(disk, approved);
                (p in after <==> p in disk) && (p in disk ==> after[p] == disk[p])
      ensures forall f | f in approved && f.absPath == p ::
                p in Written(disk, approved) && Written(disk, approved)[p] == f.proposal.value
    {
      WrittenAt(disk, approved, p);
    }
  }

  datatype Outcome = NoApprovedFiles | Incomplete | StaleAfterError | RolledBackAfterError | Verifying

  /**
   * `applyApprovedPlanFilesOrchestration`, up to the point where verification starts. `incomplete`
   * is the answer of the completeness check and `stale` that of the stale check after a failed write.
   */
  method ApplyApproved(w: Workspace, files: seq<Entry>, incomplete: bool, passes: Entry -> bool, stale: bool)
    returns (outcome: Outcome, applied: seq<string>, ghost n: nat)
    requires DistinctPaths(ApprovedOf(files))
    modifies w
    ensures outcome.NoApprovedFiles? <==> forall f | f in files :: !Chosen(f)
    ensures outcome.Incomplete? <==> incomplete && exists f :: f in files && Chosen(f)
    ensures old(w.faults) == [] ==>
              (outcome.Verifying? <==>
               && !incomplete && (exists f :: f in files && Chosen(f))
               && forall f | f in files && Chosen(f) :: passes(f) && Matches(old(w.disk), f))
    ensures outcome.Verifying? ==>
              && (forall f | f in files && Chosen(f) ::
                    && passes(f) && Matches(old(w.disk), f)
                    && f.absPath in w.disk && f.proposal == Some(w.disk[f.absPath]))
              && (forall p | forall f | f in files && Chosen(f) :: f.absPath != p ::
                    (p in w.disk <==> p in old(w.disk)) && (p in w.disk ==> w.disk[p] == old(w.disk)[p]))
    ensures outcome.NoApprovedFiles? || outcome.Incomplete? ==> w.disk == old(w.disk)
    ensures n <= |ApprovedOf(files)| && Went(old(w.disk), ApprovedOf(files)[..n])
    ensures outcome.Verifying? ==>
              applied == RelPaths(ApprovedOf(files)) && w.disk == Written(old(w.disk), ApprovedOf(files))
    ensures !outcome.Verifying? ==> applied == []
    ensures outcome.StaleAfterError? ==>
              stale && n < |ApprovedOf(files)| && w.disk == Written(old(w.disk), ApprovedOf(files)[..n])
    ensures outcome.RolledBackAfterError? ==>
              && !stale && n < |ApprovedOf(files)|
              && forall p :: AsWrittenOrRestored(Written(old(w.disk), ApprovedOf(files)[..n]), w.disk,
                                                 RelPaths(ApprovedOf(files)[..n]), ApprovedOf(files), p)
    ensures (outcome.StaleAfterError? || outcome.RolledBackAfterError?) && old(w.faults) == [] ==>
              var stopped := ApprovedOf(files)[n];
              !passes(stopped) || !Allowed(Written(old(w.disk), ApprovedOf(files)[..n]), stopped)
    ensures outcome.RolledBackAfterError? && old(w.faults) == [] ==>
              (w.disk == old(w.disk) <==> forall f | f in ApprovedOf(files)[..n] :: !Overlooked(f))
  {
    hide Written, Went, RelPaths, RolledBack, Undone, Overlooked, Chosen, Matches, ApprovedOf;
    n, applied := 0, [];
    var approved := ApprovedOf(files);
    ApprovedMeans(w.disk, files, passes);
    NothingWritten(w.disk, approved);
    if approved == [] {
      return NoApprovedFiles, applied, n;
    }
    if incomplete {
      return Incomplete, applied, n;
    }
    ghost var start := w.disk;
    var error;
    applied, error, n := w.WriteApproved(approved, passes);
    if !error {
      assert approved[..n] == approved;
      return Verifying, applied, n;
    }
    if Went(start, approved) {
      WentPrefix(start, approved, n);
    }
    if stale {
      return StaleAfterError, [], n;
    }
    RollbackRestoresExactly(start, approved, n);
    if applied != [] {
      var ok, rolledBack, m := w.RollbackPartialApply(applied, approved);
    } else {
      NothingToRollBack(start, approved, n);
    }
    outcome, applied := RolledBackAfterError, [];
  }

  lemma {:induction false} NothingWritten(disk: Contents, approved: seq<Entry>)
    requires AllWritable(approved)
    ensures approved[..0] == [] && Went(disk, approved[..0]) && Written(disk, approved[..0]) == disk
  {
  }

  lemma {:induction false} NothingToRollBack(disk: Contents, approved: seq<Entry>, n: nat)
    requires AllWritable(approved) && n <= |approved| && RelPaths(approved[..n]) == []
    ensures n == 0 && Written(disk, approved[..n]) == disk
  {
    assert |RelPaths(approved[..n])| == n;
  }
}
