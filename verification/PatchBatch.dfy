/**
 * The patch batch of the edit benchmark: one request per file, a repair of the whole batch, and the
 * accounting of requests and latency (benchmarks/editStress/liveApplyPlanPatch.ts:77-265, with the path
 * and completeness rules of src/core/planApply/markedFileParse.ts:23-25, 254-342).
 *
 * `answers(i)` is what the provider answers to request `i`.
 */
module PatchBatch {
  import opened Lists
  import opened Options
  import Text

  type Contents = map<string, string>

  /** `blocks` holds the file contents the parser finds in the text, `marked` whether it saw a file marker. */
  datatype Answer =
    | Failed(latency: nat)
    | Answered(latency: nat, text: string, blocks: Contents, marked: bool)
  {
    function TextOf(): string {
      if Failed? then "" else text
    }
  }

  datatype Mode = Standard | Repairing | DirectRewrite

  datatype Request = Request(mode: Mode, paths: seq<string>, previous: string, missing: seq<string>)

  datatype Code = FormatError | MissingFiles

  datatype Result = Result(
    ok: bool,
    files: Contents,
    missing: seq<string>,
    code: Option<Code>,
    lastText: string,
    latency: nat,
    repairAttempted: bool)

  const NO_FILES := Result(false, map[], [], None, "", 0, false)

  // ---- Paths ----

  /** `normalizeApplyPlanPath`. */
  function Normalize(raw: string): string {
    var s := Text.Replace(Text.Trim(raw), '\\', '/');
    if "./" <= s then s[2..] else s
  }

  function Targets(paths: seq<string>): (r: seq<string>) {
    seq(|paths|, i requires 0 <= i < |paths| => Normalize(paths[i]))
  }

  function SetOf(targets: seq<string>): set<string> {
    set t | t in targets
  }

  // ---- One request ----

  /** The parser normalizes the expected paths once more before it looks for their contents. */
  predicate Complete(targets: seq<string>, answer: Answer) {
    answer.Answered? && forall t | t in targets :: Normalize(t) in answer.blocks
  }

  function Found(targets: seq<string>, answer: Answer): Contents {
    if answer.Failed? then map[]
    else map t | t in SetOf(targets) && t in SetOf(Targets(targets)) && t in answer.blocks :: answer.blocks[t]
  }

  function Unparsed(targets: seq<string>, answer: Answer): seq<string>
    requires answer.Answered?
  {
    Without(Targets(targets), answer.blocks)
  }

  function Without(targets: seq<string>, files: Contents): seq<string> {
    if targets == [] then []
    else (if targets[0] in files then [] else [targets[0]]) + Without(targets[1..], files)
  }

  /** `generateOnce`: its result, with `latency` in total so far. */
  function Once(targets: seq<string>, answer: Answer, latency: nat, repairAttempted: bool): Result {
    match answer
    case Failed(_) => Result(false, map[], targets, None, "", latency, repairAttempted)
    case Answered(_, text, _, marked) =>
      var files := Found(targets, answer);
      if Complete(targets, answer) then Result(true, files, [], None, text, latency, repairAttempted)
      else
        Result(false, files, Unparsed(targets, answer), Some(if marked then MissingFiles else FormatError), text,
               latency, repairAttempted)
  }

  /** The answer to the request for `t` alone gives its content. */
  predicate Gives(answer: Answer, t: string) {
    answer.Answered? && Normalize(t) == t && t in answer.blocks
  }

  lemma {:induction false} FoundAlone(t: string, answer: Answer)
    ensures Found([t], answer) == if Gives(answer, t) then map[t := answer.blocks[t]] else map[]
    ensures Gives(answer, t) ==> Complete([t], answer)
  {
    hide Normalize;
    assert Targets([t]) == [Normalize(t)];
    assert SetOf([t]) == {t} && SetOf([Normalize(t)]) == {Normalize(t)};
  }

  /**
   * What an ok answer to one request leaves out: exactly the targets that are no target's normal form.
   * For a single file that is a path that normalizing changes again.
   */
  lemma {:induction false} OnceKeepsEveryTargetExactly(targets: seq<string>, answer: Answer)
    requires Complete(targets, answer)
    ensures Found(targets, answer).Keys == SetOf(targets) <==> forall t | t in targets :: t in Targets(targets)
  {
    hide Normalize;
    var found := Found(targets, answer);
    if forall t | t in targets :: t in Targets(targets) {
      forall t | t in targets
        ensures t in found
      {
        var i :| 0 <= i < |targets| && Targets(targets)[i] == t;
        assert targets[i] in targets;
      }
      assert found.Keys == SetOf(targets);
    } else {
      var t :| t in targets && t !in Targets(targets);
      assert t in SetOf(targets) && t !in found;
    }
  }

  /** Such a path exists, and its content is lost although the answer holds it. */
  lemma {:induction false} ADoubledDotLosesItsFile(answer: Answer)
    requires answer.Answered? && "a" in answer.blocks
    ensures Normalize("././a") == "./a" && Once(["./a"], answer, 0, false).ok
            && Once(["./a"], answer, 0, false).files == map[]
  {
    hide Normalize, Found;
    NormalizeDots("./a");
    NormalizeDots("././a");
    assert "./a"[2..] == "a" && "././a"[2..] == "./a";
    FoundAlone("./a", answer);
  }

  lemma {:induction false} NormalizeDots(p: string)
    requires p in {"./a", "././a"}
    ensures Normalize(p) == p[2..]
  {
    hide Text.TrimStart, Text.TrimEnd, Text.Trim;
    assert Text.IsTrimmed(p);
    assert Text.Trim(p) == p;
    assert Text.Replace(p, '\\', '/') == p;
  }

  // ---- One request per file ----

  /** How many files are asked for: the loop stops after the first answer that is not ok. */
  function Asked(targets: seq<string>, answers: nat -> Answer, i: nat): (k: nat)
    requires i <= |targets|
    ensures i <= k <= |targets| && (i < |targets| ==> i < k)
    decreases |targets| - i
  {
    if i == |targets| then i
    else if Complete([targets[i]], answers(i)) then Asked(targets, answers, i + 1)
    else i + 1
  }

  /** Only an answer that is not ok stops the requests early. */
  lemma {:induction false} AskedStops(targets: seq<string>, answers: nat -> Answer, i: nat)
    requires i < |targets|
    ensures var k := Asked(targets, answers, i); k < |targets| ==> !Complete([targets[k - 1]], answers(k - 1))
    decreases |targets| - i
  {
    hide Complete;
    if Complete([targets[i]], answers(i)) && i + 1 < |targets| {
      AskedStops(targets, answers, i + 1);
    }
  }

  function Merged(targets: seq<string>, answers: nat -> Answer, k: nat): Contents
    requires k <= |targets|
  {
    if k == 0 then map[] else Merged(targets, answers, k - 1) + Found([targets[k - 1]], answers(k - 1))
  }

  /** The latency of the first `k` requests. */
  function Latency(answers: nat -> Answer, k: nat): nat {
    if k == 0 then 0 else Latency(answers, k - 1) + answers(k - 1).latency
  }

  /** The result of the requests, from the contents they gave and the last one's result. */
  function Summary(targets: seq<string>, merged: Contents, last: Result): Result {
    if |merged| == |targets| && |merged| > 0 then last.(ok := true, files := merged, missing := [], code := None)
    else last.(ok := false, files := merged, missing := Without(targets, merged),
               code := Some(last.code.GetOr(FormatError)))
  }

  /** `generateSequentialPerFile`. */
  function Sequential(targets: seq<string>, answers: nat -> Answer): Result
    requires targets != []
  {
    var k := Asked(targets, answers, 0);
    Summary(targets, Merged(targets, answers, k), Once([targets[k - 1]], answers(k - 1), Latency(answers, k), false))
  }

  lemma {:induction false} MergedHolds(targets: seq<string>, answers: nat -> Answer, k: nat, t: string)
    requires k <= |targets|
    ensures t in Merged(targets, answers, k) <==> exists i | 0 <= i < k :: targets[i] == t && Gives(answers(i), t)
    ensures Distinct(targets) ==>
              forall i | 0 <= i < k && targets[i] == t && Gives(answers(i), t) ::
                  Merged(targets, answers, k)[t] == answers(i).blocks[t]
  {
    hide Gives, Found;
    if k > 0 {
      MergedHolds(targets, answers, k - 1, t);
      FoundAlone(targets[k - 1], answers(k - 1));
    }
  }

  lemma {:induction false} MergedIsOfTargets(targets: seq<string>, answers: nat -> Answer, k: nat)
    requires k <= |targets|
    ensures Merged(targets, answers, k).Keys <= SetOf(targets)
  {
    hide Merged, Gives;
    forall t | t in Merged(targets, answers, k)
      ensures t in targets
    {
      MergedHolds(targets, answers, k, t);
    }
  }

  /** A list has as many different elements as elements exactly when they are distinct. */
  lemma {:induction false} SizeOfSet(targets: seq<string>)
    ensures |SetOf(targets)| <= |targets|
    ensures |SetOf(targets)| == |targets| <==> Distinct(targets)
  {
    hide Distinct;
    if targets == [] {
      NoneAreDistinct();
    } else {
      var init, last := targets[..|targets| - 1], targets[|targets| - 1];
      SizeOfSet(init);
      assert targets == init + [last];
      assert SetOf(targets) == SetOf(init) + {last};
      DistinctSnoc(init, last);
      assert last in init ==> SetOf(targets) == SetOf(init);
    }
  }

  lemma {:induction false} NoneAreDistinct()
    ensures Distinct<string>([])
  {
  }

  lemma {:induction false} DistinctSnoc(init: seq<string>, last: string)
    ensures Distinct(init + [last]) <==> Distinct(init) && last !in init
  {
    var targets := init + [last];
    assert forall i | 0 <= i < |init| :: targets[i] == init[i];
    if last in init {
      var i :| 0 <= i < |init| && init[i] == last;
      assert targets[i] == targets[|init|];
    }
    if !Distinct(init) {
      var i, j :| 0 <= i < j < |init| && init[i] == init[j];
      assert targets[i] == targets[j];
    }
  }

  predicate AllGiven(targets: seq<string>, answers: nat -> Answer) {
    forall i | 0 <= i < |targets| :: Gives(answers(i), targets[i])
  }

  lemma {:induction false} SubsetOfSameSize(a: set<string>, b: set<string>)
    requires a <= b && |a| >= |b|
    ensures a == b
  {
    assert |b - a| == |b| - |a|;
  }

  /**
   * MAIN RESULT. Asking file by file succeeds if and only if the targets are distinct and each one's own
   * answer gives its content; the files are then exactly the targets, each with that content.
   */
  lemma {:induction false} SequentialOkExactly(targets: seq<string>, answers: nat -> Answer)
    requires targets != []
    ensures Sequential(targets, answers).ok <==> Distinct(targets) && AllGiven(targets, answers)
    ensures Sequential(targets, answers).ok ==>
              && Sequential(targets, answers).files.Keys == SetOf(targets)
              && forall i | 0 <= i < |targets| ::
              Sequential(targets, answers).files[targets[i]] == answers(i).blocks[targets[i]]
  {
    hide Merged, Gives, Found, Once;
    var k := Asked(targets, answers, 0);
    var merged := Merged(targets, answers, k);
    SizeOfSet(targets);
    MergedIsOfTargets(targets, answers, k);
    if Distinct(targets) && AllGiven(targets, answers) {
      if k < |targets| {
        AskedStops(targets, answers, 0);
        FoundAlone(targets[k - 1], answers(k - 1));
        assert false;
      }
      forall t | t in targets
        ensures t in merged
      {
        MergedHolds(targets, answers, k, t);
      }
      assert merged.Keys == SetOf(targets) && |merged.Keys| == |merged|;
    }
    if |merged| == |targets| {
      assert |merged.Keys| == |merged|;
      SubsetSize(merged.Keys, SetOf(targets));
      SubsetOfSameSize(merged.Keys, SetOf(targets));
      forall i | 0 <= i < |targets|
        ensures Gives(answers(i), targets[i])
        ensures answers(i).Answered? && targets[i] in answers(i).blocks
                && merged[targets[i]] == answers(i).blocks[targets[i]]
      {
        assert targets[i] in SetOf(targets);
        MergedHolds(targets, answers, k, targets[i]);
        GivesMeans(answers(i), targets[i]);
      }
    }
  }

  lemma {:induction false} GivesMeans(answer: Answer, t: string)
    ensures Gives(answer, t) ==> answer.Answered? && t in answer.blocks
  {
  }

  lemma {:induction false} SubsetSize(a: set<string>, b: set<string>)
    requires a <= b
    ensures |a| <= |b|
  {
    assert |b - a| == |b| - |a|;
  }

  lemma {:induction false} WithoutHolds(targets: seq<string>, files: Contents, t: string)
    ensures t in Without(targets, files) <==> t in targets && t !in files
    ensures (forall u | u in targets :: u in files) ==> Without(targets, files) == []
  {
    if targets != [] {
      WithoutHolds(targets[1..], files, t);
      assert targets == [targets[0]] + targets[1..];
    }
  }

  /**
   * MAIN RESULT. A failed batch reports as missing exactly the targets for which no request it made gave
   * content. When that list is empty the targets were not distinct.
   */
  lemma {:induction false} SequentialMissingExactly(targets: seq<string>, answers: nat -> Answer, t: string)
    requires targets != [] && !Sequential(targets, answers).ok
    ensures t in Sequential(targets, answers).missing <==>
            t in targets && !exists i | 0 <= i < Asked(targets, answers, 0) :: targets[i] == t && Gives(answers(i), t)
    ensures Sequential(targets, answers).missing == [] ==> !Distinct(targets)
  {
    hide Gives, Merged, Found, Once;
    var k := Asked(targets, answers, 0);
    var merged := Merged(targets, answers, k);
    WithoutHolds(targets, merged, t);
    MergedHolds(targets, answers, k, t);
    if Without(targets, merged) == [] {
      MergedIsOfTargets(targets, answers, k);
      forall u | u in targets
        ensures u in merged
      {
        WithoutHolds(targets, merged, u);
      }
      assert merged.Keys == SetOf(targets);
      SizeOfSet(targets);
      assert |merged.Keys| == |merged|;
    }
  }

  /** A repeated target fails the batch with nothing missing, although every request was answered. */
  lemma {:induction false} RepeatedTargetsFail(targets: seq<string>, answers: nat -> Answer)
    requires targets != [] && AllGiven(targets, answers) && !Distinct(targets)
    ensures !Sequential(targets, answers).ok && Sequential(targets, answers).missing == []
    ensures Sequential(targets, answers).code == Some(FormatError)
  {
    hide Gives, Merged, Found, Normalize;
    SequentialOkExactly(targets, answers);
    var k := Asked(targets, answers, 0);
    AskedStops(targets, answers, 0);
    FoundAlone(targets[k - 1], answers(k - 1));
    GivesMeans(answers(k - 1), targets[k - 1]);
    forall t | t in targets
      ensures t in Merged(targets, answers, k)
    {
      MergedHolds(targets, answers, k, t);
    }
    WithoutHolds(targets, Merged(targets, answers, k), targets[0]);
  }

  // ---- The whole batch ----

  datatype Outcome = Outcome(result: Result, requests: seq<Request>)

  function SequentialRequests(mode: Mode, targets: seq<string>, k: nat): seq<Request>
    requires k <= |targets|
  {
    seq(k, i requires 0 <= i < k => Request(mode, [targets[i]], "", []))
  }

  /** The first attempt: file by file for several files, in one request otherwise. */
  function FirstAttempt(direct: bool, repair: bool, targets: seq<string>, answers: nat -> Answer): Outcome
    requires targets != []
  {
    var mode := if direct then DirectRewrite else Standard;
    if |targets| > 1 && !repair then
      Outcome(Sequential(targets, answers), SequentialRequests(mode, targets, Asked(targets, answers, 0)))
    else Outcome(Once(targets, answers(0), answers(0).latency, false), [Request(mode, targets, "", [])])
  }

  predicate CanRepair(direct: bool, repair: bool, first: Result) {
    !direct && !repair && Text.Trim(first.lastText) != "" && first.code.Some?
  }

  /** `liveApplyPlanBatchPatch`. */
  function Live(direct: bool, repair: bool, targets: seq<string>, answers: nat -> Answer): Outcome {
    if targets == [] then Outcome(NO_FILES, [])
    else
      var first := FirstAttempt(direct, repair, targets, answers);
      if first.result.ok || !CanRepair(direct, repair, first.result) then first
      else
        var k := |first.requests|;
        var missing := if first.result.code == Some(MissingFiles) && first.result.missing != []
            then first.result.missing else targets;
        Outcome(Once(targets, answers(k), first.result.latency + answers(k).latency, true),
                first.requests + [Request(Repairing, targets, first.result.lastText, missing)])
  }

  /**
   * MAIN RESULT. At most one request more than files is made, at most one of them a repair, the last;
   * the reported latency is the sum over all of them.
   */
  lemma {:induction false} LiveAccounting(direct: bool, repair: bool, targets: seq<string>, answers: nat -> Answer)
    ensures var o := Live(direct, repair, targets, answers);
            && |o.requests| <= |targets| + 1 && (o.requests == [] <==> targets == [])
            && (forall i | 0 <= i < |o.requests| - 1 :: o.requests[i].mode != Repairing)
            && o.result.latency == Latency(answers, |o.requests|)
            && (o.result.repairAttempted <==> o.requests != [] && o.requests[|o.requests| - 1].mode == Repairing)
  {
    hide CanRepair, FirstAttempt, Once;
    if targets != [] {
      FirstAccounting(direct, repair, targets, answers);
      var k := |FirstAttempt(direct, repair, targets, answers).requests|;
      OnceLatency(targets, answers(k), Latency(answers, k + 1), true);
    }
  }

  lemma {:induction false} FirstAccounting(direct: bool, repair: bool, targets: seq<string>, answers: nat -> Answer)
    requires targets != []
    ensures var first := FirstAttempt(direct, repair, targets, answers);
            && 1 <= |first.requests| <= |targets|
            && (forall i | 0 <= i < |first.requests| :: first.requests[i].mode != Repairing)
            && first.result.latency == Latency(answers, |first.requests|)
            && !first.result.repairAttempted
  {
    hide Once, Merged, Without, Asked;
    var k := Asked(targets, answers, 0);
    OnceLatency([targets[k - 1]], answers(k - 1), Latency(answers, k), false);
    OnceLatency(targets, answers(0), answers(0).latency, false);
    assert Latency(answers, 1) == Latency(answers, 0) + answers(0).latency;
  }

  /**
   * When the repair is asked for: after a failed first attempt, in neither of the two special modes,
   * exactly when the last answer had text that is not blank.
   */
  lemma {:induction false} RepairExactly(direct: bool, repair: bool, targets: seq<string>, answers: nat -> Answer)
    requires targets != []
    ensures var o := Live(direct, repair, targets, answers);
            var first := FirstAttempt(direct, repair, targets, answers);
            o.result.repairAttempted <==>
            !first.result.ok && !direct && !repair && Text.Trim(answers(|first.requests| - 1).TextOf()) != ""
  {
    hide Text.Trim, Found, Complete, Merged, Without, Unparsed, Text.TrimStart, Text.TrimEnd, Latency;
    var first := FirstAttempt(direct, repair, targets, answers);
    assert first.result.lastText == answers(|first.requests| - 1).TextOf();
    assert !first.result.repairAttempted;
    if first.result.code.None? && !first.result.ok {
      assert answers(0).Failed?;
      assert Text.Trim("") == "";
    }
  }

  /**
   * MAIN RESULT, with its exact condition. An ok result holds exactly the targets if and only if each
   * target is the normal form of some target: the parser looks for the normal forms.
   */
  lemma {:induction false} LiveOkKeysExactly(direct: bool, repair: bool, targets: seq<string>, answers: nat -> Answer)
    ensures var o := Live(direct, repair, targets, answers);
            o.result.ok ==>
              (o.result.files.Keys == SetOf(targets) <==> forall t | t in targets :: t in Targets(targets))
  {
    hide Normalize, Text.Trim, Complete, Found, Merged, Gives, Without, Unparsed, Sequential, SetOf, Targets;
    if targets != [] {
      forall i: nat | Complete(targets, answers(i))
        ensures Found(targets, answers(i)).Keys == SetOf(targets) <==> forall t | t in targets :: t in Targets(targets)
      {
        OnceKeepsEveryTargetExactly(targets, answers(i));
      }
      SequentialOkExactly(targets, answers);
      if Sequential(targets, answers).ok {
        AllNormal(targets, answers);
      }
    }
  }

  /** Answers to one file at a time only ever give content for normal targets. */
  lemma {:induction false} AllNormal(targets: seq<string>, answers: nat -> Answer)
    requires AllGiven(targets, answers)
    ensures forall t | t in targets :: t in Targets(targets)
  {
    hide Normalize;
    forall t | t in targets
      ensures t in Targets(targets)
    {
      var i :| 0 <= i < |targets| && targets[i] == t;
      assert Gives(answers(i), targets[i]);
      assert Targets(targets)[i] == t;
    }
  }

  // ---- What is requested ----

  /** How many files are asked for: up to the first whose own answer is not complete, or all. */
  lemma {:induction false} AskedMeans(targets: seq<string>, answers: nat -> Answer, i: nat)
    requires i < |targets|
    ensures var k := Asked(targets, answers, i);
            && i < k <= |targets|
            && (forall j | i <= j < k - 1 :: Complete([targets[j]], answers(j)))
            && (k < |targets| ==> !Complete([targets[k - 1]], answers(k - 1)))
    decreases |targets| - i
  {
    hide Complete;
    if Complete([targets[i]], answers(i)) && i + 1 < |targets| {
      AskedMeans(targets, answers, i + 1);
    }
  }

  /** The targets without content, each as often as it is listed. */
  lemma {:induction false} WithoutCounts(targets: seq<string>, files: Contents, t: string)
    ensures multiset(Without(targets, files))[t] == if t in files then 0 else multiset(targets)[t]
  {
    if targets != [] {
      assert targets == [targets[0]] + targets[1..];
      WithoutCounts(targets[1..], files, t);
    }
  }

  /** They come in the order of the list. */
  lemma {:induction false} WithoutSum(a: seq<string>, b: seq<string>, files: Contents)
    ensures Without(a + b, files) == Without(a, files) + Without(b, files)
  {
    if a == [] {
      assert a + b == b;
    } else {
      assert (a + b)[0] == a[0] && (a + b)[1..] == a[1..] + b;
      WithoutSum(a[1..], b, files);
    }
  }

  /** The paths of the first attempt's last request. */
  function LastPaths(repair: bool, targets: seq<string>, k: nat): seq<string>
    requires 0 < k <= |targets|
  {
    if |targets| > 1 && !repair then [targets[k - 1]] else targets
  }

  /** The first attempt, request by request. */
  lemma {:induction false} FirstRequests(direct: bool, repair: bool, targets: seq<string>, answers: nat -> Answer)
    requires targets != []
    ensures var first := FirstAttempt(direct, repair, targets, answers);
            var k, mode := |first.requests|, if direct then DirectRewrite else Standard;
            && 0 < k <= |targets| && (|targets| == 1 || repair ==> k == 1)
            && (forall i | 0 <= i < k :: first.requests[i] == Request(mode, LastPaths(repair, targets, i + 1), "", []))
            && (forall i | 0 <= i < k - 1 :: Complete([targets[i]], answers(i)))
            && (|targets| > 1 && !repair && k < |targets| ==> !Complete([targets[k - 1]], answers(k - 1)))
            && first.result.lastText == answers(k - 1).TextOf()
            && (!first.result.ok ==>
                  (first.result.code == Some(MissingFiles) <==>
                   && answers(k - 1).Answered? && answers(k - 1).marked
                   && !Complete(LastPaths(repair, targets, k), answers(k - 1))))
  {
    hide Complete, Found, Without, Merged, Latency, Unparsed;
    AskedMeans(targets, answers, 0);
  }

  /**
   * MAIN RESULT. The requests of a batch. Each of the first attempt asks for one file, or for all at once in
   * the repair mode or when there is but one. A repair asks for all files again, with the last answer's text
   * as it was. It names as missing what the first attempt does when the last answer had markers, and
   * otherwise all files.
   */
  lemma {:induction false} LiveRequests(direct: bool, repair: bool, targets: seq<string>, answers: nat -> Answer)
    requires targets != []
    ensures var o := Live(direct, repair, targets, answers);
            var n := |o.requests|;
            var k := if o.result.repairAttempted then n - 1 else n;
            && 0 < k <= |targets|
            && (forall i | 0 <= i < k ::
                  o.requests[i] == Request(if direct then DirectRewrite else Standard,
                                           if |targets| > 1 && !repair then [targets[i]] else targets, "", []))
            && (o.result.repairAttempted ==>
                  var last, missing := answers(k - 1), NotGiven(targets, answers, k);
                  var marked := last.Answered? && last.marked && !Complete(LastPaths(repair, targets, k), last);
                  && o.requests[k] == Request(Repairing, targets, last.TextOf(),
                                              if marked && missing != [] then missing else targets)
                  && o.result.ok == Complete(targets, answers(k)) && o.result.files == Found(targets, answers(k)))
  {
    hide Complete, Found, Latency, NotGiven, Live, FirstAttempt, Once, LastPaths;
    FirstRequests(direct, repair, targets, answers);
    FirstMissing(direct, repair, targets, answers);
    LiveSplits(direct, repair, targets, answers);
    var first := FirstAttempt(direct, repair, targets, answers);
    var k := |first.requests|;
    forall i | 0 <= i < k
      ensures first.requests[i].paths == if |targets| > 1 && !repair then [targets[i]] else targets
    {
      assert LastPaths(repair, targets, i + 1) == if |targets| > 1 && !repair then [targets[i]] else targets by {
        LastPathsIs(repair, targets, i + 1);
      }
    }
    OnceIs(targets, answers(k), first.result.latency + answers(k).latency, true);
  }

  lemma {:induction false} LastPathsIs(repair: bool, targets: seq<string>, k: nat)
    requires 0 < k <= |targets|
    ensures LastPaths(repair, targets, k) == if |targets| > 1 && !repair then [targets[k - 1]] else targets
  {
  }

  lemma {:induction false} OnceIs(targets: seq<string>, answer: Answer, latency: nat, repairing: bool)
    ensures var once := Once(targets, answer, latency, repairing);
            once.ok == Complete(targets, answer) && once.files == Found(targets, answer)
  {
  }

  /** A batch is its first attempt, with one more request when that failed and can be repaired. */
  lemma {:induction false} LiveSplits(direct: bool, repair: bool, targets: seq<string>, answers: nat -> Answer)
    requires targets != []
    ensures var o, first := Live(direct, repair, targets, answers), FirstAttempt(direct, repair, targets, answers);
            var k := |first.requests|;
            if o.result.repairAttempted then
              && !first.result.ok && !repair
              && var missing := if first.result.code == Some(MissingFiles) && first.result.missing != []
                     then first.result.missing else targets;
                 && o.requests == first.requests + [Request(Repairing, targets, first.result.lastText, missing)]
                 && o.result == Once(targets, answers(k), first.result.latency + answers(k).latency, true)
            else o == first
  {
    hide FirstAttempt, Text.Trim, Once;
    FirstAccounting(direct, repair, targets, answers);
    var k := |FirstAttempt(direct, repair, targets, answers).requests|;
    OnceLatency(targets, answers(k), FirstAttempt(direct, repair, targets, answers).result.latency + answers(k).latency,
                true);
  }

  /** The files for which a first attempt of `k` requests found no content. */
  function NotGiven(targets: seq<string>, answers: nat -> Answer, k: nat): seq<string>
    requires 0 < k <= |targets|
  {
    if |targets| > 1 then Without(targets, Merged(targets, answers, k))
    else Without(Targets(targets), if answers(0).Answered? then answers(0).blocks else map[])
  }

  lemma {:induction false} FirstMissing(direct: bool, repair: bool, targets: seq<string>, answers: nat -> Answer)
    requires targets != []
    ensures var first := FirstAttempt(direct, repair, targets, answers);
            && 0 < |first.requests| <= |targets|
            && (!repair && !first.result.ok && first.result.code == Some(MissingFiles) ==>
                  first.result.missing == NotGiven(targets, answers, |first.requests|))
  {
    hide Complete, Found, Without, Merged, Latency, Targets;
  }

  // ---- The harness that runs it ----

  class Harness {
    const direct: bool
    const repair: bool
    const paths: seq<string>
    const answers: nat -> Answer
    var requests: seq<Request>
    var totalLatency: nat
    var repairAttempted: bool

    constructor (direct: bool, repair: bool, paths: seq<string>, answers: nat -> Answer)
      ensures this.direct == direct && this.repair == repair && this.paths == paths && this.answers == answers
      ensures requests == [] && totalLatency == 0 && !repairAttempted
    {
      this.direct, this.repair, this.paths, this.answers := direct, repair, paths, answers;
      requests, totalLatency, repairAttempted := [], 0, false;
    }

    method GenerateOnce(mode: Mode, targets: seq<string>, previous: string, missing: seq<string>)
      returns (result: Result)
      modifies this`requests, this`totalLatency
      ensures requests == old(requests) + [Request(mode, targets, previous, missing)]
      ensures totalLatency == old(totalLatency) + answers(|old(requests)|).latency
      ensures result == Once(targets, answers(|old(requests)|), totalLatency, repairAttempted)
    {
      hide Normalize;
      var answer := answers(|requests|);
      requests := requests + [Request(mode, targets, previous, missing)];
      totalLatency := totalLatency + answer.latency;
      result := Once(targets, answer, totalLatency, repairAttempted);
    }

    method GenerateSequentialPerFile(mode: Mode, targets: seq<string>) returns (result: Result)
      requires targets != [] && requests == [] && totalLatency == 0 && !repairAttempted
      modifies this`requests, this`totalLatency
      ensures result == Sequential(targets, answers)
      ensures requests == SequentialRequests(mode, targets, Asked(targets, answers, 0))
      ensures totalLatency == Latency(answers, |requests|)
    {
      hide Found, Complete, Without, Normalize, Unparsed, Once, Asked, SequentialRequests, Merged, Latency, Summary;
      var merged: Contents := map[];
      var last := NO_FILES;
      var i := 0;
      ghost var k := Asked(targets, answers, 0);
      RequestsStep(mode, targets, 0);
      AskedStep(targets, answers, 0);
      MergedStep(targets, answers, 0);
      while i < |targets|
        invariant 0 <= i <= |targets| && !repairAttempted
        invariant merged == Merged(targets, answers, i)
        invariant requests == SequentialRequests(mode, targets, i) && totalLatency == Latency(answers, i)
        invariant k == Asked(targets, answers, i)
        invariant i > 0 ==> last == Once([targets[i - 1]], answers(i - 1), totalLatency, false)
        invariant |requests| == i
        decreases |targets| - i
      {
        RequestsStep(mode, targets, i);
        AskedStep(targets, answers, i);
        MergedStep(targets, answers, i);
        last := GenerateOnce(mode, [targets[i]], "", []);
        OnceMeans(targets[i], answers(i), totalLatency);
        merged := merged + last.files;
        i := i + 1;
        if !last.ok {
          break;
        }
      }
      assert k == i;
      result := Summary(targets, merged, last);
    }

    method LiveApplyPlanBatchPatch() returns (result: Result)
      requires requests == [] && totalLatency == 0 && !repairAttempted
      modifies this
      ensures Outcome(result, requests) == Live(direct, repair, Targets(paths), answers)
    {
      hide Once, Sequential, Asked, SequentialRequests, Normalize, Text.Trim;
      var targets := Targets(paths);
      if targets == [] {
        return NO_FILES;
      }
      var mode := if direct then DirectRewrite else Standard;
      var first;
      assert Latency(answers, 1) == Latency(answers, 0) + answers(0).latency;
      if |targets| > 1 && !repair {
        first := GenerateSequentialPerFile(mode, targets);
        SequentialLatency(targets, answers, mode);
      } else {
        first := GenerateOnce(mode, targets, "", []);
        OnceLatency(targets, answers(0), totalLatency, false);
      }
      if first.ok || !CanRepair(direct, repair, first) {
        return first;
      }
      repairAttempted := true;
      var missing := if first.code == Some(MissingFiles) && first.missing != [] then first.missing else targets;
      result := GenerateOnce(Repairing, targets, first.lastText, missing);
    }
  }

  lemma {:induction false} RequestsStep(mode: Mode, targets: seq<string>, i: nat)
    requires i < |targets|
    ensures SequentialRequests(mode, targets, 0) == []
    ensures SequentialRequests(mode, targets, i + 1) == SequentialRequests(mode, targets, i) +
            [Request(mode, [targets[i]], "", [])]
    ensures |SequentialRequests(mode, targets, i)| == i
  {
  }

  lemma {:induction false} MergedStep(targets: seq<string>, answers: nat -> Answer, i: nat)
    requires i < |targets|
    ensures Merged(targets, answers, 0) == map[] && Latency(answers, 0) == 0
    ensures Merged(targets, answers, i + 1) == Merged(targets, answers, i) + Found([targets[i]], answers(i))
    ensures Latency(answers, i + 1) == Latency(answers, i) + answers(i).latency
  {
  }

  lemma {:induction false} AskedStep(targets: seq<string>, answers: nat -> Answer, i: nat)
    requires i < |targets|
    ensures Asked(targets, answers, |targets|) == |targets|
    ensures Asked(targets, answers, i) == if Complete([targets[i]], answers(i)) then Asked(targets, answers, i + 1)
            else i + 1
  {
    hide Complete;
  }

  lemma {:induction false} OnceMeans(t: string, answer: Answer, latency: nat)
    ensures Once([t], answer, latency, false).files == Found([t], answer)
    ensures Once([t], answer, latency, false).ok <==> Complete([t], answer)
  {
  }

  lemma {:induction false} OnceLatency(targets: seq<string>, answer: Answer, latency: nat, repairing: bool)
    ensures Once(targets, answer, latency, repairing).latency == latency
    ensures Once(targets, answer, latency, repairing).repairAttempted == repairing
  {
  }

  lemma {:induction false} SequentialLatency(targets: seq<string>, answers: nat -> Answer, mode: Mode)
    requires targets != []
    ensures var k := Asked(targets, answers, 0);
            |SequentialRequests(mode, targets, k)| == k && Sequential(targets, answers).latency == Latency(answers, k)
  {
    hide Once, Merged, Without, Asked;
    var k := Asked(targets, answers, 0);
    OnceLatency([targets[k - 1]], answers(k - 1), Latency(answers, k), false);
  }
}
