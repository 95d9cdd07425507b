/** The evaluation of resolver candidates: one result a case, and the summary with its verdict. */
module Evaluation {
  import opened Options
  import opened Sequences
  import opened Observations
  import opened Resolution
  import opened CountMaps
  import Percentile
  import Phones

  datatype Severity = Informational | Warning | Error

  /** A classified message. */
  datatype Message = Message(code: string, source: string, severity: Severity)

  /** What is expected of a case that a human has reviewed; a part left open is not compared. */
  datatype Expected = Expected(
    status: Option<Status>,
    confidence: Option<Confidence>,
    needsReview: Option<bool>,
    readOnly: Option<bool>,
    matchedBy: Option<Option<IdentityType>>)

  /** The resolver's answer; `reference` is the hash of the customer it points to. */
  datatype Actual = Actual(
    status: Status,
    confidence: Confidence,
    needsReview: bool,
    readOnly: bool,
    matchedBy: Option<IdentityType>,
    reference: Option<string>)

  datatype Case = Case(
    source: string,
    phone: Option<string>,
    reviewedByHuman: bool,
    expected: Option<Expected>,
    expectedReference: Option<string>)

  datatype CaseResult = CaseResult(
    reviewedByHuman: bool,
    actual: Actual,
    expected: Option<Expected>,
    expectedReference: Option<string>,
    exactMatch: bool,
    falsePositive: bool,
    falseNegative: bool,
    latencyMs: real,
    messageCount: nat,
    informationalCount: nat,
    warningCount: nat,
    errorCount: nat,
    messageCountBySeverity: Counts,
    warningCountByCode: Counts,
    warningCountBySource: Counts)

  predicate IsPositive(s: Status) {
    s in {ResolvedExisting, LinkedIdentity, CreatedProvisional}
  }

  function OfSeverity(messages: seq<Message>, severity: Severity): seq<Message> {
    Filter((m: Message) => m.severity == severity, messages)
  }

  predicate Agrees<T(==)>(expected: Option<T>, actual: T) {
    expected.None? || expected.value == actual
  }

  /** The messages the evaluation adds to the resolver's own. */
  function SyntheticMessages(input: Case, actual: Actual): seq<Message> {
    var invalid := input.phone.Some? && input.phone.value != "" && Phones.NormalizePhone(input.phone.value).None?;
    (if invalid then [Message("invalid_phone", input.source, Warning)] else [])
    + (if !input.reviewedByHuman && actual.status == NotEnoughIdentity
       then [Message("no_match", input.source, Informational)] else [])
  }

  function Analyze(input: Case, actual: Actual, sourceMessages: seq<Message>, latencyMs: real): CaseResult {
    var expected := if input.reviewedByHuman then input.expected else None;
    var reference := if input.reviewedByHuman then input.expectedReference else None;
    var messages := sourceMessages + SyntheticMessages(input, actual);
    var informational, warnings, errors :=
      OfSeverity(messages, Informational), OfSeverity(messages, Warning), OfSeverity(messages, Error);
    var exactMatch := expected.Some?
      && Agrees(expected.value.status, actual.status)
      && Agrees(expected.value.confidence, actual.confidence)
      && Agrees(expected.value.needsReview, actual.needsReview)
      && Agrees(expected.value.readOnly, actual.readOnly)
      && Agrees(expected.value.matchedBy, actual.matchedBy)
      && (reference.None? || reference == actual.reference);
    var expectedPositive := expected.Some? && expected.value.status.Some? && IsPositive(expected.value.status.value);
    var actualPositive := IsPositive(actual.status);
    var falsePositive := expected.Some?
      && ((expectedPositive && actualPositive && reference.Some? && reference != actual.reference)
          || (!expectedPositive && actualPositive));
    var falseNegative := expected.Some?
      && ((expectedPositive && !actualPositive)
          || (expected.value.status == Some(ConflictNeedsReview) && actual.status != ConflictNeedsReview));
    CaseResult(
      input.reviewedByHuman, actual, expected, reference, exactMatch, falsePositive, falseNegative, latencyMs,
      |messages|, |informational|, |warnings|, |errors|,
      [("informational", |informational|), ("warning", |warnings|), ("error", |errors|)],
      Count(Map((m: Message) => m.code, warnings)),
      Count(Map((m: Message) => m.source, warnings)))
  }

  // ----- the summary

  datatype Verdict = Pass | Warn | Fail

  datatype Summary = Summary(
    totalCases: nat,
    reviewedCases: nat,
    casesWithExpectations: nat,
    totalMessages: nat,
    warningCount: nat,
    errorCount: nat,
    fatalErrors: nat,
    statusCounts: seq<nat>,
    exactMatches: nat,
    falsePositives: nat,
    falseNegatives: nat,
    falseNegativeRate: real,
    p50LatencyMs: real,
    p95LatencyMs: real,
    maxLatencyMs: real,
    warningCountByCode: Counts,
    warningCountBySource: Counts,
    messageCountBySeverity: seq<nat>)

  const STATUSES: seq<Status> :=
    [ResolvedExisting, LinkedIdentity, CreatedProvisional, ConflictNeedsReview, NotEnoughIdentity, SkippedReadOnly]

  function WithStatus(cases: seq<CaseResult>, status: Status): nat {
    |Filter((c: CaseResult) => c.actual.status == status, cases)|
  }

  function Expecting(cases: seq<CaseResult>): seq<CaseResult> {
    Filter((c: CaseResult) => c.reviewedByHuman && c.expected.Some?, cases)
  }

  function CountOf(severities: seq<string>, severity: string): nat {
    |Filter((s: string) => s == severity, severities)|
  }

  function Summarize(cases: seq<CaseResult>, errors: seq<string>): Summary {
    var expecting := Expecting(cases);
    var falseNegatives := |Filter((c: CaseResult) => c.falseNegative, expecting)|;
    var latencies := Map((c: CaseResult) => c.latencyMs, cases);
    var errorCount := Sum(Map((c: CaseResult) => c.errorCount, cases));
    var severities := ExpandAll(Map((c: CaseResult) => c.messageCountBySeverity, cases));
    Summary(
      |cases|,
      |Filter((c: CaseResult) => c.reviewedByHuman, cases)|,
      |expecting|,
      Sum(Map((c: CaseResult) => c.messageCount, cases)),
      Sum(Map((c: CaseResult) => c.warningCount, cases)),
      errorCount,
      |errors| + errorCount,
      Map((s: Status) => WithStatus(cases, s), STATUSES),
      |Filter((c: CaseResult) => c.exactMatch, expecting)|,
      |Filter((c: CaseResult) => c.falsePositive, expecting)|,
      falseNegatives,
      if expecting == [] then 0.0 else falseNegatives as real / |expecting| as real,
      Percentile.Percentile(latencies, 50),
      Percentile.Percentile(latencies, 95),
      if latencies == [] then 0.0 else Percentile.Max(latencies),
      Count(ExpandAll(Map((c: CaseResult) => c.warningCountByCode, cases))),
      Count(ExpandAll(Map((c: CaseResult) => c.warningCountBySource, cases))),
      [CountOf(severities, "informational"), CountOf(severities, "warning"), CountOf(severities, "error")])
  }

  function Classify(s: Summary): Verdict {
    if s.fatalErrors > 0 then Fail
    else if s.errorCount > 0 then Fail
    else if s.falsePositives > 0 then Fail
    else if s.falseNegativeRate > 0.15 then Fail
    else if s.reviewedCases > 0 && s.exactMatches < s.casesWithExpectations then Warn
    else if s.reviewedCases == 0 && s.casesWithExpectations == 0 then Warn
    else if s.falseNegativeRate > 0.0 then Warn
    else if s.warningCount > 0 then Warn
    else Pass
  }

  // ----- what a verdict of pass means

  lemma {:induction false} SumIsZeroIff(s: seq<nat>)
    ensures Sum(s) == 0 <==> forall i :: 0 <= i < |s| ==> s[i] == 0
  {
    if s != [] {
      SumIsZeroIff(s[..|s| - 1]);
    }
  }

  lemma {:induction false} NoneFilteredIff<A(!new)>(p: A -> bool, s: seq<A>)
    ensures |Filter(p, s)| == 0 <==> forall x <- s :: !p(x)
    ensures |Filter(p, s)| == |s| <==> forall x <- s :: p(x)
  {
    if s != [] {
      SplitLast(s);
      NoneFilteredIff(p, s[..|s| - 1]);
      assert forall x :: x in s <==> x in s[..|s| - 1] || x == s[|s| - 1];
    }
  }

  /** A case that gives no cause for anything but a pass. */
  predicate Clean(c: CaseResult) {
    && c.warningCount == 0 && c.errorCount == 0
    && (c.reviewedByHuman && c.expected.Some? ==> c.exactMatch && !c.falsePositive && !c.falseNegative)
  }

  lemma ZeroCounts(cases: seq<CaseResult>, errors: seq<string>)
    ensures Summarize(cases, errors).errorCount == 0 <==> forall c <- cases :: c.errorCount == 0
    ensures Summarize(cases, errors).warningCount == 0 <==> forall c <- cases :: c.warningCount == 0
  {
    SumOverCases(cases, (c: CaseResult) => c.errorCount);
    SumOverCases(cases, (c: CaseResult) => c.warningCount);
  }

  lemma SumOverCases(cases: seq<CaseResult>, f: CaseResult -> nat)
    ensures Sum(Map(f, cases)) == 0 <==> forall c <- cases :: f(c) == 0
  {
    SumIsZeroIff(Map(f, cases));
    assert forall i :: 0 <= i < |cases| ==> cases[i] in cases;
  }

  /** Counting among the reviewed cases with an expectation. */
  lemma AmongExpecting(cases: seq<CaseResult>, p: CaseResult -> bool)
    ensures |Filter(p, Expecting(cases))| <= |Expecting(cases)|
    ensures |Filter(p, Expecting(cases))| == 0 <==> forall c <- cases :: c.reviewedByHuman && c.expected.Some? ==> !p(c)
    ensures |Filter(p, Expecting(cases))| == |Expecting(cases)|
      <==> forall c <- cases :: c.reviewedByHuman && c.expected.Some? ==> p(c)
  {
    NoneFilteredIff(p, Expecting(cases));
    assert forall c :: c in Expecting(cases) <==> c in cases && c.reviewedByHuman && c.expected.Some?;
  }

  lemma ReviewCounts(cases: seq<CaseResult>, errors: seq<string>)
    ensures var s := Summarize(cases, errors);
      && (s.falsePositives == 0 <==> forall c <- cases :: c.reviewedByHuman && c.expected.Some? ==> !c.falsePositive)
      && (s.falseNegatives == 0 <==> forall c <- cases :: c.reviewedByHuman && c.expected.Some? ==> !c.falseNegative)
      && (s.exactMatches == s.casesWithExpectations <==>
            forall c <- cases :: c.reviewedByHuman && c.expected.Some? ==> c.exactMatch)
      && s.exactMatches <= s.casesWithExpectations
      && (s.reviewedCases == 0 <==> forall c <- cases :: !c.reviewedByHuman)
  {
    AmongExpecting(cases, (c: CaseResult) => c.falsePositive);
    AmongExpecting(cases, (c: CaseResult) => c.falseNegative);
    AmongExpecting(cases, (c: CaseResult) => c.exactMatch);
    NoneFilteredIff((c: CaseResult) => c.reviewedByHuman, cases);
  }

  lemma RateIsZeroIff(cases: seq<CaseResult>, errors: seq<string>)
    ensures var s := Summarize(cases, errors);
      s.falseNegativeRate >= 0.0 && (s.falseNegativeRate == 0.0 <==> s.falseNegatives == 0)
  {
    var n, d := Summarize(cases, errors).falseNegatives, |Expecting(cases)|;
    if d > 0 {
      QuotientIsZeroIff(n, d);
    }
  }

  lemma QuotientIsZeroIff(n: nat, d: nat)
    requires d > 0
    ensures n as real / d as real >= 0.0 && (n as real / d as real == 0.0 <==> n == 0)
  {
  }

  /**
   The verdict is `pass` exactly when the run itself had no errors, somebody reviewed a case, and
   every case is clean: no warning, no error, and every expectation met without a false flag.
   */
  lemma PassIff(cases: seq<CaseResult>, errors: seq<string>)
    ensures Classify(Summarize(cases, errors)).Pass? <==>
      errors == [] && (exists c <- cases :: c.reviewedByHuman) && forall c <- cases :: Clean(c)
  {
    ZeroCounts(cases, errors);
    ReviewCounts(cases, errors);
    RateIsZeroIff(cases, errors);
  }

  /** The verdict is `fail` exactly for errors, a false positive, or more than 15% false negatives. */
  lemma FailIff(cases: seq<CaseResult>, errors: seq<string>)
    ensures Classify(Summarize(cases, errors)).Fail? <==>
      || errors != []
      || (exists c <- cases :: c.errorCount > 0)
      || (exists c <- cases :: c.reviewedByHuman && c.expected.Some? && c.falsePositive)
      || 20 * |Filter((c: CaseResult) => c.falseNegative, Expecting(cases))| > 3 * |Expecting(cases)|
  {
    ZeroCounts(cases, errors);
    ReviewCounts(cases, errors);
    RateAbove(cases, errors);
  }

  lemma RateAbove(cases: seq<CaseResult>, errors: seq<string>)
    ensures var s := Summarize(cases, errors);
      s.falseNegativeRate > 0.15 <==> 20 * s.falseNegatives > 3 * s.casesWithExpectations
  {
    var n, d := Summarize(cases, errors).falseNegatives, |Expecting(cases)|;
    if d > 0 {
      QuotientAbove(n, d);
    } else {
      assert n <= |Expecting(cases)|;
    }
  }

  lemma QuotientAbove(n: nat, d: nat)
    requires d > 0
    ensures n as real / d as real > 0.15 <==> 20 * n > 3 * d
  {
    var q := n as real / d as real;
    assert q * d as real == n as real;
    if q > 0.15 {
      assert n as real > 0.15 * d as real;
    } else {
      assert n as real <= 0.15 * d as real;
    }
  }

  /** A conflict that was expected and not reported. */
  predicate MissesConflict(c: CaseResult) {
    c.reviewedByHuman && c.expected.Some? && c.expected.value.status == Some(ConflictNeedsReview)
    && c.actual.status != ConflictNeedsReview && c.falseNegative
  }

  /**
   A missed conflict is documented as a failure, but it only counts as one false negative: if no
   customer was found instead, it is tolerated as soon as six other expectations were met.
   */
  lemma MissedConflictTolerated(cases: seq<CaseResult>, others: seq<CaseResult>, missed: CaseResult)
    requires cases == others + [missed]
    requires forall c <- others :: Clean(c)
    requires |Expecting(others)| >= 6
    requires MissesConflict(missed) && !missed.falsePositive && missed.errorCount == 0
    ensures Classify(Summarize(cases, [])).Warn?
  {
    OneMissed(others, missed);
    assert forall c :: c in cases <==> c in others || c == missed;
    FewMisses(cases, missed);
  }

  lemma FewMisses(cases: seq<CaseResult>, missed: CaseResult)
    requires missed in cases && !Clean(missed)
    requires forall c <- cases :: c.errorCount == 0 && !(c.reviewedByHuman && c.expected.Some? && c.falsePositive)
    requires 20 * |Filter((c: CaseResult) => c.falseNegative, Expecting(cases))| <= 3 * |Expecting(cases)|
    ensures Classify(Summarize(cases, [])).Warn?
  {
    FailIff(cases, []);
    PassIff(cases, []);
  }

  lemma OneMissed(others: seq<CaseResult>, missed: CaseResult)
    requires forall c <- others :: Clean(c)
    requires MissesConflict(missed)
    ensures |Expecting(others + [missed])| == |Expecting(others)| + 1
    ensures |Filter((c: CaseResult) => c.falseNegative, Expecting(others + [missed]))| == 1
  {
    var flagged := (c: CaseResult) => c.falseNegative;
    assert (others + [missed])[..|others|] == others;
    assert Expecting(others + [missed]) == Expecting(others) + [missed];
    assert (Expecting(others) + [missed])[..|Expecting(others)|] == Expecting(others);
    AmongExpecting(others, flagged);
  }

  // ----- conservation of counts

  /** The records of an analysed case add up to its totals. */
  ghost predicate Consistent(c: CaseResult) {
    && Total(c.warningCountByCode) == c.warningCount
    && Total(c.warningCountBySource) == c.warningCount
    && c.messageCountBySeverity
       == [("informational", c.informationalCount), ("warning", c.warningCount), ("error", c.errorCount)]
    && c.informationalCount + c.warningCount + c.errorCount == c.messageCount
  }

  lemma {:induction false} SeveritiesPartition(messages: seq<Message>)
    ensures |OfSeverity(messages, Informational)| + |OfSeverity(messages, Warning)| + |OfSeverity(messages, Error)|
      == |messages|
  {
    if messages != [] {
      SeveritiesPartition(messages[..|messages| - 1]);
    }
  }

  lemma AnalyzeIsConsistent(input: Case, actual: Actual, messages: seq<Message>, latencyMs: real)
    ensures Consistent(Analyze(input, actual, messages, latencyMs))
  {
    var all := messages + SyntheticMessages(input, actual);
    SeveritiesPartition(all);
    CountIsMultiplicity(Map((m: Message) => m.code, OfSeverity(all, Warning)), "");
    CountIsMultiplicity(Map((m: Message) => m.source, OfSeverity(all, Warning)), "");
  }

  lemma {:induction false} StatusesPartition(cases: seq<CaseResult>)
    ensures WithStatus(cases, ResolvedExisting) + WithStatus(cases, LinkedIdentity)
      + WithStatus(cases, CreatedProvisional) + WithStatus(cases, ConflictNeedsReview)
      + WithStatus(cases, NotEnoughIdentity) + WithStatus(cases, SkippedReadOnly) == |cases|
  {
    if cases != [] {
      StatusesPartition(cases[..|cases| - 1]);
    }
  }

  lemma StatusCountsTotal(cases: seq<CaseResult>, errors: seq<string>)
    ensures Sum(Summarize(cases, errors).statusCounts) == |cases|
  {
    StatusesPartition(cases);
    SumOfSix(Summarize(cases, errors).statusCounts);
  }

  lemma SumStep(s: seq<nat>, k: nat)
    requires k < |s|
    ensures Sum(s[..k + 1]) == Sum(s[..k]) + s[k]
  {
    assert s[..k + 1][..k] == s[..k];
  }

  lemma SumOfSix(s: seq<nat>)
    requires |s| == 6
    ensures Sum(s) == s[0] + s[1] + s[2] + s[3] + s[4] + s[5]
  {
    SumStep(s, 0);
    SumStep(s, 1);
    SumStep(s, 2);
    SumStep(s, 3);
    SumStep(s, 4);
    SumStep(s, 5);
    assert s[..6] == s;
  }

  /** Both warning records of the summary total the warnings, whatever keys they are under. */
  lemma WarningRecordsTotal(cases: seq<CaseResult>, errors: seq<string>)
    requires forall c <- cases :: Consistent(c)
    ensures var s := Summarize(cases, errors);
      Total(s.warningCountByCode) == s.warningCount && Total(s.warningCountBySource) == s.warningCount
  {
    var byCode := Map((c: CaseResult) => c.warningCountByCode, cases);
    var bySource := Map((c: CaseResult) => c.warningCountBySource, cases);
    RecountIsPointwiseSum(byCode, "");
    RecountIsPointwiseSum(bySource, "");
    var warnings := Map((c: CaseResult) => c.warningCount, cases);
    forall i | 0 <= i < |cases|
      ensures Total(byCode[i]) == warnings[i] == Total(bySource[i])
    {
      assert cases[i] in cases;
    }
    assert Map((r: Counts) => Total(r), byCode) == warnings;
    assert Map((r: Counts) => Total(r), bySource) == warnings;
  }

  /** For every code the summary counts what the cases counted, added up; likewise for every source. */
  lemma WarningRecordsAddUp(cases: seq<CaseResult>, errors: seq<string>, key: string)
    ensures var s := Summarize(cases, errors);
      && Get(s.warningCountByCode, key) == Sum(Map((c: CaseResult) => Get(c.warningCountByCode, key), cases))
      && Get(s.warningCountBySource, key) == Sum(Map((c: CaseResult) => Get(c.warningCountBySource, key), cases))
  {
    var byCode := Map((c: CaseResult) => c.warningCountByCode, cases);
    var bySource := Map((c: CaseResult) => c.warningCountBySource, cases);
    RecountIsPointwiseSum(byCode, key);
    RecountIsPointwiseSum(bySource, key);
    assert Map((r: Counts) => Get(r, key), byCode) == Map((c: CaseResult) => Get(c.warningCountByCode, key), cases);
    assert Map((r: Counts) => Get(r, key), bySource) == Map((c: CaseResult) => Get(c.warningCountBySource, key), cases);
  }

  lemma {:induction false} CountOfIsMultiplicity(s: seq<string>, x: string)
    ensures CountOf(s, x) == multiset(s)[x]
  {
    if s != [] {
      SplitLast(s);
      CountOfIsMultiplicity(s[..|s| - 1], x);
    }
  }

  lemma {:induction false} SumOfThree(cases: seq<CaseResult>)
    requires forall c <- cases :: Consistent(c)
    ensures Sum(Map((c: CaseResult) => c.informationalCount, cases))
      + Sum(Map((c: CaseResult) => c.warningCount, cases))
      + Sum(Map((c: CaseResult) => c.errorCount, cases)) == Sum(Map((c: CaseResult) => c.messageCount, cases))
  {
    if cases != [] {
      var front, last := cases[..|cases| - 1], cases[|cases| - 1];
      SplitLast(cases);
      assert last in cases && forall c <- front :: c in cases;
      SumOfThree(front);
      MapAppend((c: CaseResult) => c.informationalCount, front, [last]);
      MapAppend((c: CaseResult) => c.warningCount, front, [last]);
      MapAppend((c: CaseResult) => c.errorCount, front, [last]);
      MapAppend((c: CaseResult) => c.messageCount, front, [last]);
    }
  }

  lemma GetOfThree(a: (string, nat), b: (string, nat), c: (string, nat), k: string)
    ensures Get([a, b, c], k)
      == (if a.0 == k then a.1 else 0) + (if b.0 == k then b.1 else 0) + (if c.0 == k then c.1 else 0)
  {
    assert [a, b, c][1..] == [b, c] && [b, c][1..] == [c] && [c][1..] == [];
    assert Get([c], k) == if c.0 == k then c.1 else 0;
    assert Get([b, c], k) == (if b.0 == k then b.1 else 0) + Get([c], k);
  }

  lemma SeverityEntries(c: CaseResult)
    requires Consistent(c)
    ensures Get(c.messageCountBySeverity, "informational") == c.informationalCount
    ensures Get(c.messageCountBySeverity, "warning") == c.warningCount
    ensures Get(c.messageCountBySeverity, "error") == c.errorCount
  {
    assert "informational"[0] == 'i' && "warning"[0] == 'w' && "error"[0] == 'e';
    var i, w, e := ("informational", c.informationalCount), ("warning", c.warningCount), ("error", c.errorCount);
    GetOfThree(i, w, e, "informational");
    GetOfThree(i, w, e, "warning");
    GetOfThree(i, w, e, "error");
  }

  lemma SeverityCountsAre(cases: seq<CaseResult>, errors: seq<string>)
    requires forall c <- cases :: Consistent(c)
    ensures var s := Summarize(cases, errors);
      s.messageCountBySeverity
        == [Sum(Map((c: CaseResult) => c.informationalCount, cases)), s.warningCount, s.errorCount]
  {
    forall c | c in cases
      ensures Get(c.messageCountBySeverity, "informational") == c.informationalCount
      ensures Get(c.messageCountBySeverity, "warning") == c.warningCount
      ensures Get(c.messageCountBySeverity, "error") == c.errorCount
    {
      SeverityEntries(c);
    }
    SeverityCount(cases, "informational", (c: CaseResult) => c.informationalCount);
    SeverityCount(cases, "warning", (c: CaseResult) => c.warningCount);
    SeverityCount(cases, "error", (c: CaseResult) => c.errorCount);
  }

  /** The severity counts of the summary, re-expanded from the cases, total its messages. */
  lemma SeverityCountsTotal(cases: seq<CaseResult>, errors: seq<string>)
    requires forall c <- cases :: Consistent(c)
    ensures var s := Summarize(cases, errors);
      && Sum(s.messageCountBySeverity) == s.totalMessages
      && s.messageCountBySeverity[1] == s.warningCount && s.messageCountBySeverity[2] == s.errorCount
  {
    SeverityCountsAre(cases, errors);
    SumOfThree(cases);
    var three := Summarize(cases, errors).messageCountBySeverity;
    SumStep(three, 0);
    SumStep(three, 1);
    SumStep(three, 2);
    assert three[..3] == three;
  }

  lemma SeverityCount(cases: seq<CaseResult>, severity: string, count: CaseResult -> nat)
    requires forall c <- cases :: Get(c.messageCountBySeverity, severity) == count(c)
    ensures CountOf(ExpandAll(Map((c: CaseResult) => c.messageCountBySeverity, cases)), severity)
      == Sum(Map(count, cases))
  {
    var records := Map((c: CaseResult) => c.messageCountBySeverity, cases);
    CountOfIsMultiplicity(ExpandAll(records), severity);
    ExpandAllMultiplicity(records, severity);
    forall i | 0 <= i < |cases|
      ensures Get(records[i], severity) == count(cases[i])
    {
      assert cases[i] in cases;
    }
    assert Map((r: Counts) => Get(r, severity), records) == Map(count, cases);
  }

  // ----- latencies and flags

  lemma LatenciesAreOrdered(cases: seq<CaseResult>, errors: seq<string>)
    ensures var s := Summarize(cases, errors); s.p50LatencyMs <= s.p95LatencyMs <= s.maxLatencyMs
  {
    var latencies := Map((c: CaseResult) => c.latencyMs, cases);
    if cases == [] {
      assert latencies == [];
    } else {
      Percentile.MedianTailMax(latencies);
    }
  }

  /**
   Median and tail are latencies of cases: half of the cases take no longer than the median and more
   than half no less; 19 in 20 take no longer than the tail, and more than 1 in 20 no less.
   */
  lemma LatenciesAreNearestRanks(cases: seq<CaseResult>, errors: seq<string>)
    requires cases != []
    ensures var s, n := Summarize(cases, errors), |cases|;
      var latencies := Map((c: CaseResult) => c.latencyMs, cases);
      && s.p50LatencyMs in latencies && s.p95LatencyMs in latencies && s.maxLatencyMs in latencies
      && 2 * |Filter((x: real) => x <= s.p50LatencyMs, latencies)| >= n
      && 2 * |Filter((x: real) => x >= s.p50LatencyMs, latencies)| > n
      && 20 * |Filter((x: real) => x <= s.p95LatencyMs, latencies)| >= 19 * n
      && 20 * |Filter((x: real) => x >= s.p95LatencyMs, latencies)| > n
      && forall x <- latencies :: x <= s.maxLatencyMs
  {
    var latencies := Map((c: CaseResult) => c.latencyMs, cases);
    Percentile.PercentileIsNearestRank(latencies, 50);
    Percentile.PercentileIsNearestRank(latencies, 95);
  }

  /** How many answers have each status, in the order of the summary. */
  lemma StatusCountsAre(cases: seq<CaseResult>, errors: seq<string>)
    ensures var counts := Summarize(cases, errors).statusCounts;
      var statuses := multiset(Map((c: CaseResult) => c.actual.status, cases));
      counts == [statuses[ResolvedExisting], statuses[LinkedIdentity], statuses[CreatedProvisional],
                 statuses[ConflictNeedsReview], statuses[NotEnoughIdentity], statuses[SkippedReadOnly]]
  {
    StatusMultiplicity(cases, ResolvedExisting);
    StatusMultiplicity(cases, LinkedIdentity);
    StatusMultiplicity(cases, CreatedProvisional);
    StatusMultiplicity(cases, ConflictNeedsReview);
    StatusMultiplicity(cases, NotEnoughIdentity);
    StatusMultiplicity(cases, SkippedReadOnly);
    InOrderOfStatuses((s: Status) => WithStatus(cases, s));
  }

  lemma InOrderOfStatuses(count: Status -> nat)
    ensures Map(count, STATUSES)
      == [count(ResolvedExisting), count(LinkedIdentity), count(CreatedProvisional), count(ConflictNeedsReview),
          count(NotEnoughIdentity), count(SkippedReadOnly)]
  {
  }

  lemma {:induction false} StatusMultiplicity(cases: seq<CaseResult>, status: Status)
    ensures WithStatus(cases, status) == multiset(Map((c: CaseResult) => c.actual.status, cases))[status]
  {
    if cases != [] {
      var front, last := cases[..|cases| - 1], cases[|cases| - 1];
      StatusMultiplicity(front, status);
      MapAppend((c: CaseResult) => c.actual.status, front, [last]);
      assert front + [last] == cases;
    }
  }

  lemma {:induction false} FilteredTwice<A(!new)>(p: A -> bool, q: A -> bool, both: A -> bool, s: seq<A>)
    requires forall x :: both(x) == (q(x) && p(x))
    ensures Filter(p, Filter(q, s)) == Filter(both, s)
  {
    if s != [] {
      var front, last := s[..|s| - 1], s[|s| - 1];
      FilteredTwice(p, q, both, front);
      if q(last) {
        FilterAppend(p, Filter(q, front), [last]);
      }
    }
  }

  lemma {:induction false} HowMany<A(!new)>(p: A -> bool, s: seq<A>)
    ensures |Filter(p, s)| == multiset(Map(p, s))[true]
  {
    if s != [] {
      var front, last := s[..|s| - 1], s[|s| - 1];
      HowMany(p, front);
      MapAppend(p, front, [last]);
      assert front + [last] == s;
    }
  }

  ghost function AndReviewed(p: CaseResult -> bool): CaseResult -> bool {
    (c: CaseResult) => c.reviewedByHuman && c.expected.Some? && p(c)
  }

  /** How many cases have a property and were reviewed with an expectation. */
  ghost function Reviewed(cases: seq<CaseResult>, p: CaseResult -> bool): nat {
    multiset(Map(AndReviewed(p), cases))[true]
  }

  lemma AmongReviewed(cases: seq<CaseResult>, p: CaseResult -> bool)
    ensures |Filter(p, Expecting(cases))| == Reviewed(cases, p)
  {
    FilteredTwice(p, (c: CaseResult) => c.reviewedByHuman && c.expected.Some?, AndReviewed(p), cases);
    HowMany(AndReviewed(p), cases);
  }

  /** How many cases were reviewed, and how many of those have an expectation. */
  lemma ReviewedAre(cases: seq<CaseResult>, errors: seq<string>)
    ensures var s := Summarize(cases, errors);
      && s.reviewedCases == multiset(Map((c: CaseResult) => c.reviewedByHuman, cases))[true]
      && s.casesWithExpectations == Reviewed(cases, (c: CaseResult) => true)
  {
    HowMany((c: CaseResult) => c.reviewedByHuman, cases);
    AmongReviewed(cases, (c: CaseResult) => true);
    Percentile.FilterAll((c: CaseResult) => true, Expecting(cases));
  }

  /** The figures of a review are counts of such cases, and the rate is the share of false negatives among them. */
  lemma ReviewFiguresAre(cases: seq<CaseResult>, errors: seq<string>)
    ensures var s := Summarize(cases, errors);
      && s.exactMatches == Reviewed(cases, (c: CaseResult) => c.exactMatch)
      && s.falsePositives == Reviewed(cases, (c: CaseResult) => c.falsePositive)
      && s.falseNegatives == Reviewed(cases, (c: CaseResult) => c.falseNegative)
  {
    AmongReviewed(cases, (c: CaseResult) => c.exactMatch);
    AmongReviewed(cases, (c: CaseResult) => c.falsePositive);
    AmongReviewed(cases, (c: CaseResult) => c.falseNegative);
  }

  /** The rate is the share of false negatives among the reviewed cases with an expectation. */
  lemma RateIsShare(cases: seq<CaseResult>, errors: seq<string>)
    ensures var s := Summarize(cases, errors);
      if s.casesWithExpectations == 0 then s.falseNegativeRate == 0.0
      else s.falseNegativeRate == s.falseNegatives as real / s.casesWithExpectations as real
  {
  }

  // ----- what a review says

  /** The answer, with everything in it that the expectation fixes put in the place of what was found. */
  ghost function Corrected(actual: Actual, e: Expected, reference: Option<string>): Actual {
    Actual(e.status.GetOr(actual.status), e.confidence.GetOr(actual.confidence),
           e.needsReview.GetOr(actual.needsReview), e.readOnly.GetOr(actual.readOnly),
           e.matchedBy.GetOr(actual.matchedBy), if reference.Some? then reference else actual.reference)
  }

  /**
   A case matches exactly when it was reviewed with an expectation, and that corrects nothing in the
   answer; what is expected of a case that nobody reviewed is dropped.
   */
  lemma ExactMatchIff(input: Case, actual: Actual, messages: seq<Message>, latencyMs: real)
    ensures Analyze(input, actual, messages, latencyMs).exactMatch <==>
      && input.reviewedByHuman && input.expected.Some?
      && Corrected(actual, input.expected.value, input.expectedReference) == actual
    ensures var c := Analyze(input, actual, messages, latencyMs);
      if input.reviewedByHuman then c.expected == input.expected && c.expectedReference == input.expectedReference
      else c.expected.None? && c.expectedReference.None?
  {
  }

  /**
   A false positive is a customer found where none, or another one, was expected; a false negative
   is a customer expected and not found, or a conflict expected and not seen.
   */
  lemma FlagsIff(input: Case, actual: Actual, messages: seq<Message>, latencyMs: real)
    ensures var c := Analyze(input, actual, messages, latencyMs);
      var customers := {Some(ResolvedExisting), Some(LinkedIdentity), Some(CreatedProvisional)};
      var reviewed := input.reviewedByHuman && input.expected.Some?;
      var found := Some(actual.status) in customers;
      && (c.falsePositive <==>
            && reviewed && found
            && (input.expected.value.status !in customers
                || (input.expectedReference.Some? && input.expectedReference != actual.reference)))
      && (c.falseNegative <==>
            && reviewed
            && ((input.expected.value.status in customers && !found)
                || (input.expected.value.status == Some(ConflictNeedsReview) && actual.status != ConflictNeedsReview)))
  {
  }

  /**
   The evaluation adds one warning for a phone that has no normal form, one note for an unreviewed
   case that found nobody, and no error.
   */
  lemma CountsOfCase(input: Case, actual: Actual, messages: seq<Message>, latencyMs: real)
    ensures var c := Analyze(input, actual, messages, latencyMs);
      var severities := multiset(Map((m: Message) => m.severity, messages));
      var invalid := input.phone.Some? && input.phone.value != "" && Phones.NormalizePhone(input.phone.value).None?;
      var unmatched := !input.reviewedByHuman && actual.status == NotEnoughIdentity;
      && c.warningCount == severities[Warning] + (if invalid then 1 else 0)
      && c.informationalCount == severities[Informational] + (if unmatched then 1 else 0)
      && c.errorCount == severities[Error]
  {
    var added := SyntheticMessages(input, actual);
    forall severity: Severity
      ensures |OfSeverity(messages + added, severity)|
        == |OfSeverity(messages, severity)| + |OfSeverity(added, severity)|
      ensures |OfSeverity(messages, severity)| == multiset(Map((m: Message) => m.severity, messages))[severity]
    {
      FilterAppend((m: Message) => m.severity == severity, messages, added);
      SeverityMultiplicity(messages, severity);
    }
    AddedSeverities(input, actual);
  }

  lemma {:induction false} CountAmong<A(!new)>(p: A -> bool, f: A -> string, both: A -> bool, s: seq<A>, key: string)
    requires forall x :: both(x) == (p(x) && f(x) == key)
    ensures multiset(Map(f, Filter(p, s)))[key] == |Filter(both, s)|
  {
    if s != [] {
      var front, last := s[..|s| - 1], s[|s| - 1];
      CountAmong(p, f, both, front, key);
      if p(last) {
        MapAppend(f, Filter(p, front), [last]);
      }
    }
  }

  lemma OneMoreMessage(p: Message -> bool, messages: seq<Message>, first: bool, a: Message, second: bool, b: Message)
    requires !p(b)
    ensures |Filter(p, messages + ((if first then [a] else []) + (if second then [b] else [])))|
      == |Filter(p, messages)| + if first && p(a) then 1 else 0
  {
    var left, right := if first then [a] else [], if second then [b] else [];
    FilterAppend(p, messages, left + right);
    FilterAppend(p, left, right);
  }

  /**
   The two records of a case count its warnings by code and by source; a phone without normal form
   is one more warning, under a code of its own and the source of the case.
   */
  lemma WarningRecordsOfCase(input: Case, actual: Actual, messages: seq<Message>, latencyMs: real, key: string)
    ensures var c := Analyze(input, actual, messages, latencyMs);
      var invalid := input.phone.Some? && input.phone.value != "" && Phones.NormalizePhone(input.phone.value).None?;
      && Get(c.warningCountByCode, key)
         == |Filter((m: Message) => m.severity == Warning && m.code == key, messages)|
            + (if invalid && key == "invalid_phone" then 1 else 0)
      && Get(c.warningCountBySource, key)
         == |Filter((m: Message) => m.severity == Warning && m.source == key, messages)|
            + (if invalid && key == input.source then 1 else 0)
  {
    var invalid := input.phone.Some? && input.phone.value != "" && Phones.NormalizePhone(input.phone.value).None?;
    var unmatched := !input.reviewedByHuman && actual.status == NotEnoughIdentity;
    var warning, note := Message("invalid_phone", input.source, Warning),
                         Message("no_match", input.source, Informational);
    var all := messages + SyntheticMessages(input, actual);
    var byCode, bySource := (m: Message) => m.severity == Warning && m.code == key,
                            (m: Message) => m.severity == Warning && m.source == key;
    CountIsMultiplicity(Map((m: Message) => m.code, OfSeverity(all, Warning)), key);
    CountIsMultiplicity(Map((m: Message) => m.source, OfSeverity(all, Warning)), key);
    CountAmong((m: Message) => m.severity == Warning, (m: Message) => m.code, byCode, all, key);
    CountAmong((m: Message) => m.severity == Warning, (m: Message) => m.source, bySource, all, key);
    OneMoreMessage(byCode, messages, invalid, warning, unmatched, note);
    OneMoreMessage(bySource, messages, invalid, warning, unmatched, note);
  }

  lemma AddedSeverities(input: Case, actual: Actual)
    ensures var added := SyntheticMessages(input, actual);
      var invalid := input.phone.Some? && input.phone.value != "" && Phones.NormalizePhone(input.phone.value).None?;
      && |OfSeverity(added, Warning)| == (if invalid then 1 else 0)
      && |OfSeverity(added, Informational)|
         == (if !input.reviewedByHuman && actual.status == NotEnoughIdentity then 1 else 0)
      && OfSeverity(added, Error) == []
  {
    var invalid := input.phone.Some? && input.phone.value != "" && Phones.NormalizePhone(input.phone.value).None?;
    var unmatched := !input.reviewedByHuman && actual.status == NotEnoughIdentity;
    TwoAdded(invalid, Message("invalid_phone", input.source, Warning),
             unmatched, Message("no_match", input.source, Informational));
  }

  lemma TwoAdded(first: bool, a: Message, second: bool, b: Message)
    requires a.severity == Warning && b.severity == Informational
    ensures var added := (if first then [a] else []) + (if second then [b] else []);
      && |OfSeverity(added, Warning)| == (if first then 1 else 0)
      && |OfSeverity(added, Informational)| == (if second then 1 else 0)
      && OfSeverity(added, Error) == []
  {
    var left, right := if first then [a] else [], if second then [b] else [];
    FilterAppend((m: Message) => m.severity == Warning, left, right);
    FilterAppend((m: Message) => m.severity == Informational, left, right);
    FilterAppend((m: Message) => m.severity == Error, left, right);
  }

  lemma {:induction false} SeverityMultiplicity(messages: seq<Message>, severity: Severity)
    ensures |OfSeverity(messages, severity)| == multiset(Map((m: Message) => m.severity, messages))[severity]
  {
    if messages != [] {
      var front, last := messages[..|messages| - 1], messages[|messages| - 1];
      SeverityMultiplicity(front, severity);
      MapAppend((m: Message) => m.severity, front, [last]);
      assert front + [last] == messages;
    }
  }

  /** A case is flagged both ways exactly when a conflict was expected and a customer was found. */
  lemma FlaggedBothWaysIff(input: Case, actual: Actual, messages: seq<Message>, latencyMs: real)
    ensures var c := Analyze(input, actual, messages, latencyMs);
      c.falsePositive && c.falseNegative <==>
        c.expected.Some? && c.expected.value.status == Some(ConflictNeedsReview) && IsPositive(actual.status)
  {
  }

  /**
   An exact match is never a false negative, but it is a false positive exactly when the
   expectation leaves the status open and a customer was found.
   */
  lemma ExactMatchFlags(input: Case, actual: Actual, messages: seq<Message>, latencyMs: real)
    ensures var c := Analyze(input, actual, messages, latencyMs);
      c.exactMatch ==>
        && !c.falseNegative
        && (c.falsePositive <==> c.expected.value.status.None? && IsPositive(actual.status))
  {
  }

  const CONFIDENCE_ONLY: Expected := Expected(None, Some(High), None, None, None)

  const FOUND: Actual := Actual(ResolvedExisting, High, false, true, Some(Email), None)

  /** A review that filled in nothing but the confidence: the case matches exactly, and fails the run by itself. */
  lemma ExactMatchFailsRun(latencyMs: real)
    ensures var c := Analyze(Case("prestashop", None, true, Some(CONFIDENCE_ONLY), None), FOUND, [], latencyMs);
      c.exactMatch && c.falsePositive && Classify(Summarize([c], [])).Fail?
  {
  }
}
