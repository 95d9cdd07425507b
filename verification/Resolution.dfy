/** Conflict detection, selection and status of `resolveCustomerCandidate`, on one list of observations. */
module Resolution {
  import opened Options
  import opened Sequences
  import opened Sorting
  import opened Observations

  // ----- selection

  predicate Outranks(a: Observation, b: Observation) {
    Rank(a) > Rank(b)
  }

  function ChoosePrimary(observations: seq<Observation>): Option<Observation> {
    var sorted := Sort(observations, Outranks);
    if sorted == [] then None else Some(sorted[0])
  }

  function BestRank(b: Bucket): nat {
    var best := ChoosePrimary(b.observations);
    if best.Some? then Rank(best.value) else 0
  }

  predicate BucketOutranks(a: Bucket, b: Bucket) {
    BestRank(a) > BestRank(b)
  }

  function BestBucket(buckets: seq<Bucket>): Option<Bucket> {
    var sorted := Sort(buckets, BucketOutranks);
    if sorted == [] then None else Some(sorted[0])
  }

  // ----- conflicts

  /** The values that are there and not empty, each at its first place only. */
  function UniqueStrings(values: seq<Option<string>>): seq<string> {
    if values == [] then []
    else
      var front, last := UniqueStrings(values[..|values| - 1]), values[|values| - 1];
      if last.None? || last.value == "" || last.value in front then front else front + [last.value]
  }

  function HighValues(observations: seq<Observation>, t: IdentityType): seq<string> {
    UniqueStrings(Map((o: Observation) => o.identityValue,
                      Filter((o: Observation) => o.identityType == Some(t) && o.confidence == High, observations)))
  }

  predicate IsAmbiguous(o: Observation) {
    o.identityType in {Some(WaId), Some(Phone)} && o.confidence != High
  }

  function ConflictReasons(observations: seq<Observation>): seq<string> {
    (if |HighValues(observations, Email)| > 1 then ["emails_distinct_strong"] else [])
    + (if |HighValues(observations, PrestashopCustomerId)| > 1 then ["prestashop_customer_id_distinct"] else [])
    + (if |HighValues(observations, OrderId)| > 1 || |HighValues(observations, InvoiceNumber)| > 1
       then ["invoice_or_order_assigned_elsewhere"] else [])
    + (if |Filter(IsAmbiguous, observations)| > 1 then ["phone_or_wa_id_ambiguous"] else [])
  }

  // ----- the resolution

  datatype Status =
    | ResolvedExisting | CreatedProvisional | LinkedIdentity | ConflictNeedsReview | NotEnoughIdentity | SkippedReadOnly

  datatype Settings = Settings(readOnly: bool, allowProvisional: bool)

  /** What the request itself contributes: whether an observation was made of it, and a customer key. */
  datatype Synthetic = Synthetic(observed: bool, key: Option<string>)

  datatype Result = Result(
    status: Status,
    confidence: Confidence,
    needsReview: bool,
    conflictReasons: seq<string>,
    bucket: Option<Bucket>,
    selected: Option<Observation>,
    customerKey: Option<string>,
    candidateCustomerIds: seq<string>)

  function BucketsWith(p: Observation -> bool, buckets: seq<Bucket>): seq<Bucket> {
    Filter((b: Bucket) => exists o <- b.observations :: p(o), buckets)
  }

  predicate InConflict(observations: seq<Observation>) {
    ConflictReasons(observations) != [] && |BucketsWith(IsStrong, Buckets(observations))| > 1
  }

  function Eligible(observations: seq<Observation>): seq<Bucket> {
    var strong := BucketsWith(IsStrong, Buckets(observations));
    if strong != [] then strong else BucketsWith(IsProvisional, Buckets(observations))
  }

  function Selected(observations: seq<Observation>): Option<Bucket> {
    if InConflict(observations) then None else BestBucket(Eligible(observations))
  }

  function StatusOf(observations: seq<Observation>, synthetic: Synthetic, settings: Settings): Status {
    var bucket := Selected(observations);
    var status :=
      if InConflict(observations) then ConflictNeedsReview
      else if BucketsWith(IsStrong, Buckets(observations)) != [] then
        if bucket.Some? && |bucket.value.observations| > 1 then LinkedIdentity else ResolvedExisting
      else if settings.allowProvisional
        && (BucketsWith(IsProvisional, Buckets(observations)) != [] || synthetic.observed) then
        CreatedProvisional
      else NotEnoughIdentity;
    if !settings.readOnly && status !in {NotEnoughIdentity, ConflictNeedsReview} then SkippedReadOnly else status
  }

  function ConfidenceOf(status: Status): Confidence {
    match status
    case ConflictNeedsReview => Low
    case ResolvedExisting | LinkedIdentity => High
    case CreatedProvisional | SkippedReadOnly => Medium
    case NotEnoughIdentity => Medium
  }

  /** The keys of all buckets, and the one made from the request. */
  function CandidateIds(observations: seq<Observation>, synthetic: Synthetic): seq<string> {
    UniqueStrings(Map((b: Bucket) => Some(b.key), Buckets(observations)) + [synthetic.key])
  }

  function KeyOf(bucket: Option<Bucket>): Option<string> {
    if bucket.Some? then Some(bucket.value.key) else None
  }

  function Resolve(observations: seq<Observation>, synthetic: Synthetic, settings: Settings): Result {
    var status := StatusOf(observations, synthetic, settings);
    var bucket := Selected(observations);
    Result(status, ConfidenceOf(status), status == ConflictNeedsReview,
           if status == ConflictNeedsReview then ConflictReasons(observations) else [],
           bucket, if bucket.Some? then ChoosePrimary(bucket.value.observations) else None,
           if status == ConflictNeedsReview then None else KeyOf(bucket).OrElse(synthetic.key),
           CandidateIds(observations, synthetic))
  }

  /** The body of the resolver once the observations are merged. */
  method ResolveObservations(all: seq<Observation>, synthetic: Synthetic, settings: Settings) returns (result: Result)
    ensures result == Resolve(all, synthetic, settings)
  {
    var buckets := BucketObservations(all);
    var reasons := ConflictReasons(all);
    var strong, provisional := BucketsWith(IsStrong, buckets), BucketsWith(IsProvisional, buckets);
    var conflict := reasons != [] && |strong| > 1;
    var bucket := if conflict then None else BestBucket(if strong != [] then strong else provisional);
    var selected := if bucket.Some? then ChoosePrimary(bucket.value.observations) else None;
    var candidateCustomerIds := UniqueStrings(Map((b: Bucket) => Some(b.key), buckets) + [synthetic.key]);
    assert conflict == InConflict(all) && bucket == Selected(all);
    var status := NotEnoughIdentity;
    if conflict {
      status := ConflictNeedsReview;
    } else if strong != [] {
      status := if bucket.Some? && |bucket.value.observations| > 1 then LinkedIdentity else ResolvedExisting;
    } else if settings.allowProvisional && (provisional != [] || synthetic.observed) {
      status := CreatedProvisional;
    }
    if !settings.readOnly && status != NotEnoughIdentity && status != ConflictNeedsReview {
      status := SkippedReadOnly;
    }
    assert status == StatusOf(all, synthetic, settings);
    result := Result(status, ConfidenceOf(status), status == ConflictNeedsReview,
                     if status == ConflictNeedsReview then reasons else [], bucket, selected,
                     if status == ConflictNeedsReview then None else KeyOf(bucket).OrElse(synthetic.key),
                     candidateCustomerIds);
  }

  // ----- the selection attains the maximum

  lemma PrimaryIsFirstBest(s: seq<Observation>) returns (i: nat)
    requires s != []
    ensures i < |s| && ChoosePrimary(s) == Some(s[i])
    ensures forall j :: 0 <= j < |s| ==> Rank(s[j]) <= Rank(s[i])
    ensures forall j :: 0 <= j < i ==> Rank(s[j]) < Rank(s[i])
  {
    i := HeadOfSort(s, Outranks);
  }

  lemma BestBucketIsFirstBest(s: seq<Bucket>) returns (i: nat)
    requires s != []
    ensures i < |s| && BestBucket(s) == Some(s[i])
    ensures forall j :: 0 <= j < |s| ==> BestRank(s[j]) <= BestRank(s[i])
    ensures forall j :: 0 <= j < i ==> BestRank(s[j]) < BestRank(s[i])
  {
    i := HeadOfSort(s, BucketOutranks);
  }

  lemma BestRankBounds(b: Bucket)
    requires b.observations != []
    ensures forall o <- b.observations :: Rank(o) <= BestRank(b)
    ensures ChoosePrimary(b.observations).Some? && ChoosePrimary(b.observations).value in b.observations
  {
    var i := PrimaryIsFirstBest(b.observations);
  }

  /** The keys of the observations with a property, without going through buckets. */
  ghost function KeysWith(p: Observation -> bool, s: seq<Observation>): set<string> {
    set o <- s | p(o) :: BucketKey(o)
  }

  /** The bucket keys with a property, in bucket order. */
  ghost function OrderedKeysWith(p: Observation -> bool, s: seq<Observation>): seq<string> {
    Filter((key: string) => exists o <- WithKey(s, key) :: p(o), BucketKeys(s))
  }

  lemma BucketsWithAsMap(p: Observation -> bool, s: seq<Observation>)
    ensures BucketsWith(p, Buckets(s)) == Map((key: string) => Bucket(key, WithKey(s, key)), OrderedKeysWith(p, s))
  {
    FilterMap((key: string) => Bucket(key, WithKey(s, key)), (b: Bucket) => exists o <- b.observations :: p(o),
              (key: string) => exists o <- WithKey(s, key) :: p(o), BucketKeys(s));
  }

  lemma OrderedKeysAreKeys(p: Observation -> bool, s: seq<Observation>)
    ensures forall key :: key in OrderedKeysWith(p, s) <==> key in KeysWith(p, s)
    ensures |OrderedKeysWith(p, s)| == |KeysWith(p, s)|
  {
    KeysOfBuckets(s);
    FilterDistinct((key: string) => exists o <- WithKey(s, key) :: p(o), BucketKeys(s));
    DistinctSize(OrderedKeysWith(p, s));
    assert (set key <- OrderedKeysWith(p, s)) == KeysWith(p, s);
  }

  /** The buckets with a property are one for each key that has it. */
  lemma BucketsWithByKey(p: Observation -> bool, s: seq<Observation>)
    ensures |BucketsWith(p, Buckets(s))| == |KeysWith(p, s)|
    ensures forall b :: b in BucketsWith(p, Buckets(s)) <==>
      b.key in KeysWith(p, s) && b.observations == WithKey(s, b.key)
  {
    BucketsWithAsMap(p, s);
    OrderedKeysAreKeys(p, s);
    var keys, buckets := OrderedKeysWith(p, s), BucketsWith(p, Buckets(s));
    forall b: Bucket
      ensures b in buckets <==> b.key in keys && b.observations == WithKey(s, b.key)
    {
      if b.key in keys && b.observations == WithKey(s, b.key) {
        var i :| 0 <= i < |keys| && keys[i] == b.key;
        assert buckets[i] == b;
      }
    }
  }

  ghost function EligibleKeys(s: seq<Observation>): set<string> {
    if KeysWith(IsStrong, s) != {} then KeysWith(IsStrong, s) else KeysWith(IsProvisional, s)
  }

  lemma EligibleByKey(s: seq<Observation>)
    ensures Eligible(s) == [] <==> EligibleKeys(s) == {}
    ensures forall b :: b in Eligible(s) <==> b.key in EligibleKeys(s) && b.observations == WithKey(s, b.key)
  {
    BucketsWithByKey(IsStrong, s);
    BucketsWithByKey(IsProvisional, s);
  }

  /**
   The two nested choices find an observation of the highest rank in all eligible buckets together:
   none of theirs has a better confidence, nor as good a one and an earlier type, nor a type as early
   and a better source. It names the customer.
   */
  lemma SelectionIsMaximal(s: seq<Observation>, synthetic: Synthetic, settings: Settings)
    requires !InConflict(s)
    ensures var r := Resolve(s, synthetic, settings);
      if EligibleKeys(s) == {} then r.bucket.None? && r.selected.None? && r.customerKey == synthetic.key
      else
        && r.bucket.Some? && r.selected.Some?
        && r.selected.value in s && BucketKey(r.selected.value) == r.bucket.value.key
        && r.bucket.value.key in EligibleKeys(s) && r.customerKey == Some(r.bucket.value.key)
        && (forall o <- s :: BucketKey(o) in EligibleKeys(s) ==> Rank(o) <= Rank(r.selected.value))
        && forall o <- s :: BucketKey(o) in EligibleKeys(s) ==> !Better(o, r.selected.value)
  {
    SelectionHasHighestRank(s, synthetic, settings);
    forall o <- s | EligibleKeys(s) != {} && BucketKey(o) in EligibleKeys(s)
      ensures !Better(o, Resolve(s, synthetic, settings).selected.value)
    {
      RankIsLexicographic(o, Resolve(s, synthetic, settings).selected.value);
    }
  }

  lemma SelectionHasHighestRank(s: seq<Observation>, synthetic: Synthetic, settings: Settings)
    requires !InConflict(s)
    ensures var r := Resolve(s, synthetic, settings);
      if EligibleKeys(s) == {} then r.bucket.None? && r.selected.None? && r.customerKey == synthetic.key
      else
        && r.bucket.Some? && r.selected.Some?
        && r.selected.value in s && BucketKey(r.selected.value) == r.bucket.value.key
        && r.bucket.value.key in EligibleKeys(s) && r.customerKey == Some(r.bucket.value.key)
        && forall o <- s :: BucketKey(o) in EligibleKeys(s) ==> Rank(o) <= Rank(r.selected.value)
  {
    EligibleByKey(s);
    if EligibleKeys(s) == {} {
      assert Sort(Eligible(s), BucketOutranks) == [];
    } else {
      var best := BestBucketIsFirstBest(Eligible(s));
      var b := Eligible(s)[best];
      assert b in Eligible(s);
      EligibleNonempty(s, b);
      BestRankBounds(b);
      forall o | o in s && BucketKey(o) in EligibleKeys(s)
        ensures Rank(o) <= BestRank(b)
      {
        NoBetterBucket(s, o, best);
      }
    }
  }

  lemma NoBetterBucket(s: seq<Observation>, o: Observation, best: nat)
    requires o in s && BucketKey(o) in EligibleKeys(s) && best < |Eligible(s)|
    requires forall j :: 0 <= j < |Eligible(s)| ==> BestRank(Eligible(s)[j]) <= BestRank(Eligible(s)[best])
    ensures Rank(o) <= BestRank(Eligible(s)[best])
  {
    EligibleByKey(s);
    var c := Bucket(BucketKey(o), WithKey(s, BucketKey(o)));
    assert o in c.observations && c in Eligible(s);
    BestRankBounds(c);
  }

  lemma EligibleNonempty(s: seq<Observation>, b: Bucket)
    requires b in Eligible(s)
    ensures b.observations != []
  {
  }

  /** A strong bucket guarantees a high-confidence selection of a strong type, from whatever source. */
  lemma StrongSelection(s: seq<Observation>, synthetic: Synthetic, settings: Settings)
    requires !InConflict(s) && exists o <- s :: IsStrong(o)
    ensures var r := Resolve(s, synthetic, settings);
      && r.selected.Some? && r.selected.value.confidence == High
      && r.selected.value.identityType.Some? && IsStrongType(r.selected.value.identityType.value)
  {
    var strong :| strong in s && IsStrong(strong);
    assert BucketKey(strong) in KeysWith(IsStrong, s);
    SelectionIsMaximal(s, synthetic, settings);
    StrongFloor(strong, Resolve(s, synthetic, settings).selected.value);
  }

  // ----- conflicts are monotone, and do not depend on order

  lemma {:induction false} UniqueStringsContents(values: seq<Option<string>>)
    ensures Distinct(UniqueStrings(values))
    ensures forall v :: v in UniqueStrings(values) <==> v != "" && Some(v) in values
  {
    if values != [] {
      SplitLast(values);
      UniqueStringsContents(values[..|values| - 1]);
    }
  }

  ghost function HighValueSet(s: seq<Observation>, t: IdentityType): set<string> {
    set o <- s |
      o.identityType == Some(t) && o.confidence == High && o.identityValue.Some? && o.identityValue.value != "" ::
      o.identityValue.value
  }

  lemma HighValuesSize(s: seq<Observation>, t: IdentityType)
    ensures |HighValues(s, t)| == |HighValueSet(s, t)|
  {
    var high := Filter((o: Observation) => o.identityType == Some(t) && o.confidence == High, s);
    var values := Map((o: Observation) => o.identityValue, high);
    UniqueStringsContents(values);
    DistinctSize(HighValues(s, t));
    forall v
      ensures v in HighValues(s, t) <==> v in HighValueSet(s, t)
    {
      if v in HighValueSet(s, t) {
        var o :| o in s && o.identityType == Some(t) && o.confidence == High && o.identityValue == Some(v);
        assert o in high;
        var i :| 0 <= i < |high| && high[i] == o;
        assert values[i] == Some(v);
      }
      if v in HighValues(s, t) {
        var i :| 0 <= i < |values| && values[i] == Some(v);
        assert high[i] in high;
      }
    }
    assert (set v <- HighValues(s, t)) == HighValueSet(s, t);
  }

  lemma InLarger<A>(a: seq<A>, b: seq<A>)
    requires multiset(a) <= multiset(b)
    ensures forall x :: x in a ==> x in b
  {
    forall x | x in a
      ensures x in b
    {
      assert x in multiset(a);
      assert x in multiset(b);
    }
  }

  lemma HighValuesGrow(a: seq<Observation>, b: seq<Observation>, t: IdentityType)
    requires multiset(a) <= multiset(b)
    ensures |HighValues(a, t)| <= |HighValues(b, t)|
  {
    InLarger(a, b);
    HighValuesSize(a, t);
    HighValuesSize(b, t);
    SubsetSize(HighValueSet(a, t), HighValueSet(b, t));
  }

  lemma ReasonsGrow(a: seq<Observation>, b: seq<Observation>)
    requires multiset(a) <= multiset(b)
    ensures forall reason :: reason in ConflictReasons(a) ==> reason in ConflictReasons(b)
  {
    HighValuesGrow(a, b, Email);
    HighValuesGrow(a, b, PrestashopCustomerId);
    HighValuesGrow(a, b, OrderId);
    HighValuesGrow(a, b, InvoiceNumber);
    FilterSize(IsAmbiguous, a, b);
  }

  lemma BucketsGrow(p: Observation -> bool, a: seq<Observation>, b: seq<Observation>)
    requires multiset(a) <= multiset(b)
    ensures |BucketsWith(p, Buckets(a))| <= |BucketsWith(p, Buckets(b))|
  {
    InLarger(a, b);
    BucketsWithByKey(p, a);
    BucketsWithByKey(p, b);
    SubsetSize(KeysWith(p, a), KeysWith(p, b));
  }

  lemma ConflictGrows(a: seq<Observation>, b: seq<Observation>)
    requires multiset(a) <= multiset(b) && InConflict(a)
    ensures InConflict(b)
  {
    ReasonsGrow(a, b);
    BucketsGrow(IsStrong, a, b);
    assert ConflictReasons(a)[0] in ConflictReasons(b);
  }

  /** Status, confidence and reasons of the answer, without the selection. */
  lemma ResolveForm(s: seq<Observation>, synthetic: Synthetic, settings: Settings)
    ensures var r := Resolve(s, synthetic, settings);
      && r.status == StatusOf(s, synthetic, settings) && r.confidence == ConfidenceOf(r.status)
      && (r.status == ConflictNeedsReview <==> InConflict(s))
      && r.conflictReasons == if InConflict(s) then ConflictReasons(s) else []
  {
  }

  /** More evidence never resolves a conflict, whatever the settings. */
  lemma ConflictIsMonotone(a: seq<Observation>, b: seq<Observation>, synthetic: Synthetic, synthetic': Synthetic,
                           settings: Settings, settings': Settings)
    requires multiset(a) <= multiset(b)
    requires Resolve(a, synthetic, settings).status == ConflictNeedsReview
    ensures Resolve(b, synthetic', settings').status == ConflictNeedsReview
    ensures forall reason <- Resolve(a, synthetic, settings).conflictReasons ::
      reason in Resolve(b, synthetic', settings').conflictReasons
  {
    ResolveForm(a, synthetic, settings);
    ResolveForm(b, synthetic', settings');
    ConflictGrows(a, b);
    ReasonsGrow(a, b);
  }

  // ----- the status in terms of observations alone

  /** Two high-confidence observations of type `t` with different values. */
  ghost predicate Contradicts(s: seq<Observation>, t: IdentityType) {
    exists v, w :: v in HighValueSet(s, t) && w in HighValueSet(s, t) && v != w
  }

  lemma HighValuesIff(s: seq<Observation>, t: IdentityType)
    ensures |HighValues(s, t)| > 1 <==> Contradicts(s, t)
  {
    HighValuesSize(s, t);
    MoreThanOne(HighValueSet(s, t));
  }

  /** A conflict is a contradiction, or two uncertain phone signals, while two strong candidates compete. */
  lemma ConflictIff(s: seq<Observation>)
    ensures InConflict(s) <==>
      && (exists a, b :: a in s && b in s && IsStrong(a) && IsStrong(b) && BucketKey(a) != BucketKey(b))
      && (|| Contradicts(s, Email) || Contradicts(s, PrestashopCustomerId)
          || Contradicts(s, OrderId) || Contradicts(s, InvoiceNumber)
          || exists i, j :: 0 <= i < j < |s| && IsAmbiguous(s[i]) && IsAmbiguous(s[j]))
  {
    HighValuesIff(s, Email);
    HighValuesIff(s, PrestashopCustomerId);
    HighValuesIff(s, OrderId);
    HighValuesIff(s, InvoiceNumber);
    TwoFiltered(IsAmbiguous, s);
    CompetingIff(s);
  }

  lemma CompetingIff(s: seq<Observation>)
    ensures |BucketsWith(IsStrong, Buckets(s))| > 1 <==>
      exists a, b :: a in s && b in s && IsStrong(a) && IsStrong(b) && BucketKey(a) != BucketKey(b)
  {
    BucketsWithByKey(IsStrong, s);
    MoreThanOne(KeysWith(IsStrong, s));
    if a, b :| a in s && b in s && IsStrong(a) && IsStrong(b) && BucketKey(a) != BucketKey(b) {
      assert BucketKey(a) in KeysWith(IsStrong, s) && BucketKey(b) in KeysWith(IsStrong, s);
    }
  }

  /** An uncertain phone or WhatsApp id: not before the phone in the order of types, but before no type at all. */
  lemma AmbiguousByOrder(o: Observation)
    ensures IsAmbiguous(o) <==>
      && !EarlierType(o.identityType, Some(Phone)) && EarlierType(o.identityType, None)
      && MoreCertain(High, o.confidence)
  {
  }

  lemma ChosenTexts(a: bool, b: bool, c: bool, d: bool, texts: seq<string>)
    requires |texts| == 4 && forall i, j :: 0 <= i < j < 4 ==> texts[i] != texts[j]
    ensures var r := (if a then [texts[0]] else []) + (if b then [texts[1]] else [])
                     + (if c then [texts[2]] else []) + (if d then [texts[3]] else []);
      && (texts[0] in r <==> a) && (texts[1] in r <==> b) && (texts[2] in r <==> c) && (texts[3] in r <==> d)
      && forall text <- r :: text in texts
  {
  }

  lemma ChosenInOrder(a: bool, b: bool, c: bool, d: bool, texts: seq<string>, i: nat, j: nat)
    requires |texts| == 4
    requires i < j < |(if a then [texts[0]] else []) + (if b then [texts[1]] else [])
                      + (if c then [texts[2]] else []) + (if d then [texts[3]] else [])|
    ensures var r := (if a then [texts[0]] else []) + (if b then [texts[1]] else [])
                     + (if c then [texts[2]] else []) + (if d then [texts[3]] else []);
      exists k, l :: 0 <= k < l < 4 && r[i] == texts[k] && r[j] == texts[l]
  {
  }

  /** All reasons there are, in the order in which they are given. */
  const REASONS: seq<string> :=
    ["emails_distinct_strong", "prestashop_customer_id_distinct", "invoice_or_order_assigned_elsewhere",
     "phone_or_wa_id_ambiguous"]

  lemma ReasonsInOrder(s: seq<Observation>, i: nat, j: nat)
    requires i < j < |ConflictReasons(s)|
    ensures var r := ConflictReasons(s);
      exists k, l :: 0 <= k < l < |REASONS| && r[i] == REASONS[k] && r[j] == REASONS[l]
  {
    ChosenInOrder(|HighValues(s, Email)| > 1, |HighValues(s, PrestashopCustomerId)| > 1,
                  |HighValues(s, OrderId)| > 1 || |HighValues(s, InvoiceNumber)| > 1,
                  |Filter(IsAmbiguous, s)| > 1, REASONS, i, j);
  }

  /** Which reason is given for what; no other reason is ever given. */
  lemma ReasonsIff(s: seq<Observation>)
    ensures var r := ConflictReasons(s);
      && ("emails_distinct_strong" in r <==> Contradicts(s, Email))
      && ("prestashop_customer_id_distinct" in r <==> Contradicts(s, PrestashopCustomerId))
      && ("invoice_or_order_assigned_elsewhere" in r <==> Contradicts(s, OrderId) || Contradicts(s, InvoiceNumber))
      && ("phone_or_wa_id_ambiguous" in r
          <==> exists i, j :: 0 <= i < j < |s| && IsAmbiguous(s[i]) && IsAmbiguous(s[j]))
      && forall reason <- r :: reason in REASONS
  {
    HighValuesIff(s, Email);
    HighValuesIff(s, PrestashopCustomerId);
    HighValuesIff(s, OrderId);
    HighValuesIff(s, InvoiceNumber);
    TwoFiltered(IsAmbiguous, s);
    var texts := REASONS;
    assert |texts[0]| == 22 && |texts[1]| == 31 && |texts[2]| == 35 && |texts[3]| == 24;
    ChosenTexts(Contradicts(s, Email), Contradicts(s, PrestashopCustomerId),
                Contradicts(s, OrderId) || Contradicts(s, InvoiceNumber),
                exists i, j :: 0 <= i < j < |s| && IsAmbiguous(s[i]) && IsAmbiguous(s[j]), texts);
  }

  /** What the answer says beside the status: its confidence, and whether it asks for a review, follow from it. */
  lemma AnswerFollowsStatus(s: seq<Observation>, synthetic: Synthetic, settings: Settings)
    ensures var r := Resolve(s, synthetic, settings);
      && (r.needsReview <==> InConflict(s))
      && (r.confidence == Low <==> InConflict(s))
      && (r.confidence == High <==> settings.readOnly && !InConflict(s) && exists o <- s :: IsStrong(o))
      && (r.conflictReasons != [] <==> InConflict(s))
  {
    StatusIff(s, synthetic, settings);
  }

  /** Each status class by what was observed, what was asked for and what was allowed. */
  lemma StatusIff(s: seq<Observation>, synthetic: Synthetic, settings: Settings)
    ensures var status := StatusOf(s, synthetic, settings);
      var strong := exists o <- s :: IsStrong(o);
      var provisional := synthetic.observed || exists o <- s :: IsProvisional(o);
      && (status == ConflictNeedsReview <==> InConflict(s))
      && (status == NotEnoughIdentity <==> !InConflict(s) && !strong && !(settings.allowProvisional && provisional))
      && (status == SkippedReadOnly <==> !settings.readOnly && status !in {ConflictNeedsReview, NotEnoughIdentity})
      && (status == CreatedProvisional <==> settings.readOnly && !strong && settings.allowProvisional && provisional)
      && (status in {ResolvedExisting, LinkedIdentity} <==> settings.readOnly && strong && !InConflict(s))
  {
    AnyWith(IsStrong, s);
    AnyWith(IsProvisional, s);
  }

  lemma StatusOfStrong(s: seq<Observation>, synthetic: Synthetic, settings: Settings)
    requires settings.readOnly && !InConflict(s) && BucketsWith(IsStrong, Buckets(s)) != [] && Selected(s).Some?
    ensures Resolve(s, synthetic, settings).bucket == Selected(s)
    ensures Resolve(s, synthetic, settings).status == LinkedIdentity <==> |Selected(s).value.observations| > 1
  {
  }

  /** An identity is linked exactly when a second observation has the bucket key of the selected one. */
  lemma LinkedIff(s: seq<Observation>, synthetic: Synthetic, settings: Settings)
    requires settings.readOnly && !InConflict(s) && exists o <- s :: IsStrong(o)
    ensures var r := Resolve(s, synthetic, settings);
      && r.selected.Some?
      && (r.status == LinkedIdentity <==>
            exists i, j :: 0 <= i < j < |s| && BucketKey(s[i]) == BucketKey(s[j]) == BucketKey(r.selected.value))
  {
    AnyWith(IsStrong, s);
    EligibleByKey(s);
    SelectionIsMaximal(s, synthetic, settings);
    BestBucketIsEligible(s);
    StatusOfStrong(s, synthetic, settings);
    TwoInBucket(s, Selected(s).value.key);
  }

  lemma TwoInBucket(s: seq<Observation>, key: string)
    ensures |WithKey(s, key)| > 1 <==> exists i, j :: 0 <= i < j < |s| && BucketKey(s[i]) == BucketKey(s[j]) == key
  {
    TwoFiltered((o: Observation) => BucketKey(o) == key, s);
    if i, j :| 0 <= i < j < |s| && BucketKey(s[i]) == BucketKey(s[j]) == key {
      assert BucketKey(s[i]) == key && BucketKey(s[j]) == key;
    }
  }

  lemma BestBucketIsEligible(s: seq<Observation>)
    requires !InConflict(s) && Eligible(s) != []
    ensures Selected(s).Some? && Selected(s).value.observations == WithKey(s, Selected(s).value.key)
  {
    EligibleByKey(s);
    var i := BestBucketIsFirstBest(Eligible(s));
    assert Eligible(s)[i] in Eligible(s);
  }

  lemma AnyWith(p: Observation -> bool, s: seq<Observation>)
    ensures BucketsWith(p, Buckets(s)) != [] <==> exists o <- s :: p(o)
  {
    BucketsWithByKey(p, s);
    if o :| o in s && p(o) {
      assert BucketKey(o) in KeysWith(p, s);
    } else {
      assert KeysWith(p, s) == {};
    }
  }

  /**
   The no-merge rule says that with any reason present the answer is a conflict or not enough
   identity. The resolver keeps it exactly when two strong candidates compete, or none is strong
   and no provisional answer is allowed and available: the reasons alone decide nothing.
   */
  lemma NoMergeRuleIff(s: seq<Observation>, synthetic: Synthetic, settings: Settings)
    requires ConflictReasons(s) != []
    ensures var strong := exists o <- s :: IsStrong(o);
      var provisional := synthetic.observed || exists o <- s :: IsProvisional(o);
      StatusOf(s, synthetic, settings) in {ConflictNeedsReview, NotEnoughIdentity} <==>
        || (exists a, b :: a in s && b in s && IsStrong(a) && IsStrong(b) && BucketKey(a) != BucketKey(b))
        || (!strong && !(settings.allowProvisional && provisional))
  {
    StatusIff(s, synthetic, settings);
    CompetingIff(s);
  }

  /** The status up to the one distinction that can depend on order. */
  function StatusClass(status: Status): Status {
    if status == LinkedIdentity then ResolvedExisting else status
  }

  lemma ReasonsIgnoreOrder(a: seq<Observation>, b: seq<Observation>)
    requires multiset(a) == multiset(b)
    ensures ConflictReasons(a) == ConflictReasons(b)
  {
    forall t: IdentityType
      ensures |HighValues(a, t)| == |HighValues(b, t)|
    {
      HighValuesGrow(a, b, t);
      HighValuesGrow(b, a, t);
    }
    FilterSize(IsAmbiguous, a, b);
    FilterSize(IsAmbiguous, b, a);
  }

  lemma BucketCountsIgnoreOrder(a: seq<Observation>, b: seq<Observation>)
    requires multiset(a) == multiset(b)
    ensures |BucketsWith(IsStrong, Buckets(a))| == |BucketsWith(IsStrong, Buckets(b))|
    ensures |BucketsWith(IsProvisional, Buckets(a))| == |BucketsWith(IsProvisional, Buckets(b))|
  {
    BucketsGrow(IsStrong, a, b);
    BucketsGrow(IsStrong, b, a);
    BucketsGrow(IsProvisional, a, b);
    BucketsGrow(IsProvisional, b, a);
  }

  lemma ClassIgnoresOrder(a: seq<Observation>, b: seq<Observation>, synthetic: Synthetic, settings: Settings)
    requires multiset(a) == multiset(b)
    ensures InConflict(a) == InConflict(b)
    ensures StatusClass(StatusOf(a, synthetic, settings)) == StatusClass(StatusOf(b, synthetic, settings))
  {
    ReasonsIgnoreOrder(a, b);
    BucketCountsIgnoreOrder(a, b);
  }

  lemma RankIgnoresOrder(a: seq<Observation>, b: seq<Observation>, synthetic: Synthetic, settings: Settings)
    requires multiset(a) == multiset(b) && !InConflict(a) && !InConflict(b)
    ensures var r, q := Resolve(a, synthetic, settings).selected, Resolve(b, synthetic, settings).selected;
      (r.Some? <==> q.Some?) && (r.Some? ==> Rank(r.value) == Rank(q.value))
  {
    InLarger(a, b);
    InLarger(b, a);
    assert KeysWith(IsStrong, a) == KeysWith(IsStrong, b);
    assert KeysWith(IsProvisional, a) == KeysWith(IsProvisional, b);
    SelectionIsMaximal(a, synthetic, settings);
    SelectionIsMaximal(b, synthetic, settings);
  }

  lemma NothingSelected(s: seq<Observation>, synthetic: Synthetic, settings: Settings)
    requires InConflict(s)
    ensures Resolve(s, synthetic, settings).selected.None?
  {
  }

  /** The order of the observations does not change the reasons, the rank or the class. */
  lemma OrderChangesLittle(a: seq<Observation>, b: seq<Observation>, synthetic: Synthetic, settings: Settings)
    requires multiset(a) == multiset(b)
    ensures var r, q := Resolve(a, synthetic, settings), Resolve(b, synthetic, settings);
      && StatusClass(r.status) == StatusClass(q.status) && r.confidence == q.confidence
      && r.conflictReasons == q.conflictReasons
      && (r.selected.Some? <==> q.selected.Some?)
      && (r.selected.Some? ==> Rank(r.selected.value) == Rank(q.selected.value))
  {
    ResolveForm(a, synthetic, settings);
    ResolveForm(b, synthetic, settings);
    ReasonsIgnoreOrder(a, b);
    ClassIgnoresOrder(a, b, synthetic, settings);
    if InConflict(a) {
      NothingSelected(a, synthetic, settings);
      NothingSelected(b, synthetic, settings);
    } else {
      RankIgnoresOrder(a, b, synthetic, settings);
    }
  }

  // ----- when the order does matter

  /** The bucket of `key` is eligible and holds an observation that no eligible bucket beats. */
  ghost predicate Best(s: seq<Observation>, key: string) {
    exists o <- s :: BucketKey(o) == key && key in EligibleKeys(s)
      && forall x <- s :: BucketKey(x) in EligibleKeys(s) ==> Rank(x) <= Rank(o)
  }

  /** Strong buckets that tie for the highest rank are all of one observation, or all of several. */
  ghost predicate TiesAgree(s: seq<Observation>) {
    forall k1, k2 :: Best(s, k1) && Best(s, k2) ==> (|WithKey(s, k1)| > 1 <==> |WithKey(s, k2)| > 1)
  }

  /** Some observation of bucket `a` stands before all of bucket `b`. */
  ghost predicate SeenBefore(s: seq<Observation>, a: string, b: string) {
    exists m :: 0 <= m < |s| && BucketKey(s[m]) == a && forall j :: 0 <= j <= m ==> BucketKey(s[j]) != b
  }

  /** The order of the bucket keys is that of their first observations. */
  lemma SeenBeforeInMore(front: seq<Observation>, last: Observation, a: string, b: string)
    requires SeenBefore(front, a, b)
    ensures SeenBefore(front + [last], a, b)
  {
    var s := front + [last];
    var m :| 0 <= m < |front| && BucketKey(front[m]) == a && forall k :: 0 <= k <= m ==> BucketKey(front[k]) != b;
    assert BucketKey(s[m]) == a && forall k :: 0 <= k <= m ==> s[k] == front[k];
  }

  lemma SeenBeforeUnseen(s: seq<Observation>, a: string, b: string)
    requires a in BucketKeys(s) && b !in BucketKeys(s)
    ensures SeenBefore(s, a, b)
  {
    KeysOfBuckets(s);
    var o :| o in s && BucketKey(o) == a;
    var m :| 0 <= m < |s| && s[m] == o;
    assert forall k :: 0 <= k <= m ==> s[k] in s;
    assert BucketKey(s[m]) == a;
  }

  lemma {:induction false} BucketKeysInOrder(s: seq<Observation>, i: nat, j: nat)
    requires i < j < |BucketKeys(s)|
    ensures SeenBefore(s, BucketKeys(s)[i], BucketKeys(s)[j])
  {
    var front, last := s[..|s| - 1], s[|s| - 1];
    assert front + [last] == s;
    if j < |BucketKeys(front)| {
      BucketKeysInOrder(front, i, j);
    } else {
      SeenBeforeUnseen(front, BucketKeys(front)[i], BucketKey(last));
    }
    SeenBeforeInMore(front, last, BucketKeys(s)[i], BucketKeys(s)[j]);
  }

  lemma {:induction false} FilterInOrder<A(!new)>(p: A -> bool, s: seq<A>, i: nat, j: nat) returns (i': nat, j': nat)
    requires i < j < |Filter(p, s)|
    ensures i' < j' < |s| && s[i'] == Filter(p, s)[i] && s[j'] == Filter(p, s)[j]
  {
    var front := s[..|s| - 1];
    if j < |Filter(p, front)| {
      i', j' := FilterInOrder(p, front, i, j);
    } else {
      assert Filter(p, front)[i] in Filter(p, front);
      i' :| 0 <= i' < |front| && front[i'] == Filter(p, front)[i];
      j' := |s| - 1;
    }
  }

  /** The eligible keys, in the order of their buckets. */
  ghost function OrderedEligible(s: seq<Observation>): seq<string> {
    if KeysWith(IsStrong, s) != {} then OrderedKeysWith(IsStrong, s) else OrderedKeysWith(IsProvisional, s)
  }

  lemma EligibleInOrder(s: seq<Observation>)
    ensures Eligible(s) == Map((key: string) => Bucket(key, WithKey(s, key)), OrderedEligible(s))
    ensures forall key :: key in OrderedEligible(s) <==> key in EligibleKeys(s)
  {
    BucketsWithByKey(IsStrong, s);
    BucketsWithAsMap(IsStrong, s);
    BucketsWithAsMap(IsProvisional, s);
    OrderedKeysAreKeys(IsStrong, s);
    OrderedKeysAreKeys(IsProvisional, s);
  }

  lemma OrderedSeenBefore(p: Observation -> bool, s: seq<Observation>, i: nat, j: nat)
    requires i < j < |OrderedKeysWith(p, s)|
    ensures SeenBefore(s, OrderedKeysWith(p, s)[i], OrderedKeysWith(p, s)[j])
  {
    var i', j' := FilterInOrder((key: string) => exists o <- WithKey(s, key) :: p(o), BucketKeys(s), i, j);
    BucketKeysInOrder(s, i', j');
  }

  lemma EligibleSeenBefore(s: seq<Observation>, i: nat, j: nat)
    requires i < j < |OrderedEligible(s)|
    ensures SeenBefore(s, OrderedEligible(s)[i], OrderedEligible(s)[j])
  {
    if KeysWith(IsStrong, s) != {} {
      OrderedSeenBefore(IsStrong, s, i, j);
    } else {
      OrderedSeenBefore(IsProvisional, s, i, j);
    }
  }

  lemma BestBucketIsBest(s: seq<Observation>, key: string)
    requires Best(s, key)
    ensures forall c <- Eligible(s) :: BestRank(c) <= BestRank(Bucket(key, WithKey(s, key)))
  {
    EligibleByKey(s);
    var o :| o in s && BucketKey(o) == key
      && forall x <- s :: BucketKey(x) in EligibleKeys(s) ==> Rank(x) <= Rank(o);
    assert o in WithKey(s, key);
    BestRankBounds(Bucket(key, WithKey(s, key)));
    forall c | c in Eligible(s)
      ensures BestRank(c) <= Rank(o)
    {
      EligibleNonempty(s, c);
      BestRankBounds(c);
    }
  }

  lemma SelectedIsBest(s: seq<Observation>)
    requires !InConflict(s) && EligibleKeys(s) != {}
    ensures Selected(s).Some? && Best(s, Selected(s).value.key)
    ensures Selected(s).value.observations == WithKey(s, Selected(s).value.key)
  {
    SelectionIsMaximal(s, Synthetic(false, None), Settings(true, true));
    EligibleByKey(s);
    var i := BestBucketIsFirstBest(Eligible(s));
    assert Eligible(s)[i] in Eligible(s);
  }

  /** A bucket that no other outranks does not stand before the best bucket. */
  lemma FirstOfTheBest(buckets: seq<Bucket>, j: nat) returns (i: nat)
    requires j < |buckets| && forall c <- buckets :: BestRank(c) <= BestRank(buckets[j])
    ensures i <= j && BestBucket(buckets) == Some(buckets[i])
  {
    i := BestBucketIsFirstBest(buckets);
    assert buckets[i] in buckets;
  }

  lemma EligibleSeenFirst(s: seq<Observation>, i: nat, j: nat, a: string, b: string)
    requires i <= j < |OrderedEligible(s)| && OrderedEligible(s)[i] == a && OrderedEligible(s)[j] == b
    ensures a == b || SeenBefore(s, a, b)
  {
    if i < j {
      EligibleSeenBefore(s, i, j);
    }
  }

  /** Of the best buckets the one seen first is selected. */
  lemma SelectedIsFirstBest(s: seq<Observation>, key: string)
    requires !InConflict(s) && Best(s, key)
    ensures Selected(s).Some? && (Selected(s).value.key == key || SeenBefore(s, Selected(s).value.key, key))
  {
    EligibleInOrder(s);
    BestBucketIsBest(s, key);
    var j :| 0 <= j < |OrderedEligible(s)| && OrderedEligible(s)[j] == key;
    var i := FirstOfTheBest(Eligible(s), j);
    EligibleSeenFirst(s, i, j, OrderedEligible(s)[i], key);
  }

  /** A best bucket whose observations come first is the one selected. */
  lemma BestInFrontIsSelected(s: seq<Observation>, key: string)
    requires !InConflict(s) && Best(s, key) && s != [] && BucketKey(s[0]) == key
    ensures Selected(s) == Some(Bucket(key, WithKey(s, key)))
  {
    SelectedIsFirstBest(s, key);
    SelectedIsBest(s);
  }

  /** The observations of one bucket moved to the front. */
  ghost function MovedUp(s: seq<Observation>, key: string): seq<Observation> {
    WithKey(s, key) + Filter((o: Observation) => BucketKey(o) != key, s)
  }

  lemma MovedUpIsPermutation(s: seq<Observation>, key: string)
    ensures multiset(MovedUp(s, key)) == multiset(s)
  {
    forall o
      ensures multiset(MovedUp(s, key))[o] == multiset(s)[o]
    {
      FilterMultiset((x: Observation) => BucketKey(x) == key, s, o);
      FilterMultiset((x: Observation) => BucketKey(x) != key, s, o);
    }
  }

  lemma BestIgnoresOrder(a: seq<Observation>, b: seq<Observation>, key: string)
    requires multiset(a) == multiset(b)
    ensures Best(a, key) <==> Best(b, key)
    ensures EligibleKeys(a) == EligibleKeys(b)
    ensures |WithKey(a, key)| == |WithKey(b, key)|
  {
    InLarger(a, b);
    InLarger(b, a);
    assert KeysWith(IsStrong, a) == KeysWith(IsStrong, b);
    assert KeysWith(IsProvisional, a) == KeysWith(IsProvisional, b);
    FilterSize((o: Observation) => BucketKey(o) == key, a, b);
    FilterSize((o: Observation) => BucketKey(o) == key, b, a);
  }

  /** A best bucket can be made the selected one by reordering. */
  lemma BestCanBeSelected(s: seq<Observation>, key: string)
    requires !InConflict(s) && Best(s, key)
    ensures var t := MovedUp(s, key);
      && multiset(t) == multiset(s) && !InConflict(t)
      && Selected(t) == Some(Bucket(key, WithKey(t, key))) && |WithKey(t, key)| == |WithKey(s, key)|
  {
    var t := MovedUp(s, key);
    MovedUpIsPermutation(s, key);
    ClassIgnoresOrder(s, t, Synthetic(false, None), Settings(true, true));
    BestIgnoresOrder(s, t, key);
    var o :| o in s && BucketKey(o) == key;
    assert o in WithKey(s, key);
    assert WithKey(s, key)[0] in WithKey(s, key);
    BestInFrontIsSelected(t, key);
  }

  /** The status that the selected bucket decides. */
  lemma SelectedDecides(s: seq<Observation>, synthetic: Synthetic, settings: Settings)
    requires !InConflict(s) && settings.readOnly && KeysWith(IsStrong, s) != {} && Selected(s).Some?
    ensures StatusOf(s, synthetic, settings)
      == if |Selected(s).value.observations| > 1 then LinkedIdentity else ResolvedExisting
  {
    BucketsWithByKey(IsStrong, s);
  }

  lemma BestCanDecide(s: seq<Observation>, key: string, synthetic: Synthetic, settings: Settings)
    requires !InConflict(s) && settings.readOnly && KeysWith(IsStrong, s) != {} && Best(s, key)
    ensures StatusOf(MovedUp(s, key), synthetic, settings)
      == if |WithKey(s, key)| > 1 then LinkedIdentity else ResolvedExisting
  {
    var t := MovedUp(s, key);
    BestCanBeSelected(s, key);
    InLarger(s, t);
    InLarger(t, s);
    assert KeysWith(IsStrong, s) == KeysWith(IsStrong, t);
    SelectedDecides(t, synthetic, settings);
  }

  /**
   The exact condition: the customer named is the same for every order of the observations exactly
   when there is a conflict, or no two buckets tie for the highest rank among the eligible ones.
   */
  lemma CustomerIgnoresOrderIff(s: seq<Observation>, synthetic: Synthetic, settings: Settings)
    ensures (forall t | multiset(t) == multiset(s) ::
               Resolve(t, synthetic, settings).customerKey == Resolve(s, synthetic, settings).customerKey)
      <==> InConflict(s) || forall k1, k2 :: Best(s, k1) && Best(s, k2) ==> k1 == k2
  {
    if InConflict(s) || forall k1, k2 :: Best(s, k1) && Best(s, k2) ==> k1 == k2 {
      forall t | multiset(t) == multiset(s)
        ensures Resolve(t, synthetic, settings).customerKey == Resolve(s, synthetic, settings).customerKey
      {
        OneBestIsNamed(s, t, synthetic, settings);
      }
    } else {
      var k1, k2 :| Best(s, k1) && Best(s, k2) && k1 != k2;
      NamedWhenMovedUp(s, k1, synthetic, settings);
      NamedWhenMovedUp(s, k2, synthetic, settings);
    }
  }

  /** The key in the answer. */
  lemma NamedCustomer(s: seq<Observation>, synthetic: Synthetic, settings: Settings)
    ensures Resolve(s, synthetic, settings).customerKey
      == if InConflict(s) then None else if EligibleKeys(s) == {} then synthetic.key else KeyOf(Selected(s))
    ensures !InConflict(s) && EligibleKeys(s) != {} ==> Selected(s).Some? && Best(s, Selected(s).value.key)
  {
    ResolveForm(s, synthetic, settings);
    if !InConflict(s) {
      SelectionIsMaximal(s, synthetic, settings);
      if EligibleKeys(s) != {} {
        SelectedIsBest(s);
      }
    }
  }

  lemma NamedWhenMovedUp(s: seq<Observation>, key: string, synthetic: Synthetic, settings: Settings)
    requires !InConflict(s) && Best(s, key)
    ensures multiset(MovedUp(s, key)) == multiset(s)
    ensures Resolve(MovedUp(s, key), synthetic, settings).customerKey == Some(key)
  {
    BestCanBeSelected(s, key);
    BestIgnoresOrder(s, MovedUp(s, key), key);
    NamedCustomer(MovedUp(s, key), synthetic, settings);
  }

  lemma OneBestIsNamed(s: seq<Observation>, t: seq<Observation>, synthetic: Synthetic, settings: Settings)
    requires multiset(t) == multiset(s)
    requires InConflict(s) || forall k1, k2 :: Best(s, k1) && Best(s, k2) ==> k1 == k2
    ensures Resolve(t, synthetic, settings).customerKey == Resolve(s, synthetic, settings).customerKey
  {
    ClassIgnoresOrder(s, t, synthetic, settings);
    NamedCustomer(s, synthetic, settings);
    NamedCustomer(t, synthetic, settings);
    BestIgnoresOrder(s, t, "");
    if !InConflict(s) && EligibleKeys(s) != {} {
      BestIgnoresOrder(s, t, Selected(t).value.key);
    }
  }

  /**
   The exact condition: the status is the same for every order of the observations exactly when
   it cannot be `resolved_existing` or `linked_identity` at all, or the strong buckets that tie
   for the highest rank agree on holding more than one observation.
   */
  lemma StatusIgnoresOrderIff(s: seq<Observation>, synthetic: Synthetic, settings: Settings)
    ensures (forall t | multiset(t) == multiset(s) ::
               StatusOf(t, synthetic, settings) == StatusOf(s, synthetic, settings))
      <==> InConflict(s) || !settings.readOnly || KeysWith(IsStrong, s) == {} || TiesAgree(s)
  {
    BucketsWithByKey(IsStrong, s);
    if InConflict(s) || !settings.readOnly || KeysWith(IsStrong, s) == {} {
      forall t | multiset(t) == multiset(s)
        ensures StatusOf(t, synthetic, settings) == StatusOf(s, synthetic, settings)
      {
        ClassIgnoresOrder(s, t, synthetic, settings);
        BucketCountsIgnoreOrder(s, t);
      }
    } else if TiesAgree(s) {
      forall t | multiset(t) == multiset(s)
        ensures StatusOf(t, synthetic, settings) == StatusOf(s, synthetic, settings)
      {
        TiesDecide(s, t, synthetic, settings);
      }
    } else {
      var k1, k2 :| Best(s, k1) && Best(s, k2) && |WithKey(s, k1)| > 1 && |WithKey(s, k2)| <= 1;
      BestCanDecide(s, k1, synthetic, settings);
      BestCanDecide(s, k2, synthetic, settings);
      MovedUpIsPermutation(s, k1);
      MovedUpIsPermutation(s, k2);
    }
  }

  lemma TiesDecide(s: seq<Observation>, t: seq<Observation>, synthetic: Synthetic, settings: Settings)
    requires multiset(t) == multiset(s) && !InConflict(s) && KeysWith(IsStrong, s) != {} && TiesAgree(s)
    ensures StatusOf(t, synthetic, settings) == StatusOf(s, synthetic, settings)
  {
    ClassIgnoresOrder(s, t, synthetic, settings);
    BucketCountsIgnoreOrder(s, t);
    InLarger(s, t);
    InLarger(t, s);
    assert KeysWith(IsStrong, s) == KeysWith(IsStrong, t);
    SelectedIsBest(s);
    SelectedIsBest(t);
    BestIgnoresOrder(s, t, Selected(t).value.key);
    BucketsWithByKey(IsStrong, s);
  }

  // ----- the customer the answer points to

  /** The candidate ids are the bucket keys and the request's own key, each once; no other key is reported. */
  lemma CandidateIdsContents(s: seq<Observation>, synthetic: Synthetic)
    ensures Distinct(CandidateIds(s, synthetic))
    ensures forall id :: id in CandidateIds(s, synthetic) <==>
      id != "" && (synthetic.key == Some(id) || exists o <- s :: BucketKey(o) == id)
  {
    var keys := Map((b: Bucket) => Some(b.key), Buckets(s));
    UniqueStringsContents(keys + [synthetic.key]);
    KeysOfBuckets(s);
    forall id: string
      ensures Some(id) in keys <==> exists o <- s :: BucketKey(o) == id
    {
      if id in BucketKeys(s) {
        var i :| 0 <= i < |BucketKeys(s)| && BucketKeys(s)[i] == id;
        assert keys[i] == Some(id);
      }
      if Some(id) in keys {
        var i :| 0 <= i < |keys| && keys[i] == Some(id);
        assert BucketKeys(s)[i] == id;
      }
    }
  }

  /** Text `a` is listed before all places of text `b`. */
  ghost predicate ListedBefore(values: seq<Option<string>>, a: string, b: string) {
    exists m :: 0 <= m < |values| && values[m] == Some(a) && forall k :: 0 <= k <= m ==> values[k] != Some(b)
  }

  lemma {:induction false} UniqueStringsInOrder(values: seq<Option<string>>, i: nat, j: nat)
    requires i < j < |UniqueStrings(values)|
    ensures ListedBefore(values, UniqueStrings(values)[i], UniqueStrings(values)[j])
  {
    var front, all := values[..|values| - 1], UniqueStrings(values);
    UniqueStringsContents(front);
    if j < |UniqueStrings(front)| {
      UniqueStringsInOrder(front, i, j);
      var m :| 0 <= m < |front| && front[m] == Some(all[i]) && forall k :: 0 <= k <= m ==> front[k] != Some(all[j]);
      assert values[m] == Some(all[i]) && forall k :: 0 <= k <= m ==> values[k] == front[k];
    } else {
      assert all[i] in UniqueStrings(front);
      var m :| 0 <= m < |front| && front[m] == Some(all[i]);
      assert forall k :: 0 <= k <= m ==> values[k] == front[k] && front[k] in front;
      assert values[m] == Some(all[i]);
    }
  }

  /** The candidates are listed in the order in which they were observed, the request's own key at the end. */
  lemma CandidatesInOrder(s: seq<Observation>, synthetic: Synthetic, i: nat, j: nat)
    requires i < j < |CandidateIds(s, synthetic)|
    ensures var ids := CandidateIds(s, synthetic); SeenBefore(s, ids[i], ids[j])
  {
    var ids, values := CandidateIds(s, synthetic), Map((b: Bucket) => Some(b.key), Buckets(s)) + [synthetic.key];
    UniqueStringsContents(values);
    UniqueStringsInOrder(values, i, j);
    var m :| 0 <= m < |values| && values[m] == Some(ids[i]) && forall k :: 0 <= k <= m ==> values[k] != Some(ids[j]);
    KeysOfBuckets(s);
    assert ids[j] in ids && Some(ids[j]) in values;
    var key, other := BucketKeys(s)[m], ids[j];
    if other in BucketKeys(s) {
      var n :| 0 <= n < |BucketKeys(s)| && BucketKeys(s)[n] == other;
      assert values[n] == Some(other);
      BucketKeysInOrder(s, m, n);
    } else {
      SeenBeforeUnseen(s, key, other);
    }
  }

  /**
   The customer named in the answer is one of the candidates; a conflict names none, although at
   least two are at hand. Without a conflict none is named only if the request has no key and
   nothing was observed but what neither a strong nor a provisional identity supports.
   */
  lemma CustomerIsCandidate(s: seq<Observation>, synthetic: Synthetic, settings: Settings)
    ensures var r := Resolve(s, synthetic, settings);
      && (r.customerKey.Some? && r.customerKey.value != "" ==> r.customerKey.value in r.candidateCustomerIds)
      && (r.status == ConflictNeedsReview ==>
            && r.customerKey.None?
            && exists a, b :: a in s && b in s && BucketKey(a) != BucketKey(b))
      && (r.customerKey.None? <==> InConflict(s) || (EligibleKeys(s) == {} && synthetic.key.None?))
  {
    CandidateIdsContents(s, synthetic);
    StatusIff(s, synthetic, settings);
    if InConflict(s) {
      CompetingIff(s);
    } else {
      SelectionIsMaximal(s, synthetic, settings);
    }
  }
}
