/** Customer source observations: their keys, their ranks, deduplication and bucketing. */
module Observations {
  import opened Options
  import opened Sequences

  datatype IdentityType =
    | CustomerMasterId | Email | WaId | Phone | PrestashopCustomerId | OrderId | InvoiceNumber | Rut
    | AppsheetCustomerId

  datatype Source = Brain | Whatsapp | N8n | Prestashop | Mariadb | Appsheet | HubOperator | Import | Unknown

  datatype Confidence = High | Medium | Low

  datatype Observation = Observation(
    source: Source,
    table: string,
    sourceRecordId: Option<string>,
    matchedBy: string,
    identityType: Option<IdentityType>,
    identityValue: Option<string>,
    confidence: Confidence,
    customerKey: Option<string>)

  function TypeName(t: IdentityType): string {
    match t
    case CustomerMasterId => "customer_master_id"
    case Email => "email"
    case WaId => "wa_id"
    case Phone => "phone"
    case PrestashopCustomerId => "prestashop_customer_id"
    case OrderId => "order_id"
    case InvoiceNumber => "invoice_number"
    case Rut => "rut"
    case AppsheetCustomerId => "appsheet_customer_id"
  }

  function SourceName(s: Source): string {
    match s
    case Brain => "brain"
    case Whatsapp => "whatsapp"
    case N8n => "n8n"
    case Prestashop => "prestashop"
    case Mariadb => "mariadb"
    case Appsheet => "appsheet"
    case HubOperator => "hub_operator"
    case Import => "import"
    case Unknown => "unknown"
  }

  function Join(parts: seq<string>, separator: string): string {
    if parts == [] then ""
    else if |parts| == 1 then parts[0]
    else parts[0] + separator + Join(parts[1..], separator)
  }

  function ObservationKey(o: Observation): string {
    Join([SourceName(o.source), o.table, o.sourceRecordId.GetOr(""), o.matchedBy,
          if o.identityType.Some? then TypeName(o.identityType.value) else "",
          o.identityValue.GetOr(""), o.customerKey.GetOr("")], "|")
  }

  function BucketKey(o: Observation): string {
    o.customerKey.GetOr(Join([SourceName(o.source), o.table, o.sourceRecordId.GetOr(""), o.matchedBy], ":"))
  }

  /** The bucket is the customer's, or one for the record and the way it matched. */
  lemma BucketKeyParts(o: Observation)
    ensures BucketKey(o) ==
      if o.customerKey.Some? then o.customerKey.value
      else SourceName(o.source) + ":" + (o.table + ":" + (o.sourceRecordId.GetOr("") + ":" + o.matchedBy))
  {
    var parts := [SourceName(o.source), o.table, o.sourceRecordId.GetOr(""), o.matchedBy];
    assert parts[1..] == [parts[1], parts[2], parts[3]] && parts[1..][1..] == [parts[2], parts[3]];
    assert [parts[2], parts[3]][1..] == [parts[3]];
    assert Join(parts[1..], ":") == parts[1] + ":" + Join([parts[2], parts[3]], ":");
  }

  // ----- rank

  const PRECEDENCE: seq<IdentityType> :=
    [CustomerMasterId, PrestashopCustomerId, Email, OrderId, InvoiceNumber, Phone, WaId]

  function RankConfidence(c: Confidence): nat {
    match c
    case High => 3
    case Medium => 2
    case Low => 1
  }

  function IndexOf(types: seq<IdentityType>, t: IdentityType): (i: nat)
    ensures i <= |types|
    ensures i < |types| ==> types[i] == t
    ensures forall j :: 0 <= j < i ==> types[j] != t
  {
    if types == [] || types[0] == t then 0 else 1 + IndexOf(types[1..], t)
  }

  /** Zero for no type and for a type outside the precedence list. */
  function RankIdentityType(t: Option<IdentityType>): nat {
    match t
    case None => 0
    case Some(known) => |PRECEDENCE| - IndexOf(PRECEDENCE, known)
  }

  function RankSource(s: Source): nat {
    match s
    case Prestashop => 5
    case HubOperator => 4
    case Whatsapp | Brain | Mariadb => 3
    case N8n | Import => 2
    case Appsheet => 1
    case Unknown => 0
  }

  function Rank(o: Observation): nat {
    RankConfidence(o.confidence) * 100 + RankIdentityType(o.identityType) * 10 + RankSource(o.source)
  }

  lemma IndexOfFirst(types: seq<IdentityType>, i: nat)
    requires i < |types| && forall j :: 0 <= j < i ==> types[j] != types[i]
    ensures IndexOf(types, types[i]) == i
  {
  }

  lemma IndexOfMissing(types: seq<IdentityType>, t: IdentityType)
    requires forall j :: 0 <= j < |types| ==> types[j] != t
    ensures IndexOf(types, t) == |types|
  {
  }

  /** The type at place `i` of the precedence list ranks `7 - i`; the two types outside it rank like no type at all. */
  lemma TypeRanks(i: nat)
    requires i < 7
    ensures |PRECEDENCE| == 7 && RankIdentityType(Some(PRECEDENCE[i])) == 7 - i
    ensures RankIdentityType(Some(Rut)) == RankIdentityType(Some(AppsheetCustomerId)) == RankIdentityType(None) == 0
  {
    IndexOfFirst(PRECEDENCE, i);
    IndexOfMissing(PRECEDENCE, Rut);
    IndexOfMissing(PRECEDENCE, AppsheetCustomerId);
  }

  /** High before medium before low. */
  ghost predicate MoreCertain(a: Confidence, b: Confidence) {
    (a == High && b != High) || (a == Medium && b == Low)
  }

  /** The documented order of identity types; no type, RUT and AppSheet id all come last. */
  ghost predicate EarlierType(a: Option<IdentityType>, b: Option<IdentityType>) {
    match a
    case Some(CustomerMasterId) => b != Some(CustomerMasterId)
    case Some(PrestashopCustomerId) => b !in {Some(CustomerMasterId), Some(PrestashopCustomerId)}
    case Some(Email) =>
      b in {Some(OrderId), Some(InvoiceNumber), Some(Phone), Some(WaId), Some(Rut), Some(AppsheetCustomerId), None}
    case Some(OrderId) =>
      b in {Some(InvoiceNumber), Some(Phone), Some(WaId), Some(Rut), Some(AppsheetCustomerId), None}
    case Some(InvoiceNumber) => b in {Some(Phone), Some(WaId), Some(Rut), Some(AppsheetCustomerId), None}
    case Some(Phone) => b in {Some(WaId), Some(Rut), Some(AppsheetCustomerId), None}
    case Some(WaId) => b in {Some(Rut), Some(AppsheetCustomerId), None}
    case _ => false
  }

  /** PrestaShop, the hub's operators, the three live systems, the two secondary ones, AppSheet, anything else. */
  ghost predicate BetterSource(a: Source, b: Source) {
    match a
    case Prestashop => b != Prestashop
    case HubOperator => b !in {Prestashop, HubOperator}
    case Whatsapp | Brain | Mariadb => b in {N8n, Import, Appsheet, Unknown}
    case N8n | Import => b in {Appsheet, Unknown}
    case Appsheet => b == Unknown
    case Unknown => false
  }

  /** Better confidence; at equal confidence an earlier type; if neither type is earlier, a better source. */
  ghost predicate Better(a: Observation, b: Observation) {
    || MoreCertain(a.confidence, b.confidence)
    || (a.confidence == b.confidence
        && (|| EarlierType(a.identityType, b.identityType)
            || (!EarlierType(b.identityType, a.identityType) && BetterSource(a.source, b.source))))
  }

  lemma ConfidenceRanks(a: Confidence, b: Confidence)
    ensures RankConfidence(a) > RankConfidence(b) <==> MoreCertain(a, b)
  {
  }

  lemma SourceRanks(a: Source, b: Source)
    ensures RankSource(a) > RankSource(b) <==> BetterSource(a, b)
  {
  }

  /** Seven for the first type in the documented order, one for the last, and zero for everything else. */
  ghost function TypeGrade(t: Option<IdentityType>): nat {
    match t
    case Some(CustomerMasterId) => 7
    case Some(PrestashopCustomerId) => 6
    case Some(Email) => 5
    case Some(OrderId) => 4
    case Some(InvoiceNumber) => 3
    case Some(Phone) => 2
    case Some(WaId) => 1
    case _ => 0
  }

  lemma TypeRank(t: Option<IdentityType>)
    ensures RankIdentityType(t) == TypeGrade(t)
  {
    TypeRanks(if TypeGrade(t) == 0 then 6 else 7 - TypeGrade(t));
  }

  lemma GradeOrder(a: Option<IdentityType>, b: Option<IdentityType>)
    ensures TypeGrade(a) > TypeGrade(b) <==> EarlierType(a, b)
  {
  }

  lemma TypeOrder(a: Option<IdentityType>, b: Option<IdentityType>)
    ensures RankIdentityType(a) > RankIdentityType(b) <==> EarlierType(a, b)
    ensures RankIdentityType(a) <= 7
  {
    TypeRank(a);
    TypeRank(b);
    GradeOrder(a, b);
  }

  /** The rank sum encodes the documented order exactly: confidence first, then type, then source. */
  lemma RankIsLexicographic(a: Observation, b: Observation)
    ensures Rank(a) > Rank(b) <==> Better(a, b)
    ensures Rank(a) < Rank(b) <==>
      || RankConfidence(a.confidence) < RankConfidence(b.confidence)
      || (a.confidence == b.confidence && RankIdentityType(a.identityType) < RankIdentityType(b.identityType))
      || (a.confidence == b.confidence && RankIdentityType(a.identityType) == RankIdentityType(b.identityType)
          && RankSource(a.source) < RankSource(b.source))
  {
    ConfidenceRanks(a.confidence, b.confidence);
    ConfidenceRanks(b.confidence, a.confidence);
    TypeOrder(a.identityType, b.identityType);
    TypeOrder(b.identityType, a.identityType);
    SourceRanks(a.source, b.source);
  }

  predicate IsStrongType(t: IdentityType) {
    t in {CustomerMasterId, PrestashopCustomerId, Email, OrderId, InvoiceNumber}
  }

  predicate IsStrong(o: Observation) {
    o.source == Prestashop && o.confidence == High && o.identityType.Some? && IsStrongType(o.identityType.value)
  }

  predicate IsProvisional(o: Observation) {
    o.identityType.Some? && o.identityType.value in {WaId, Phone, Rut, AppsheetCustomerId}
  }

  /** Strong and provisional types are told apart by the phone's place in the order of types. */
  lemma KindsByOrder(o: Observation)
    ensures IsStrong(o)
      <==> o.source == Prestashop && o.confidence == High && EarlierType(o.identityType, Some(Phone))
    ensures IsProvisional(o) <==> o.identityType.Some? && !EarlierType(o.identityType, Some(Phone))
  {
  }

  /** Nothing outranks a strong observation but high-confidence observations of a strong type. */
  lemma StrongFloor(strong: Observation, o: Observation)
    requires IsStrong(strong) && Rank(o) >= Rank(strong)
    ensures o.confidence == High && o.identityType.Some? && IsStrongType(o.identityType.value)
  {
    StrongTypesComeFirst(strong.identityType.value);
    if o.identityType.Some? {
      StrongTypesComeFirst(o.identityType.value);
    }
    RankIsLexicographic(o, strong);
    assert RankIdentityType(o.identityType) >= RankIdentityType(strong.identityType) >= 3;
  }

  lemma StrongTypesComeFirst(t: IdentityType)
    ensures RankIdentityType(Some(t)) >= 3 <==> IsStrongType(t)
    ensures RankIdentityType(Some(t)) <= 7
  {
    TypeRanks(0);
    TypeRanks(1);
    TypeRanks(2);
    TypeRanks(3);
    TypeRanks(4);
    TypeRanks(5);
    TypeRanks(6);
  }

  // ----- deduplication

  predicate HasKey(observations: seq<Observation>, key: string) {
    exists o <- observations :: ObservationKey(o) == key
  }

  /** The first observation of each key, in order. */
  function Dedupe(observations: seq<Observation>): (r: seq<Observation>) {
    if observations == [] then []
    else
      var front, last := Dedupe(observations[..|observations| - 1]), observations[|observations| - 1];
      if HasKey(front, ObservationKey(last)) then front else front + [last]
  }

  method DedupeObservations(observations: seq<Observation>) returns (result: seq<Observation>)
    ensures result == Dedupe(observations)
  {
    var seen: set<string> := {};
    result := [];
    for k := 0 to |observations|
      invariant result == Dedupe(observations[..k])
      invariant seen == set o <- result :: ObservationKey(o)
    {
      assert observations[..k + 1][..k] == observations[..k];
      var key := ObservationKey(observations[k]);
      if key in seen {
        continue;
      }
      seen := seen + {key};
      result := result + [observations[k]];
    }
    assert observations[..|observations|] == observations;
  }

  ghost predicate DistinctKeys(observations: seq<Observation>) {
    forall i, j :: 0 <= i < j < |observations| ==> ObservationKey(observations[i]) != ObservationKey(observations[j])
  }

  /** The first observation with the given key. */
  function FirstWith(observations: seq<Observation>, key: string): Option<Observation> {
    if observations == [] then None
    else if ObservationKey(observations[0]) == key then Some(observations[0])
    else FirstWith(observations[1..], key)
  }

  lemma {:induction false} FirstWithAppend(a: seq<Observation>, b: seq<Observation>, key: string)
    ensures FirstWith(a + b, key) == FirstWith(a, key).OrElse(FirstWith(b, key))
    ensures FirstWith(a, key).Some? <==> HasKey(a, key)
  {
    if a == [] {
      assert a + b == b;
    } else {
      assert (a + b)[1..] == a[1..] + b;
      FirstWithAppend(a[1..], b, key);
      assert forall o :: o in a <==> o == a[0] || o in a[1..];
    }
  }

  lemma {:induction false} FirstStandsFirst(s: seq<Observation>, key: string) returns (m: nat)
    requires FirstWith(s, key).Some?
    ensures m < |s| && FirstWith(s, key) == Some(s[m]) && ObservationKey(s[m]) == key
    ensures forall j :: 0 <= j < m ==> ObservationKey(s[j]) != key
  {
    if ObservationKey(s[0]) == key {
      m := 0;
    } else {
      m := FirstStandsFirst(s[1..], key);
      m := m + 1;
    }
  }

  lemma DedupeStep(s: seq<Observation>, o: Observation)
    ensures Dedupe(s + [o]) == if HasKey(Dedupe(s), ObservationKey(o)) then Dedupe(s) else Dedupe(s) + [o]
  {
  }

  lemma {:induction false} DedupeIsDistinct(s: seq<Observation>)
    ensures DistinctKeys(Dedupe(s))
    ensures forall o <- Dedupe(s) :: o in s
  {
    if s != [] {
      SplitLast(s);
      DedupeIsDistinct(s[..|s| - 1]);
      assert forall o <- s[..|s| - 1] :: o in s;
    }
  }

  /** Every key keeps its first observation: with `DedupeIsDistinct`, that one and no other. */
  lemma {:induction false} DedupeKeepsFirsts(s: seq<Observation>, key: string)
    ensures FirstWith(Dedupe(s), key) == FirstWith(s, key)
  {
    if s != [] {
      var front, last := s[..|s| - 1], s[|s| - 1];
      SplitLast(s);
      DedupeStep(front, last);
      DedupeKeepsFirsts(front, key);
      FirstWithAppend(front, [last], key);
      FirstWithAppend(Dedupe(front), [last], key);
    }
  }

  lemma {:induction false} DedupeOfDistinct(s: seq<Observation>)
    requires DistinctKeys(s)
    ensures Dedupe(s) == s
  {
    if s != [] {
      SplitLast(s);
      DedupeOfDistinct(s[..|s| - 1]);
    }
  }

  /** Deduplicating a prefix first changes nothing: stages can be added at will. */
  lemma {:induction false} DedupeInStages(a: seq<Observation>, b: seq<Observation>)
    ensures Dedupe(Dedupe(a) + b) == Dedupe(a + b)
  {
    if b == [] {
      DedupeIsDistinct(a);
      DedupeOfDistinct(Dedupe(a));
      assert Dedupe(a) + b == Dedupe(a) && a + b == a;
    } else {
      var front, last := b[..|b| - 1], b[|b| - 1];
      DedupeInStages(a, front);
      assert Dedupe(a) + b == Dedupe(a) + front + [last] && a + b == a + front + [last];
      DedupeStep(Dedupe(a) + front, last);
      DedupeStep(a + front, last);
    }
  }

  // ----- bucketing

  datatype Bucket = Bucket(key: string, observations: seq<Observation>)

  function WithKey(observations: seq<Observation>, key: string): seq<Observation> {
    Filter((o: Observation) => BucketKey(o) == key, observations)
  }

  /** The bucket keys in the order of their first observation. */
  function BucketKeys(observations: seq<Observation>): seq<string> {
    if observations == [] then []
    else
      var front, key := BucketKeys(observations[..|observations| - 1]), BucketKey(observations[|observations| - 1]);
      if key in front then front else front + [key]
  }

  /** One bucket a key, holding exactly the observations with that key, in order. */
  function Buckets(observations: seq<Observation>): seq<Bucket> {
    Map((key: string) => Bucket(key, WithKey(observations, key)), BucketKeys(observations))
  }

  /** The JavaScript map is kept as its keys in insertion order and their buckets. */
  method BucketObservations(observations: seq<Observation>) returns (buckets: seq<Bucket>)
    ensures buckets == Buckets(observations)
  {
    var order: seq<string> := [];
    var byKey: map<string, Bucket> := map[];
    for k := 0 to |observations|
      invariant order == BucketKeys(observations[..k])
      invariant forall key :: key in byKey <==> key in order
      invariant forall key <- byKey :: byKey[key] == Bucket(key, WithKey(observations[..k], key))
    {
      var o := observations[k];
      var key := BucketKey(o);
      assert observations[..k + 1][..k] == observations[..k];
      WithNewKey(observations[..k], key);
      if key in byKey {
        byKey := byKey[key := byKey[key].(observations := byKey[key].observations + [o])];
      } else {
        order := order + [key];
        byKey := byKey[key := Bucket(key, [o])];
      }
    }
    assert observations[..|observations|] == observations;
    buckets := [];
    for k := 0 to |order|
      invariant |buckets| == k
      invariant forall j :: 0 <= j < k ==> buckets[j] == Bucket(order[j], WithKey(observations, order[j]))
    {
      assert order[k] in order;
      buckets := buckets + [byKey[order[k]]];
    }
  }

  lemma {:induction false} KeysOfBuckets(s: seq<Observation>)
    ensures Distinct(BucketKeys(s))
    ensures forall key :: key in BucketKeys(s) <==> exists o <- s :: BucketKey(o) == key
  {
    if s != [] {
      SplitLast(s);
      KeysOfBuckets(s[..|s| - 1]);
      assert s[|s| - 1] in s;
      assert forall o <- s[..|s| - 1] :: o in s;
    }
  }

  lemma WithNewKey(s: seq<Observation>, key: string)
    ensures key !in BucketKeys(s) ==> WithKey(s, key) == []
  {
    KeysOfBuckets(s);
    assert forall o <- WithKey(s, key) :: BucketKey(o) in BucketKeys(s);
    assert WithKey(s, key) != [] ==> WithKey(s, key)[0] in WithKey(s, key);
  }

  lemma MapLast<A, B>(f: A -> B, s: seq<A>)
    requires s != []
    ensures Map(f, s) == Map(f, s[..|s| - 1]) + [f(s[|s| - 1])]
  {
  }

  /** How often `o` occurs in the buckets of the given keys. */
  lemma {:induction false} CountInBuckets(s: seq<Observation>, keys: seq<string>, o: Observation)
    requires Distinct(keys)
    ensures multiset(Flatten(Map((key: string) => WithKey(s, key), keys)))[o]
      == if BucketKey(o) in keys then multiset(s)[o] else 0
  {
    var f := (key: string) => WithKey(s, key);
    if keys != [] {
      var front, last := keys[..|keys| - 1], keys[|keys| - 1];
      SplitLast(keys);
      CountInBuckets(s, front, o);
      MapLast(f, keys);
      assert Map(f, keys)[..|keys| - 1] == Map(f, front);
      FilterMultiset((x: Observation) => BucketKey(x) == last, s, o);
    }
  }

  /** Bucketing loses and invents nothing: the buckets laid end to end are a permutation of the input. */
  lemma BucketsPartition(s: seq<Observation>)
    ensures Distinct(BucketKeys(s))
    ensures multiset(Flatten(Map((b: Bucket) => b.observations, Buckets(s)))) == multiset(s)
    ensures forall b <- Buckets(s) :: b.observations != [] && forall o <- b.observations :: BucketKey(o) == b.key
  {
    KeysOfBuckets(s);
    var laid := Map((b: Bucket) => b.observations, Buckets(s));
    assert laid == Map((key: string) => WithKey(s, key), BucketKeys(s));
    forall o
      ensures multiset(Flatten(laid))[o] == multiset(s)[o]
    {
      CountInBuckets(s, BucketKeys(s), o);
    }
    forall b <- Buckets(s)
      ensures b.observations != [] && forall o <- b.observations :: BucketKey(o) == b.key
    {
      assert b.key in BucketKeys(s);
      var o :| o in s && BucketKey(o) == b.key;
      assert o in b.observations;
    }
  }
}
