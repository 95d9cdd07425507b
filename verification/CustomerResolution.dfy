/**
 `resolveCustomerCandidate` from the request and the rows of the database to its answer: what the
 readers can and cannot make of them, and what that leaves of conflicts and of the no-merge rule.
 */
module CustomerResolution {
  import opened Options
  import opened Sequences
  import opened Observations
  import opened Readers
  import opened Resolution

  function SyntheticOf(q: Request): Synthetic {
    Synthetic(SyntheticObservation(q).Some?, SyntheticKey(q))
  }

  /** Everything observed for the request, the readers' observations first. */
  function Evidence(q: Request, rows: Table -> seq<Row>): seq<Observation> {
    Read(q, rows) + if SyntheticObservation(q).Some? then [SyntheticObservation(q).value] else []
  }

  function Answer(q: Request, rows: Table -> seq<Row>, settings: Settings): Result {
    Resolve(Dedupe(Evidence(q, rows)), SyntheticOf(q), settings)
  }

  method ReadAll(q: Request, rows: Table -> seq<Row>) returns (read: seq<Observation>)
    ensures read == Read(q, rows)
  {
    var master := ReadTable(MasterCustomer, q, rows(MasterCustomer));
    var customers := ReadTable(PsCustomer, q, rows(PsCustomer));
    var addresses := ReadTable(PsAddress, q, rows(PsAddress));
    var orders := ReadTable(PsOrders, q, rows(PsOrders));
    var cases := ReadTable(Cases, q, rows(Cases));
    var inbound := ReadTable(InboundMessages, q, rows(InboundMessages));
    var messages := ReadTable(ConversationMessages, q, rows(ConversationMessages));
    read := master + customers + addresses + orders + cases + inbound + messages;
  }

  /** The two deduplications of the resolver come to one deduplication of everything. */
  method MergeObservations(read: seq<Observation>, synthetic: Option<Observation>) returns (all: seq<Observation>)
    ensures all == Dedupe(read + if synthetic.Some? then [synthetic.value] else [])
  {
    all := DedupeObservations(read);
    if synthetic.Some? {
      all := DedupeObservations(all + [synthetic.value]);
      DedupeInStages(read, [synthetic.value]);
    } else {
      assert read + [] == read;
    }
  }

  method ResolveCustomerCandidate(q: Request, rows: Table -> seq<Row>, settings: Settings) returns (result: Result)
    ensures result == Answer(q, rows, settings)
  {
    var read := ReadAll(q, rows);
    var all := MergeObservations(read, SyntheticObservation(q));
    result := ResolveObservations(all, SyntheticOf(q), settings);
  }

  // ----- what the readers can make

  ghost predicate Readings(q: Request, s: seq<Observation>) {
    forall o <- s :: Reading(q, o)
  }

  lemma EvidenceIsReadings(q: Request, rows: Table -> seq<Row>)
    ensures Readings(q, Evidence(q, rows)) && Readings(q, Dedupe(Evidence(q, rows)))
  {
    forall o | o in Read(q, rows)
      ensures Reading(q, o)
    {
      ReadContents(q, rows);
      var t, row :| row in rows(t) && Observe(t, q, row) == Some(o);
      ObserveIsReading(t, q, row);
    }
    DedupeIsDistinct(Evidence(q, rows));
  }

  lemma ReadingIsVouched(q: Request, o: Observation)
    requires Reading(q, o)
    ensures Vouched(q, o)
  {
  }

  lemma NoContradiction(q: Request, s: seq<Observation>, t: IdentityType)
    requires Readings(q, s) && t !in {Phone, WaId}
    ensures !Contradicts(s, t)
  {
    forall v | v in HighValueSet(s, t)
      ensures Requested(q, t) == Some(v)
    {
      var o :| o in s && o.identityType == Some(t) && o.identityValue == Some(v);
      ReadingIsVouched(q, o);
    }
  }

  ghost predicate TwoUncertain(s: seq<Observation>) {
    exists i, j :: 0 <= i < j < |s| && IsAmbiguous(s[i]) && IsAmbiguous(s[j])
  }

  /**
   Three of the four documented conflict reasons never arise: a reader only reports an e-mail,
   customer id, order or invoice that equals the request's own.
   */
  lemma OnlyPhonesAreReasons(q: Request, s: seq<Observation>)
    requires Readings(q, s)
    ensures ConflictReasons(s) == if TwoUncertain(s) then ["phone_or_wa_id_ambiguous"] else []
  {
    forall t | t in {Email, PrestashopCustomerId, OrderId, InvoiceNumber}
      ensures |HighValues(s, t)| <= 1
    {
      NoContradiction(q, s, t);
      HighValuesIff(s, t);
    }
    TwoFiltered(IsAmbiguous, s);
  }

  // ----- the answer depends on the set of readings only

  ghost predicate Competing(s: seq<Observation>) {
    exists a, b :: a in s && b in s && IsStrong(a) && IsStrong(b) && BucketKey(a) != BucketKey(b)
  }

  ghost predicate TwoUncertainKeys(s: seq<Observation>) {
    exists a, b :: a in s && b in s && IsAmbiguous(a) && IsAmbiguous(b) && ObservationKey(a) != ObservationKey(b)
  }

  ghost predicate PlainRecords(s: seq<Observation>) {
    forall o <- s :: PlainRecord(o)
  }

  /** What deduplication keeps for an observation, and in what it agrees with it. */
  lemma Representative(q: Request, s: seq<Observation>, o: Observation) returns (kept: Observation)
    requires NormalRequest(q) && Readings(q, s) && PlainRecords(s) && o in s
    ensures kept in Dedupe(s) && ObservationKey(kept) == ObservationKey(o)
    ensures BucketKey(kept) == BucketKey(o) && IsStrong(kept) == IsStrong(o)
    ensures IsProvisional(kept) == IsProvisional(o) && IsAmbiguous(kept) == IsAmbiguous(o)
  {
    DedupeKeepsFirsts(s, ObservationKey(o));
    FirstWithAppend(s, [], ObservationKey(o));
    FirstWithAppend(Dedupe(s), [], ObservationKey(o));
    kept :| kept in Dedupe(s) && ObservationKey(kept) == ObservationKey(o);
    DedupeIsDistinct(s);
    EqualKeysAreAlike(q, o, kept);
  }

  lemma StrongIsKept(q: Request, s: seq<Observation>)
    requires NormalRequest(q) && Readings(q, s) && PlainRecords(s)
    ensures (exists o <- Dedupe(s) :: IsStrong(o)) <==> (exists o <- s :: IsStrong(o))
    ensures (exists o <- Dedupe(s) :: IsProvisional(o)) <==> (exists o <- s :: IsProvisional(o))
  {
    DedupeIsDistinct(s);
    if o :| o in s && IsStrong(o) {
      var kept := Representative(q, s, o);
    }
    if o :| o in s && IsProvisional(o) {
      var kept := Representative(q, s, o);
    }
  }

  lemma CompetitionIsKept(q: Request, s: seq<Observation>)
    requires NormalRequest(q) && Readings(q, s) && PlainRecords(s)
    ensures Competing(Dedupe(s)) <==> Competing(s)
  {
    DedupeIsDistinct(s);
    if a, b :| a in s && b in s && IsStrong(a) && IsStrong(b) && BucketKey(a) != BucketKey(b) {
      var keptA := Representative(q, s, a);
      var keptB := Representative(q, s, b);
    }
  }

  lemma UncertaintyIsKept(q: Request, s: seq<Observation>)
    requires NormalRequest(q) && Readings(q, s) && PlainRecords(s)
    ensures TwoUncertain(Dedupe(s)) <==> TwoUncertainKeys(s)
  {
    DedupeIsDistinct(s);
    if a, b :| a in s && b in s && IsAmbiguous(a) && IsAmbiguous(b) && ObservationKey(a) != ObservationKey(b) {
      var keptA := Representative(q, s, a);
      var keptB := Representative(q, s, b);
      TwoPlaces(Dedupe(s), keptA, keptB);
    }
  }

  lemma TwoPlaces(s: seq<Observation>, a: Observation, b: Observation)
    requires a in s && b in s && a != b && IsAmbiguous(a) && IsAmbiguous(b)
    ensures TwoUncertain(s)
  {
  }

  /** A conflict, in terms of what was read before anything is deduplicated. */
  lemma ConflictOfReadingsIff(q: Request, s: seq<Observation>)
    requires NormalRequest(q) && Readings(q, s) && PlainRecords(s)
    ensures InConflict(Dedupe(s)) <==> Competing(s) && TwoUncertainKeys(s)
  {
    DedupeIsDistinct(s);
    OnlyPhonesAreReasons(q, Dedupe(s));
    CompetingIff(Dedupe(s));
    CompetitionIsKept(q, s);
    UncertaintyIsKept(q, s);
  }

  lemma ReasonsOfReadings(q: Request, s: seq<Observation>)
    requires NormalRequest(q) && Readings(q, s) && PlainRecords(s)
    ensures ConflictReasons(Dedupe(s)) == if TwoUncertainKeys(s) then ["phone_or_wa_id_ambiguous"] else []
  {
    DedupeIsDistinct(s);
    OnlyPhonesAreReasons(q, Dedupe(s));
    UncertaintyIsKept(q, s);
  }

  /** The status class of what was read, before anything is deduplicated. */
  lemma ClassOfReadings(q: Request, s: seq<Observation>, synthetic: Synthetic, settings: Settings)
    requires NormalRequest(q) && Readings(q, s) && PlainRecords(s)
    ensures var strong := exists o <- s :: IsStrong(o);
      var provisional := synthetic.observed || exists o <- s :: IsProvisional(o);
      StatusClass(StatusOf(Dedupe(s), synthetic, settings)) ==
        if Competing(s) && TwoUncertainKeys(s) then ConflictNeedsReview
        else if !strong && !(settings.allowProvisional && provisional) then NotEnoughIdentity
        else if !settings.readOnly then SkippedReadOnly
        else if strong then ResolvedExisting
        else CreatedProvisional
  {
    ConflictOfReadingsIff(q, s);
    StrongIsKept(q, s);
    StatusIff(Dedupe(s), synthetic, settings);
  }

  lemma SameSetSameFacts(a: seq<Observation>, b: seq<Observation>)
    requires forall o :: o in a <==> o in b
    ensures Competing(a) <==> Competing(b)
    ensures TwoUncertainKeys(a) <==> TwoUncertainKeys(b)
    ensures (exists o <- a :: IsStrong(o)) <==> (exists o <- b :: IsStrong(o))
    ensures (exists o <- a :: IsProvisional(o)) <==> (exists o <- b :: IsProvisional(o))
  {
  }

  /**
   Neither the order in which readers and rows deliver, nor how often they deliver the same,
   changes the status class or the reasons: only the set of readings counts.
   */
  lemma SameReadingsSameClass(q: Request, a: seq<Observation>, b: seq<Observation>, synthetic: Synthetic,
                              settings: Settings)
    requires NormalRequest(q) && Readings(q, a) && PlainRecords(a) && forall o :: o in a <==> o in b
    ensures StatusClass(StatusOf(Dedupe(a), synthetic, settings))
      == StatusClass(StatusOf(Dedupe(b), synthetic, settings))
    ensures ConflictReasons(Dedupe(a)) == ConflictReasons(Dedupe(b))
  {
    SameSetSameFacts(a, b);
    ReasonsOfReadings(q, a);
    ReasonsOfReadings(q, b);
    ClassOfReadings(q, a, synthetic, settings);
    ClassOfReadings(q, b, synthetic, settings);
  }

  lemma UncertainIsProvisional(s: seq<Observation>)
    requires TwoUncertainKeys(s)
    ensures exists o <- s :: IsProvisional(o)
  {
  }

  lemma ClassKeepsRefusals(status: Status)
    ensures StatusClass(status) in {ConflictNeedsReview, NotEnoughIdentity}
      <==> status in {ConflictNeedsReview, NotEnoughIdentity}
  {
  }

  /**
   The no-merge rule for what readers deliver: with the one reason that can arise, the answer is a
   conflict or not enough identity exactly when strong customers compete, or when there is none and
   provisional customers are not allowed.
   */
  lemma NoMergeRuleForReadingsIff(q: Request, s: seq<Observation>, synthetic: Synthetic, settings: Settings)
    requires NormalRequest(q) && Readings(q, s) && PlainRecords(s) && TwoUncertainKeys(s)
    ensures StatusOf(Dedupe(s), synthetic, settings) in {ConflictNeedsReview, NotEnoughIdentity} <==>
      Competing(s) || (!settings.allowProvisional && !exists o <- s :: IsStrong(o))
  {
    ClassOfReadings(q, s, synthetic, settings);
    ClassKeepsRefusals(StatusOf(Dedupe(s), synthetic, settings));
    UncertainIsProvisional(s);
  }

  // ----- a phone alone

  /** Without an identity of its own to compare, a request finds nothing strong, and so never a conflict. */
  lemma PhoneOnlyFindsNothingStrong(q: Request, s: seq<Observation>)
    requires PhoneOnly(q) && Readings(q, s)
    ensures !exists o <- s :: IsStrong(o)
    ensures !InConflict(s)
  {
    forall o | o in s
      ensures !IsStrong(o)
    {
      ReadingIsVouched(q, o);
    }
    CompetingIff(s);
  }

  lemma DifferentCustomersDifferentKeys(q: Request, a: Row, b: Row)
    requires NormalRequest(q) && PhoneOnly(q)
    requires a.idCustomer.Some? && b.idCustomer.Some? && a.idCustomer != b.idCustomer
    requires q.phone.Some? && a.phone == q.phone == b.phone
    ensures var x, y := Observe(PsAddress, q, a), Observe(PsAddress, q, b);
      && x.Some? && y.Some? && IsAmbiguous(x.value) && IsAmbiguous(y.value)
      && (PlainRecord(x.value) && PlainRecord(y.value) ==> ObservationKey(x.value) != ObservationKey(y.value))
  {
    var x, y := Observe(PsAddress, q, a).value, Observe(PsAddress, q, b).value;
    ObserveIsReading(PsAddress, q, a);
    ObserveIsReading(PsAddress, q, b);
    KeyedDiffers("prestashop", a.idCustomer, b.idCustomer);
    if PlainRecord(x) && PlainRecord(y) && ObservationKey(x) == ObservationKey(y) {
      EqualKeysAreAlike(q, x, y);
    }
  }

  /**
   The no-merge rule is broken by every phone found in the addresses of two customers: the reason
   is there, and the answer is a new provisional customer.
   */
  lemma SharedPhoneBreaksNoMerge(q: Request, rows: Table -> seq<Row>, a: Row, b: Row, settings: Settings)
    requires NormalRequest(q) && PhoneOnly(q) && PlainRecords(Evidence(q, rows))
    requires a in rows(PsAddress) && b in rows(PsAddress)
    requires q.phone.Some? && a.phone == q.phone == b.phone
    requires a.idCustomer.Some? && b.idCustomer.Some? && a.idCustomer != b.idCustomer
    requires settings.readOnly && settings.allowProvisional
    ensures ConflictReasons(Dedupe(Evidence(q, rows))) == ["phone_or_wa_id_ambiguous"]
    ensures Answer(q, rows, settings).status == CreatedProvisional
  {
    var s := Evidence(q, rows);
    DifferentCustomersDifferentKeys(q, a, b);
    var x, y := Observe(PsAddress, q, a).value, Observe(PsAddress, q, b).value;
    ReadContents(q, rows);
    assert x in s && y in s;
    EvidenceIsReadings(q, rows);
    ReasonsOfReadings(q, s);
    PhoneOnlyFindsNothingStrong(q, s);
    ClassOfReadings(q, s, SyntheticOf(q), settings);
    assert IsProvisional(x);
  }

  /** A request that names a phone or a WhatsApp id at most: neither a customer's document nor a conversation. */
  predicate NamesPhoneAtMost(q: Request) {
    PhoneOnly(q) && q.caseId.None? && q.messageId.None?
  }

  /** What such a request finds: addresses by their phone, and hints of low confidence in the conversations. */
  lemma PhoneFindings(t: Table, q: Request, row: Row)
    requires NamesPhoneAtMost(q) && Observe(t, q, row).Some?
    ensures var o := Observe(t, q, row).value;
      if t == PsAddress then
        && row.phone.Some? && row.phone in {q.phone, q.waId}
        && o.source == Prestashop && o.confidence == Medium && o.identityType == Some(Phone)
        && o.customerKey == Some(if row.idCustomer.Some? then "prestashop:" + row.idCustomer.value
                                 else "candidate:phone:" + row.phone.value)
      else o.source == N8n && o.confidence == Low
  {
    assert "prestashop" + ":" == "prestashop:" && "candidate:phone" + ":" == "candidate:phone:";
  }

  /** The customer of an address that the phone of the request leads to. */
  ghost predicate NamesAddress(q: Request, rows: Table -> seq<Row>, key: Option<string>) {
    exists row <- rows(PsAddress) ::
      && row.phone.Some? && row.phone in {q.phone, q.waId}
      && key == Some(if row.idCustomer.Some? then "prestashop:" + row.idCustomer.value
                     else "candidate:phone:" + row.phone.value)
  }

  lemma RowObserved(q: Request, rows: Table -> seq<Row>, t: Table, row: Row)
    requires NamesPhoneAtMost(q) && row in rows(t) && Observe(t, q, row).Some?
    ensures var o := Observe(t, q, row).value;
      if o.source == Prestashop then
        o.confidence == Medium && o.identityType == Some(Phone) && NamesAddress(q, rows, o.customerKey)
      else o.source != Unknown && o.confidence == Low
  {
    PhoneFindings(t, q, row);
  }

  lemma RequestObserved(q: Request)
    requires NamesPhoneAtMost(q) && SyntheticObservation(q).Some?
    ensures var o := SyntheticObservation(q).value;
      o.source == Unknown && o.confidence == Medium && o.identityType in {Some(Phone), Some(WaId)}
  {
  }

  lemma PhoneIdentities(q: Request, o: Observation)
    requires PhoneOnly(q) && Vouched(q, o)
    ensures o.identityType in {Some(Phone), Some(WaId), None}
  {
  }

  lemma AddressObserved(q: Request, rows: Table -> seq<Row>, o: Observation)
    requires NamesPhoneAtMost(q) && o in Evidence(q, rows)
    ensures o.confidence != High
    ensures o.source == Prestashop ==>
      o.confidence == Medium && o.identityType == Some(Phone) && NamesAddress(q, rows, o.customerKey)
    ensures o.source != Prestashop ==> o.confidence == Low || o.source == Unknown
    ensures o.identityType in {Some(Phone), Some(WaId), None}
  {
    EvidenceIsReadings(q, rows);
    ReadingIsVouched(q, o);
    PhoneIdentities(q, o);
    if o in Read(q, rows) {
      ReadContents(q, rows);
      var t, row :| row in rows(t) && Observe(t, q, row) == Some(o);
      RowObserved(q, rows, t, row);
    } else {
      RequestObserved(q);
    }
  }

  lemma NothingBetterThanAddress(q: Request, rows: Table -> seq<Row>, address: Observation, o: Observation)
    requires NamesPhoneAtMost(q) && address in Evidence(q, rows) && o in Evidence(q, rows)
    requires address.source == Prestashop && !Better(address, o)
    ensures o.source == Prestashop
  {
    AddressObserved(q, rows, address);
    AddressObserved(q, rows, o);
  }

  /**
   A request that names a phone at most, whatever the tables hold: if a PrestaShop address has the
   phone, the answer names the customer of such an address, and not one that a conversation or the
   request itself would give.
   */
  lemma PhoneNamesAddress(q: Request, rows: Table -> seq<Row>, row: Row, settings: Settings)
    requires NormalRequest(q) && NamesPhoneAtMost(q) && PlainRecords(Evidence(q, rows))
    requires row in rows(PsAddress) && row.phone.Some? && row.phone in {q.phone, q.waId}
    ensures NamesAddress(q, rows, Answer(q, rows, settings).customerKey)
  {
    var d := Dedupe(Evidence(q, rows));
    var kept := AddressKept(q, rows, row);
    EvidenceIsReadings(q, rows);
    DedupeIsDistinct(Evidence(q, rows));
    PhoneOnlyFindsNothingStrong(q, d);
    assert KeysWith(IsStrong, d) == {};
    assert BucketKey(kept) in EligibleKeys(d);
    SelectionIsMaximal(d, SyntheticOf(q), settings);
    var selected := Resolve(d, SyntheticOf(q), settings).selected.value;
    NothingBetterThanAddress(q, rows, kept, selected);
    AddressObserved(q, rows, selected);
  }

  /** Deduplication keeps an observation of an address for the address. */
  lemma AddressKept(q: Request, rows: Table -> seq<Row>, row: Row) returns (kept: Observation)
    requires NormalRequest(q) && NamesPhoneAtMost(q) && PlainRecords(Evidence(q, rows))
    requires row in rows(PsAddress) && row.phone.Some? && row.phone in {q.phone, q.waId}
    ensures kept in Dedupe(Evidence(q, rows)) && kept.source == Prestashop && IsProvisional(kept)
  {
    var s := Evidence(q, rows);
    EvidenceIsReadings(q, rows);
    ReadContents(q, rows);
    var address := Observe(PsAddress, q, row).value;
    assert address in s;
    AddressObserved(q, rows, address);
    kept := Representative(q, s, address);
    DedupeIsDistinct(s);
    SameKeySameSource(q, address, kept);
  }

  lemma SameKeySameSource(q: Request, a: Observation, b: Observation)
    requires NormalRequest(q) && Reading(q, a) && Reading(q, b) && PlainRecord(a) && PlainRecord(b)
    requires ObservationKey(a) == ObservationKey(b)
    ensures a.source == b.source
  {
    EqualKeysAreAlike(q, a, b);
  }

  // ----- nobody found

  lemma RequestIsItsBucket(q: Request, o: Observation)
    requires SyntheticObservation(q) == Some(o)
    ensures Some(BucketKey(o)) == SyntheticKey(q) && !IsStrong(o)
  {
  }

  lemma NothingStrong(s: seq<Observation>, synthetic: Synthetic, settings: Settings)
    requires forall o <- s :: !IsStrong(o)
    ensures !InConflict(s)
    ensures Resolve(s, synthetic, settings).status ==
      if !settings.allowProvisional || !(synthetic.observed || exists o <- s :: IsProvisional(o)) then NotEnoughIdentity
      else if settings.readOnly then CreatedProvisional else SkippedReadOnly
  {
    CompetingIff(s);
    StatusIff(s, synthetic, settings);
  }

  lemma OneKey(s: seq<Observation>, synthetic: Synthetic, settings: Settings)
    requires !InConflict(s) && forall o <- s :: Some(BucketKey(o)) == synthetic.key
    ensures Resolve(s, synthetic, settings).customerKey == synthetic.key
  {
    SelectionIsMaximal(s, synthetic, settings);
  }

  lemma AtMostOneKept(s: seq<Observation>)
    requires |s| <= 1
    ensures Dedupe(s) == s
  {
    DedupeOfDistinct(s);
  }

  lemma RequestNamesIdentity(q: Request)
    ensures SyntheticObservation(q).None? <==> PhoneOnly(q) && q.phone.None? && q.waId.None?
  {
    SyntheticByPreference(q);
  }

  lemma MadeOfRequest(q: Request) returns (made: seq<Observation>)
    ensures made == if SyntheticObservation(q).Some? then [SyntheticObservation(q).value] else []
    ensures Dedupe(made) == made && forall o <- made :: !IsStrong(o) && Some(BucketKey(o)) == SyntheticKey(q)
    ensures made == [] <==> PhoneOnly(q) && q.phone.None? && q.waId.None?
  {
    RequestNamesIdentity(q);
    made := [];
    match SyntheticObservation(q) {
      case Some(o) =>
        RequestIsItsBucket(q, o);
        made := [o];
      case None =>
    }
    AtMostOneKept(made);
  }

  lemma OnlyTheRequest(q: Request, rows: Table -> seq<Row>, made: seq<Observation>, settings: Settings)
    requires Read(q, rows) == [] && Dedupe(made) == made
    requires made == if SyntheticObservation(q).Some? then [SyntheticObservation(q).value] else []
    ensures Answer(q, rows, settings) == Resolve(made, SyntheticOf(q), settings)
    ensures SyntheticOf(q).observed <==> made != []
    ensures SyntheticOf(q).key == SyntheticKey(q)
  {
    assert [] + made == made;
  }

  /**
   A request that no row answers: it is a candidate of its own as soon as it names an identity and
   provisional customers are allowed, and whatever comes of it the key is the request's own.
   */
  lemma NobodyFound(q: Request, rows: Table -> seq<Row>, settings: Settings)
    requires Read(q, rows) == []
    ensures var r := Answer(q, rows, settings);
      && r.status == (if !settings.allowProvisional || (PhoneOnly(q) && q.phone.None? && q.waId.None?)
                      then NotEnoughIdentity else if settings.readOnly then CreatedProvisional else SkippedReadOnly)
      && r.customerKey == SyntheticKey(q)
  {
    var made := MadeOfRequest(q);
    var synthetic := SyntheticOf(q);
    OnlyTheRequest(q, rows, made, settings);
    NothingStrong(made, synthetic, settings);
    OneKey(made, synthetic, settings);
  }

  // ----- one e-mail address, two customers

  lemma SeenAgain(first: Observation, second: Observation, more: seq<Observation>)
    requires BucketKey(first) != BucketKey(second)
    ensures var key := BucketKey(first);
      |WithKey([first, second] + more, key)| > 1 <==> exists o <- more :: BucketKey(o) == key
  {
    var s, key := [first, second] + more, BucketKey(first);
    TwoInBucket(s, key);
    assert forall j :: 2 <= j < |s| ==> s[j] == more[j - 2];
    if o :| o in more && BucketKey(o) == key {
      assert s[2..] == more;
      SeenFirstAndLater(s, o, key);
    }
  }

  lemma SeenFirstAndLater(s: seq<Observation>, o: Observation, key: string)
    requires |s| >= 2 && o in s[2..] && BucketKey(s[0]) == BucketKey(o) == key
    ensures exists i, j :: 0 <= i < j < |s| && BucketKey(s[i]) == BucketKey(s[j]) == key
  {
    var k :| 0 <= k < |s| - 2 && s[2..][k] == o;
    assert BucketKey(s[0]) == BucketKey(s[k + 2]) == key;
  }

  lemma StrongIsBest(s: seq<Observation>, o: Observation)
    requires o in s && IsStrong(o)
    requires forall x <- s :: BucketKey(x) in KeysWith(IsStrong, s) ==> Rank(x) <= Rank(o)
    ensures Best(s, BucketKey(o))
  {
    assert BucketKey(o) in KeysWith(IsStrong, s);
  }

  lemma FirstIsSelected(s: seq<Observation>)
    requires s != [] && IsStrong(s[0]) && !InConflict(s)
    requires forall o <- s :: BucketKey(o) in KeysWith(IsStrong, s) ==> Rank(o) <= Rank(s[0])
    ensures Selected(s) == Some(Bucket(BucketKey(s[0]), WithKey(s, BucketKey(s[0]))))
  {
    StrongIsBest(s, s[0]);
    BestInFrontIsSelected(s, BucketKey(s[0]));
  }

  /** Customers that tie for the highest rank: the one observed first is selected, and decides the status. */
  lemma TieByOrder(first: Observation, second: Observation, more: seq<Observation>, synthetic: Synthetic,
                   settings: Settings)
    requires IsStrong(first) && BucketKey(first) != BucketKey(second) && settings.readOnly
    requires var s := [first, second] + more;
      !InConflict(s) && forall o <- s :: BucketKey(o) in KeysWith(IsStrong, s) ==> Rank(o) <= Rank(first)
    ensures KeyOf(Selected([first, second] + more)) == Some(BucketKey(first))
    ensures StatusOf([first, second] + more, synthetic, settings)
      == if exists o <- more :: BucketKey(o) == BucketKey(first) then LinkedIdentity else ResolvedExisting
  {
    var s := [first, second] + more;
    FirstIsSelected(s);
    SeenAgain(first, second, more);
    assert first in s;
    AnyWith(IsStrong, s);
  }

  /** A request that names an e-mail address and nothing else. */
  predicate EmailOnly(q: Request) {
    q.email.Some? && q == Request(None, q.email, None, None, None, None, None, None)
  }

  /** Two customers and an order in the database, and no other row. */
  function Shop(first: Row, second: Row, order: Row): Table -> seq<Row> {
    (t: Table) => match t
      case PsCustomer => [first, second]
      case PsOrders => [order]
      case _ => []
  }

  lemma EmailMatch(t: Table, q: Request, row: Row)
    requires EmailOnly(q) && row.email == q.email && row.idCustomer.Some? && t in {PsCustomer, PsOrders}
    ensures var o := Observe(t, q, row);
      && o.Some? && o.value.source == Prestashop && o.value.identityType == Some(Email) && o.value.confidence == High
      && o.value.table == TableName(t) && o.value.customerKey == Keyed("prestashop", row.idCustomer)
      && o.value.sourceRecordId == RecordId(t, row)
  {
  }

  lemma EmailSynthetic(q: Request)
    requires EmailOnly(q)
    ensures var o := SyntheticObservation(q);
      && o.Some? && o.value.source == Unknown && o.value.identityType == Some(Email) && o.value.confidence == High
      && o.value.customerKey == Keyed("candidate:email", q.email)
  {
  }

  lemma ShopEvidence(q: Request, first: Row, second: Row, order: Row)
    requires Observe(PsCustomer, q, first).Some? && Observe(PsCustomer, q, second).Some?
    requires Observe(PsOrders, q, order).Some? && SyntheticObservation(q).Some?
    ensures Evidence(q, Shop(first, second, order))
      == [Observe(PsCustomer, q, first).value, Observe(PsCustomer, q, second).value]
         + [Observe(PsOrders, q, order).value, SyntheticObservation(q).value]
  {
    var rows := Shop(first, second, order);
    ObservedTwo(PsCustomer, q, first, second);
    ObservedOne(PsOrders, q, order);
    ReadOfTwo(q, rows, Observed(PsCustomer, q, [first, second]), Observed(PsOrders, q, [order]));
  }

  lemma ReadOfTwo(q: Request, rows: Table -> seq<Row>, customers: seq<Observation>, orders: seq<Observation>)
    requires forall t :: t !in {PsCustomer, PsOrders} ==> rows(t) == []
    requires Observed(PsCustomer, q, rows(PsCustomer)) == customers && Observed(PsOrders, q, rows(PsOrders)) == orders
    ensures Read(q, rows) == customers + orders
  {
    assert [] + customers + [] == customers && customers + orders + [] + [] + [] == customers + orders;
  }

  lemma ObservedOne(t: Table, q: Request, row: Row)
    requires Observe(t, q, row).Some?
    ensures Observed(t, q, [row]) == [Observe(t, q, row).value]
  {
  }

  lemma ObservedTwo(t: Table, q: Request, first: Row, second: Row)
    requires Observe(t, q, first).Some? && Observe(t, q, second).Some?
    ensures Observed(t, q, [first, second]) == [Observe(t, q, first).value, Observe(t, q, second).value]
  {
    ObservedOne(t, q, first);
    assert [first, second][..1] == [first];
  }

  lemma UnlikeReadingsHaveDistinctKeys(q: Request, s: seq<Observation>)
    requires NormalRequest(q) && Readings(q, s) && PlainRecords(s)
    requires forall i, j :: 0 <= i < j < |s| ==> !Alike(s[i], s[j])
    ensures DistinctKeys(s) && Dedupe(s) == s
  {
    forall i, j | 0 <= i < j < |s|
      ensures ObservationKey(s[i]) != ObservationKey(s[j])
    {
      assert s[i] in s && s[j] in s;
      if ObservationKey(s[i]) == ObservationKey(s[j]) {
        EqualKeysAreAlike(q, s[i], s[j]);
      }
    }
    DedupeOfDistinct(s);
  }

  lemma NoPhoneNoConflict(q: Request, s: seq<Observation>)
    requires Readings(q, s) && forall o <- s :: !IsAmbiguous(o)
    ensures !InConflict(s)
  {
    OnlyPhonesAreReasons(q, s);
  }

  /** An observation in the bucket of a strong one ranks like it, if the only weak one is in a bucket of its own. */
  lemma StrongBucketsTie(s: seq<Observation>, made: Observation, rank: nat)
    requires forall o <- s :: o == made || (IsStrong(o) && Rank(o) == rank && BucketKey(o) != BucketKey(made))
    requires !IsStrong(made)
    ensures forall o <- s :: BucketKey(o) in KeysWith(IsStrong, s) ==> Rank(o) == rank
  {
  }

  predicate ByCertainEmail(o: Observation) {
    o.identityType == Some(Email) && o.confidence == High
  }

  /** Four observations of one e-mail address: two customers, an order of one of them, and the request itself. */
  predicate OneEmail(x: Observation, y: Observation, z: Observation, made: Observation) {
    && ByCertainEmail(x) && ByCertainEmail(y) && ByCertainEmail(z) && ByCertainEmail(made)
    && x.source == y.source == z.source == Prestashop && made.source == Unknown
    && BucketKey(x) != BucketKey(y) && BucketKey(z) in {BucketKey(x), BucketKey(y)}
    && BucketKey(made) !in {BucketKey(x), BucketKey(y)}
  }

  lemma OneEmailFacts(x: Observation, y: Observation, z: Observation, made: Observation, o: Observation)
    requires OneEmail(x, y, z, made) && o in {x, y, z, made}
    ensures !IsAmbiguous(o)
    ensures o == made || (IsStrong(o) && Rank(o) == Rank(x) && BucketKey(o) != BucketKey(made))
  {
  }

  lemma SameEmailStatus(q: Request, x: Observation, y: Observation, z: Observation, made: Observation,
                        synthetic: Synthetic, settings: Settings)
    requires OneEmail(x, y, z, made) && Readings(q, [x, y] + [z, made]) && settings.readOnly
    ensures !InConflict([x, y] + [z, made])
    ensures KeyOf(Selected([x, y] + [z, made])) == Some(BucketKey(x))
    ensures StatusOf([x, y] + [z, made], synthetic, settings)
      == if BucketKey(z) == BucketKey(x) then LinkedIdentity else ResolvedExisting
  {
    var s := [x, y] + [z, made];
    forall o | o in s
      ensures !IsAmbiguous(o) && (o == made || (IsStrong(o) && Rank(o) == Rank(x) && BucketKey(o) != BucketKey(made)))
    {
      OneEmailFacts(x, y, z, made, o);
    }
    NoPhoneNoConflict(q, s);
    StrongBucketsTie(s, made, Rank(x));
    TieByOrder(x, y, [z, made], synthetic, settings);
  }

  lemma FourUnlike(q: Request, x: Observation, y: Observation, z: Observation, made: Observation)
    requires NormalRequest(q) && Readings(q, [x, y] + [z, made])
    requires PlainRecord(x) && PlainRecord(y) && PlainRecord(z) && made.source == Unknown
    requires x.source == y.source == z.source == Prestashop && !Alike(x, y) && !Alike(x, z) && !Alike(y, z)
    ensures Dedupe([x, y] + [z, made]) == [x, y] + [z, made]
  {
    UnlikeReadingsHaveDistinctKeys(q, [x, y] + [z, made]);
  }

  lemma CandidateIsNoCustomer(email: Option<string>, id: Option<string>)
    requires email.Some? && id.Some?
    ensures Keyed("candidate:email", email) != Keyed("prestashop", id)
  {
    assert Keyed("candidate:email", email).value[0] == 'c' && Keyed("prestashop", id).value[0] == 'p';
  }

  /** The four observations, as the resolver sees them. */
  lemma ShopObservations(q: Request, first: Row, second: Row, order: Row)
    requires EmailOnly(q) && first.email == second.email == order.email == q.email
    requires first.idCustomer.Some? && second.idCustomer.Some? && first.idCustomer != second.idCustomer
    requires order.idCustomer in {first.idCustomer, second.idCustomer}
    ensures var x, y := Observe(PsCustomer, q, first), Observe(PsCustomer, q, second);
      var z, made := Observe(PsOrders, q, order), SyntheticObservation(q);
      && x.Some? && y.Some? && z.Some? && made.Some?
      && ByCertainEmail(x.value) && ByCertainEmail(y.value) && ByCertainEmail(z.value) && ByCertainEmail(made.value)
      && x.value.source == y.value.source == z.value.source == Prestashop && made.value.source == Unknown
      && x.value.customerKey == Keyed("prestashop", first.idCustomer)
      && x.value.sourceRecordId == RecordId(PsCustomer, first) && y.value.sourceRecordId == RecordId(PsCustomer, second)
      && z.value.sourceRecordId == RecordId(PsOrders, order)
      && !Alike(x.value, y.value) && !Alike(x.value, z.value) && !Alike(y.value, z.value)
      && BucketKey(x.value) != BucketKey(y.value)
      && BucketKey(made.value) !in {BucketKey(x.value), BucketKey(y.value)}
      && (BucketKey(z.value) == BucketKey(x.value) <==> order.idCustomer == first.idCustomer)
      && (BucketKey(z.value) == BucketKey(y.value) <==> order.idCustomer == second.idCustomer)
  {
    EmailMatch(PsCustomer, q, first);
    EmailMatch(PsCustomer, q, second);
    EmailMatch(PsOrders, q, order);
    EmailSynthetic(q);
    KeyedDiffers("prestashop", first.idCustomer, second.idCustomer);
    CandidateIsNoCustomer(q.email, first.idCustomer);
    CandidateIsNoCustomer(q.email, second.idCustomer);
    assert TableName(PsCustomer)[3] == 'c' && TableName(PsOrders)[3] == 'o';
  }

  /**
   Two customers with one e-mail address and an order of one of them: no conflict is seen, and the
   customer that the database's answer lists first is the one named, linked if the order is its own.
   */
  lemma SharedEmailDecidedByOrder(q: Request, first: Row, second: Row, order: Row, settings: Settings)
    requires EmailOnly(q) && first.email == second.email == order.email == q.email && settings.readOnly
    requires first.idCustomer.Some? && second.idCustomer.Some? && first.idCustomer != second.idCustomer
    requires order.idCustomer in {first.idCustomer, second.idCustomer}
    requires '|' !in RecordId(PsCustomer, first).GetOr("") && '|' !in RecordId(PsCustomer, second).GetOr("")
    requires '|' !in RecordId(PsOrders, order).GetOr("")
    ensures Answer(q, Shop(first, second, order), settings).customerKey == Keyed("prestashop", first.idCustomer)
    ensures Answer(q, Shop(first, second, order), settings).status
      == if order.idCustomer == first.idCustomer then LinkedIdentity else ResolvedExisting
  {
    ShopObservations(q, first, second, order);
    var x, y := Observe(PsCustomer, q, first).value, Observe(PsCustomer, q, second).value;
    var z, made := Observe(PsOrders, q, order).value, SyntheticObservation(q).value;
    ShopEvidence(q, first, second, order);
    EvidenceIsReadings(q, Shop(first, second, order));
    FourUnlike(q, x, y, z, made);
    SameEmailStatus(q, x, y, z, made, SyntheticOf(q), settings);
    ResolvedFour([x, y] + [z, made], SyntheticOf(q), settings, BucketKey(x));
  }

  lemma ResolvedFour(s: seq<Observation>, synthetic: Synthetic, settings: Settings, key: string)
    requires KeyOf(Selected(s)) == Some(key) && !InConflict(s)
    ensures Resolve(s, synthetic, settings).customerKey == Some(key)
    ensures Resolve(s, synthetic, settings).status == StatusOf(s, synthetic, settings)
  {
    ResolveForm(s, synthetic, settings);
  }

  /** The same rows in the two orders a database may give them in: another customer, and another status. */
  lemma OrderOfRowsDecides(q: Request, owner: Row, other: Row, order: Row, settings: Settings)
    requires EmailOnly(q) && owner.email == other.email == order.email == q.email && settings.readOnly
    requires owner.idCustomer.Some? && other.idCustomer.Some? && owner.idCustomer != other.idCustomer
    requires order.idCustomer == owner.idCustomer
    requires '|' !in RecordId(PsCustomer, owner).GetOr("") && '|' !in RecordId(PsCustomer, other).GetOr("")
    requires '|' !in RecordId(PsOrders, order).GetOr("")
    ensures var r := Answer(q, Shop(owner, other, order), settings);
      r.status == LinkedIdentity && r.customerKey == Keyed("prestashop", owner.idCustomer)
    ensures var r := Answer(q, Shop(other, owner, order), settings);
      r.status == ResolvedExisting && r.customerKey == Keyed("prestashop", other.idCustomer)
  {
    SharedEmailDecidedByOrder(q, owner, other, order, settings);
    SharedEmailDecidedByOrder(q, other, owner, order, settings);
  }

  // ----- record ids that hold the bar

  lemma JoinedTails(r: string, criterion: string, typeName: string, p: string, x: string, tail: string)
    ensures var key := "prestashop" + ":" + (x + "|" + tail);
      r + "|" + (criterion + "|" + (typeName + "|" + (p + "|" + key)))
        == (r + "|" + (criterion + "|" + (typeName + "|" + (p + "|" + ("prestashop" + ":" + x))))) + "|" + tail
  {
  }

  lemma AddressByPhone(q: Request, row: Row)
    requires q.phone.Some? && row.phone == q.phone && row.idCustomer.Some? && row.idCustomer != q.idCustomer
    requires row.recordId.Some?
    ensures var o := Observe(PsAddress, q, row);
      && o.Some? && o.value == Observation(Prestashop, TableName(PsAddress), row.recordId, CriterionName(ByPhone),
                                           Some(Phone), q.phone, Medium, Keyed("prestashop", row.idCustomer))
  {
  }

  lemma AddressByCustomer(q: Request, row: Row)
    requires q.idCustomer.Some? && row.idCustomer == q.idCustomer && row.recordId.Some?
    ensures var o := Observe(PsAddress, q, row);
      && o.Some? && o.value == Observation(Prestashop, TableName(PsAddress), row.recordId, CriterionName(ByIdCustomer),
                                           Some(PrestashopCustomerId), q.idCustomer, High,
                                           Keyed("prestashop", row.idCustomer))
  {
  }

  /** The id of the one address and the customer id of the other spell out each other's keys around the bar. */
  ghost predicate Spelled(q: Request, phoneRow: Row, customerRow: Row, r: string, x: string)
    requires q.phone.Some? && q.idCustomer.Some?
  {
    var tail := CriterionName(ByIdCustomer) + "|" + (TypeName(PrestashopCustomerId) + "|"
      + (q.idCustomer.value + "|" + ("prestashop" + ":" + q.idCustomer.value)));
    && phoneRow.phone == q.phone && phoneRow.recordId == Some(r) && phoneRow.idCustomer == Some(x + "|" + tail)
    && customerRow.idCustomer == q.idCustomer
    && customerRow.recordId == Some(r + "|" + (CriterionName(ByPhone) + "|" + (TypeName(Phone) + "|"
        + (q.phone.value + "|" + ("prestashop" + ":" + x)))))
  }

  /** Then a weak and a strong observation have one key, and the one that comes first survives. */
  lemma BarsCollide(q: Request, phoneRow: Row, customerRow: Row, r: string, x: string)
    requires q.phone.Some? && q.idCustomer.Some? && Spelled(q, phoneRow, customerRow, r, x)
    ensures var weak, strong := Observe(PsAddress, q, phoneRow), Observe(PsAddress, q, customerRow);
      && weak.Some? && strong.Some? && !IsStrong(weak.value) && IsProvisional(weak.value) && IsStrong(strong.value)
      && ObservationKey(weak.value) == ObservationKey(strong.value)
      && Dedupe([weak.value, strong.value]) == [weak.value] && Dedupe([strong.value, weak.value]) == [strong.value]
  {
    assert phoneRow.idCustomer != q.idCustomer by {
      assert |phoneRow.idCustomer.value| > |q.idCustomer.value|;
    }
    AddressByPhone(q, phoneRow);
    AddressByCustomer(q, customerRow);
    var weak, strong := Observe(PsAddress, q, phoneRow).value, Observe(PsAddress, q, customerRow).value;
    KeyParts(weak);
    KeyParts(strong);
    JoinedTails(r, CriterionName(ByPhone), TypeName(Phone), q.phone.value, x, KeyTail(strong));
    DedupePair(weak, strong);
    DedupePair(strong, weak);
  }

  /** Two addresses in the database, and no other row. */
  function Addresses(first: Row, second: Row): Table -> seq<Row> {
    (t: Table) => if t == PsAddress then [first, second] else []
  }

  lemma AddressEvidence(q: Request, first: Row, second: Row)
    requires Observe(PsAddress, q, first).Some? && Observe(PsAddress, q, second).Some?
    ensures Read(q, Addresses(first, second))
      == [Observe(PsAddress, q, first).value, Observe(PsAddress, q, second).value]
  {
    ObservedTwo(PsAddress, q, first, second);
    ReadOfOne(q, Addresses(first, second), Observed(PsAddress, q, [first, second]));
  }

  lemma ReadOfOne(q: Request, rows: Table -> seq<Row>, addresses: seq<Observation>)
    requires forall t :: t != PsAddress ==> rows(t) == []
    requires Observed(PsAddress, q, rows(PsAddress)) == addresses
    ensures Read(q, rows) == addresses
  {
    assert [] + [] + addresses == addresses && addresses + [] + [] + [] + [] == addresses;
  }

  /** Of two observations with one key the first survives. */
  lemma FirstSurvives(first: Observation, second: Observation, made: seq<Observation>)
    requires ObservationKey(first) == ObservationKey(second)
    ensures var d := Dedupe([first, second] + made);
      first in d && forall o <- d :: o == first || o in made
  {
    DedupePair(first, second);
    DedupeInStages([first, second], made);
    DedupeIsDistinct([first] + made);
    DedupeKeepsFirsts([first] + made, ObservationKey(first));
    var m := FirstStandsFirst(Dedupe([first] + made), ObservationKey(first));
  }

  /** A single observation beside weak ones. */
  lemma SingleDecides(d: seq<Observation>, first: Observation, synthetic: Synthetic, settings: Settings)
    requires first in d && forall o <- d :: o == first || !IsStrong(o)
    requires settings.readOnly && settings.allowProvisional && (IsStrong(first) || IsProvisional(first))
    ensures StatusClass(StatusOf(d, synthetic, settings))
      == if IsStrong(first) then ResolvedExisting else CreatedProvisional
  {
    CompetingIff(d);
    StatusIff(d, synthetic, settings);
  }

  lemma SurvivorDecides(first: Observation, second: Observation, made: seq<Observation>, synthetic: Synthetic,
                        settings: Settings)
    requires ObservationKey(first) == ObservationKey(second) && forall o <- made :: !IsStrong(o)
    requires settings.readOnly && settings.allowProvisional && (IsStrong(first) || IsProvisional(first))
    ensures StatusClass(StatusOf(Dedupe([first, second] + made), synthetic, settings))
      == if IsStrong(first) then ResolvedExisting else CreatedProvisional
  {
    FirstSurvives(first, second, made);
    SingleDecides(Dedupe([first, second] + made), first, synthetic, settings);
  }

  lemma FirstAddressDecides(q: Request, first: Row, second: Row, settings: Settings)
    requires settings.readOnly && settings.allowProvisional
    requires var x, y := Observe(PsAddress, q, first), Observe(PsAddress, q, second);
      && x.Some? && y.Some? && ObservationKey(x.value) == ObservationKey(y.value)
      && (IsStrong(x.value) || IsProvisional(x.value))
    ensures StatusClass(Answer(q, Addresses(first, second), settings).status)
      == if IsStrong(Observe(PsAddress, q, first).value) then ResolvedExisting else CreatedProvisional
  {
    AddressEvidence(q, first, second);
    SurvivorDecides(Observe(PsAddress, q, first).value, Observe(PsAddress, q, second).value,
                    if SyntheticObservation(q).Some? then [SyntheticObservation(q).value] else [],
                    SyntheticOf(q), settings);
  }

  /** Two addresses with such ids: the order of the rows decides between a known and a provisional customer. */
  lemma BarsChangeAnswer(q: Request, phoneRow: Row, customerRow: Row, r: string, x: string, settings: Settings)
    requires q.phone.Some? && q.idCustomer.Some? && Spelled(q, phoneRow, customerRow, r, x)
    requires settings.readOnly && settings.allowProvisional
    ensures StatusClass(Answer(q, Addresses(phoneRow, customerRow), settings).status) == CreatedProvisional
    ensures StatusClass(Answer(q, Addresses(customerRow, phoneRow), settings).status) == ResolvedExisting
  {
    BarsCollide(q, phoneRow, customerRow, r, x);
    FirstAddressDecides(q, phoneRow, customerRow, settings);
    FirstAddressDecides(q, customerRow, phoneRow, settings);
  }

  lemma DedupePair(a: Observation, b: Observation)
    requires ObservationKey(a) == ObservationKey(b)
    ensures Dedupe([a, b]) == [a]
  {
    assert [a, b][..1] == [a] && [a][..0] == [];
    assert Dedupe([a]) == [a];
    assert a in [a];
  }
}
