/**
 The rows of a table come in whatever order the database likes. This module says exactly when
 that order can change the customer named in the answer.
 */
module RowOrder {
  import opened Options
  import opened Sorting
  import opened Observations
  import opened Readers
  import opened Resolution
  import opened CustomerResolution

  /** The same rows in every table, in another order. */
  ghost predicate SameRows(rows: Table -> seq<Row>, rows': Table -> seq<Row>) {
    forall t: Table :: multiset(rows(t)) == multiset(rows'(t))
  }

  lemma SameEvidence(q: Request, rows: Table -> seq<Row>, rows': Table -> seq<Row>)
    requires SameRows(rows, rows')
    ensures forall o :: o in Evidence(q, rows) <==> o in Evidence(q, rows')
  {
    ReadContents(q, rows);
    ReadContents(q, rows');
    forall t: Table, row: Row
      ensures row in rows(t) <==> row in rows'(t)
    {
      assert row in multiset(rows(t)) <==> row in multiset(rows'(t));
    }
  }

  // ----- the order of the tables

  /** The place of a table among the results of the readers; what is made of the request comes last. */
  function Stage(table: string): nat {
    if table == TableName(MasterCustomer) then 0
    else if table == TableName(PsCustomer) then 1
    else if table == TableName(PsAddress) then 2
    else if table == TableName(PsOrders) then 3
    else if table == TableName(Cases) then 4
    else if table == TableName(InboundMessages) then 5
    else if table == TableName(ConversationMessages) then 6
    else 7
  }

  function Turn(t: Table): nat {
    match t
    case MasterCustomer => 0
    case PsCustomer => 1
    case PsAddress => 2
    case PsOrders => 3
    case Cases => 4
    case InboundMessages => 5
    case ConversationMessages => 6
  }

  lemma TableLength(t: Table)
    ensures |TableName(t)| == match t
      case MasterCustomer => 15
      case PsCustomer => 11
      case PsAddress => 10
      case PsOrders => 9
      case Cases => 22
      case InboundMessages => 23
      case ConversationMessages => 25
  {
  }

  lemma StageOfTable(t: Table)
    ensures Stage(TableName(t)) == Turn(t)
  {
    forall u: Table
      ensures TableName(t) == TableName(u) ==> t == u
    {
      TableLength(t);
      TableLength(u);
    }
  }

  lemma StageOfSynthetic(q: Request)
    ensures SyntheticObservation(q).Some? ==> Stage(SyntheticObservation(q).value.table) == 7
  {
    if SyntheticObservation(q).Some? {
      assert |SyntheticObservation(q).value.table| == 24;
      forall t: Table
        ensures SyntheticObservation(q).value.table != TableName(t)
      {
        TableLength(t);
      }
    }
  }

  /** The tables come one after the other. */
  ghost predicate Staged(s: seq<Observation>) {
    forall i, j :: 0 <= i < j < |s| ==> Stage(s[i].table) <= Stage(s[j].table)
  }

  /** A number that is smaller for observations with the given key, and then the smaller the higher they rank. */
  function Score(key: string, o: Observation): int {
    if BucketKey(o) == key then -1 - Rank(o) else Rank(o)
  }

  /** Within each table the scores rise. */
  ghost predicate Rising(key: string, s: seq<Observation>) {
    forall i, j :: 0 <= i < j < |s| && Stage(s[i].table) == Stage(s[j].table) ==> Score(key, s[i]) <= Score(key, s[j])
  }

  ghost predicate AtStage(s: seq<Observation>, n: nat) {
    forall o <- s :: Stage(o.table) == n
  }

  ghost predicate UpToStage(s: seq<Observation>, n: nat) {
    forall o <- s :: Stage(o.table) <= n
  }

  lemma NextStage(s: seq<Observation>, more: seq<Observation>, n: nat, key: string)
    requires Staged(s) && UpToStage(s, n) && AtStage(more, n + 1)
    ensures Staged(s + more) && UpToStage(s + more, n + 1)
    ensures Rising(key, s) && Rising(key, more) ==> Rising(key, s + more)
  {
    var all := s + more;
    assert forall i :: 0 <= i < |s| ==> all[i] == s[i] && s[i] in s;
    assert forall i :: |s| <= i < |all| ==> all[i] == more[i - |s|] && more[i - |s|] in more;
  }

  lemma ObservedAtStage(t: Table, q: Request, rows: seq<Row>)
    ensures AtStage(Observed(t, q, rows), Turn(t))
  {
    ObservedContents(t, q, rows);
    StageOfTable(t);
  }

  lemma OneStage(s: seq<Observation>, n: nat)
    requires AtStage(s, n)
    ensures Staged(s) && UpToStage(s, n)
  {
    assert forall i :: 0 <= i < |s| ==> s[i] in s;
  }

  lemma NextStages(s: seq<Observation>, a: seq<Observation>, b: seq<Observation>, c: seq<Observation>, n: nat,
                   key: string)
    requires Staged(s) && UpToStage(s, n) && AtStage(a, n + 1) && AtStage(b, n + 2) && AtStage(c, n + 3)
    ensures Staged(s + a + b + c) && UpToStage(s + a + b + c, n + 3)
    ensures Rising(key, s) && Rising(key, a) && Rising(key, b) && Rising(key, c) ==> Rising(key, s + a + b + c)
  {
    NextStage(s, a, n, key);
    NextStage(s + a, b, n + 1, key);
    NextStage(s + a + b, c, n + 2, key);
  }

  /** The tables read, one after the other. */
  lemma ReadIsStaged(q: Request, rows: Table -> seq<Row>, key: string)
    ensures Staged(Read(q, rows)) && UpToStage(Read(q, rows), 6)
    ensures (forall t: Table :: Rising(key, Observed(t, q, rows(t)))) ==> Rising(key, Read(q, rows))
  {
    forall t: Table
      ensures AtStage(Observed(t, q, rows(t)), Turn(t))
    {
      ObservedAtStage(t, q, rows(t));
    }
    var first := Observed(MasterCustomer, q, rows(MasterCustomer));
    var customers, addresses := Observed(PsCustomer, q, rows(PsCustomer)), Observed(PsAddress, q, rows(PsAddress));
    var orders, cases := Observed(PsOrders, q, rows(PsOrders)), Observed(Cases, q, rows(Cases));
    var inbound := Observed(InboundMessages, q, rows(InboundMessages));
    OneStage(first, 0);
    NextStages(first, customers, addresses, orders, 0, key);
    NextStages(first + customers + addresses + orders, cases, inbound,
               Observed(ConversationMessages, q, rows(ConversationMessages)), 3, key);
  }

  /** The evidence is staged, and rises if it does so table by table. */
  lemma EvidenceIsStaged(q: Request, rows: Table -> seq<Row>, key: string)
    ensures Staged(Evidence(q, rows))
    ensures (forall t: Table :: Rising(key, Observed(t, q, rows(t)))) ==> Rising(key, Evidence(q, rows))
  {
    ReadIsStaged(q, rows, key);
    StageOfSynthetic(q);
    NextStage(Read(q, rows), if SyntheticObservation(q).Some? then [SyntheticObservation(q).value] else [], 6, key);
  }

  // ----- an arrangement of the rows that favours one customer

  /** The score of what is observed in a row. */
  function RowScore(t: Table, q: Request, key: string, row: Row): int {
    var o := Observe(t, q, row);
    if o.Some? then Score(key, o.value) else 0
  }

  function ByScore(t: Table, q: Request, key: string): (Row, Row) -> bool {
    (a: Row, b: Row) => RowScore(t, q, key, a) < RowScore(t, q, key, b)
  }

  /** In each table the rows that speak for `key` come first, highest ranks in front; of the others the lowest do. */
  function Arranged(q: Request, rows: Table -> seq<Row>, key: string): Table -> seq<Row> {
    (t: Table) => Sort(rows(t), ByScore(t, q, key))
  }

  lemma RisingAppend(key: string, s: seq<Observation>, o: Observation)
    requires Rising(key, s) && forall x <- s :: Score(key, x) <= Score(key, o)
    ensures Rising(key, s + [o])
  {
    assert forall i :: 0 <= i < |s| ==> (s + [o])[i] == s[i] && s[i] in s;
  }

  lemma {:induction false} ObservedRises(t: Table, q: Request, key: string, rows: seq<Row>)
    requires forall i, j :: 0 <= i < j < |rows| ==> RowScore(t, q, key, rows[i]) <= RowScore(t, q, key, rows[j])
    ensures Rising(key, Observed(t, q, rows))
  {
    if rows != [] {
      var front, last := rows[..|rows| - 1], Observe(t, q, rows[|rows| - 1]);
      ObservedRises(t, q, key, front);
      if last.Some? {
        ObservedContents(t, q, front);
        forall o | o in Observed(t, q, front)
          ensures Score(key, o) <= Score(key, last.value)
        {
          var row :| row in front && Observe(t, q, row) == Some(o);
          var i :| 0 <= i < |front| && front[i] == row;
          assert rows[i] == row;
        }
        RisingAppend(key, Observed(t, q, front), last.value);
      }
    }
  }

  lemma ArrangedRises(q: Request, rows: Table -> seq<Row>, key: string)
    ensures SameRows(rows, Arranged(q, rows, key))
    ensures Rising(key, Evidence(q, Arranged(q, rows, key)))
  {
    var arranged := Arranged(q, rows, key);
    forall t: Table
      ensures multiset(rows(t)) == multiset(arranged(t)) && Rising(key, Observed(t, q, arranged(t)))
    {
      SortContents(rows(t), ByScore(t, q, key));
      assert WeakOrder(rows(t), ByScore(t, q, key));
      SortSorts(rows(t), ByScore(t, q, key));
      ObservedRises(t, q, key, arranged(t));
    }
    EvidenceIsStaged(q, arranged, key);
  }

  // ----- what deduplication keeps stands first

  lemma {:induction false} DedupeInOrder(s: seq<Observation>, i: nat, j: nat) returns (i': nat, j': nat)
    requires i < j < |Dedupe(s)|
    ensures i' < j' < |s| && s[i'] == Dedupe(s)[i] && s[j'] == Dedupe(s)[j]
  {
    var front := s[..|s| - 1];
    if j < |Dedupe(front)| {
      i', j' := DedupeInOrder(front, i, j);
    } else {
      DedupeIsDistinct(front);
      assert Dedupe(front)[i] in front;
      i' :| 0 <= i' < |front| && front[i'] == Dedupe(front)[i];
      j' := |s| - 1;
    }
  }

  lemma DedupedKeepsOrder(s: seq<Observation>, key: string)
    ensures Staged(s) ==> Staged(Dedupe(s))
    ensures Rising(key, s) ==> Rising(key, Dedupe(s))
  {
    forall i: nat, j: nat | i < j < |Dedupe(s)|
      ensures Staged(s) ==> Stage(Dedupe(s)[i].table) <= Stage(Dedupe(s)[j].table)
      ensures Rising(key, s) && Stage(Dedupe(s)[i].table) == Stage(Dedupe(s)[j].table) ==>
        Score(key, Dedupe(s)[i]) <= Score(key, Dedupe(s)[j])
    {
      var i', j' := DedupeInOrder(s, i, j);
    }
  }

  /** What deduplication keeps for an observation: of the same bucket and table, and of no higher score. */
  lemma KeptStandsFirst(q: Request, s: seq<Observation>, o: Observation, key: string) returns (kept: Observation)
    requires NormalRequest(q) && Readings(q, s) && PlainRecords(s) && o in s
    ensures kept in Dedupe(s) && ObservationKey(kept) == ObservationKey(o)
    ensures BucketKey(kept) == BucketKey(o) && kept.table == o.table
    ensures Rising(key, s) ==> Score(key, kept) <= Score(key, o)
  {
    DedupeKeepsFirsts(s, ObservationKey(o));
    FirstWithAppend(s, [], ObservationKey(o));
    FirstWithAppend(Dedupe(s), [], ObservationKey(o));
    var m := FirstStandsFirst(s, ObservationKey(o));
    kept := s[m];
    var d := FirstStandsFirst(Dedupe(s), ObservationKey(o));
    EqualKeysAreAlike(q, o, kept);
    var i :| 0 <= i < |s| && s[i] == o;
  }

  // ----- which customer is safe from the order of rows

  /** Some observation of customer `a` is of an earlier table than all of customer `b`. */
  ghost predicate InEarlierTable(s: seq<Observation>, a: string, b: string) {
    exists x <- s :: BucketKey(x) == a && forall y <- s :: BucketKey(y) == b ==> Stage(x.table) < Stage(y.table)
  }

  /**
   Customer `a` has an observation that outranks all of customer `b`, or equals the best of them and
   is helped by an earlier table; so do its twins, of which deduplication may keep any.
   */
  ghost predicate Beats(s: seq<Observation>, a: string, b: string) {
    exists x <- s :: BucketKey(x) == a
      && forall x', y :: x' in s && y in s && ObservationKey(x') == ObservationKey(x) && BucketKey(y) == b ==>
           Rank(x') > Rank(y) || (Rank(x') == Rank(y) && InEarlierTable(s, a, b))
  }

  /** An eligible customer that beats every other one. */
  ghost predicate Unrivalled(s: seq<Observation>, a: string) {
    a in EligibleKeys(s) && forall b <- EligibleKeys(s) :: b != a ==> Beats(s, a, b)
  }

  lemma EligibleIsKept(q: Request, s: seq<Observation>)
    requires NormalRequest(q) && Readings(q, s) && PlainRecords(s)
    ensures EligibleKeys(Dedupe(s)) == EligibleKeys(s)
  {
    DedupeIsDistinct(s);
    forall o | o in s
      ensures IsStrong(o) ==> BucketKey(o) in KeysWith(IsStrong, Dedupe(s))
      ensures IsProvisional(o) ==> BucketKey(o) in KeysWith(IsProvisional, Dedupe(s))
    {
      var kept := Representative(q, s, o);
    }
    assert KeysWith(IsStrong, Dedupe(s)) == KeysWith(IsStrong, s);
    assert KeysWith(IsProvisional, Dedupe(s)) == KeysWith(IsProvisional, s);
  }

  /** A bucket as good as a best one is a best one. */
  lemma AsGoodAsBest(s: seq<Observation>, x: Observation, y: Observation)
    requires x in s && BucketKey(x) in EligibleKeys(s) && Rank(x) >= Rank(y)
    requires forall o <- s :: BucketKey(o) in EligibleKeys(s) ==> Rank(o) <= Rank(y)
    ensures Best(s, BucketKey(x))
  {
  }

  lemma EarlierTableComesFirst(q: Request, s: seq<Observation>, a: string, b: string)
    requires NormalRequest(q) && Readings(q, s) && PlainRecords(s) && Staged(s) && InEarlierTable(s, a, b)
    ensures !SeenBefore(Dedupe(s), b, a)
  {
    var x :| x in s && BucketKey(x) == a && forall y <- s :: BucketKey(y) == b ==> Stage(x.table) < Stage(y.table);
    var kept := KeptStandsFirst(q, s, x, "");
    DedupedKeepsOrder(s, "");
    DedupeIsDistinct(s);
    var d := Dedupe(s);
    var j :| 0 <= j < |d| && d[j] == kept;
    forall m | 0 <= m < |d| && BucketKey(d[m]) == b
      ensures j <= m
    {
      assert d[m] in s;
    }
  }

  /** Whatever deduplication keeps, something of `a` outranks `y`. */
  lemma KeptOutranks(q: Request, s: seq<Observation>, a: string, b: string, y: Observation) returns (kept: Observation)
    requires NormalRequest(q) && Readings(q, s) && PlainRecords(s) && Beats(s, a, b) && y in s && BucketKey(y) == b
    ensures kept in Dedupe(s) && BucketKey(kept) == a
    ensures Rank(kept) > Rank(y) || (Rank(kept) == Rank(y) && InEarlierTable(s, a, b))
  {
    var x :| x in s && BucketKey(x) == a
      && forall x', z :: x' in s && z in s && ObservationKey(x') == ObservationKey(x) && BucketKey(z) == b ==>
           Rank(x') > Rank(z) || (Rank(x') == Rank(z) && InEarlierTable(s, a, b));
    kept := KeptStandsFirst(q, s, x, "");
    DedupeIsDistinct(s);
  }

  /** A beaten customer is not selected. */
  lemma BeatenIsNotSelected(q: Request, s: seq<Observation>, a: string, b: string)
    requires NormalRequest(q) && Readings(q, s) && PlainRecords(s) && Staged(s) && !InConflict(Dedupe(s))
    requires a in EligibleKeys(s) && a != b && Beats(s, a, b)
    ensures KeyOf(Selected(Dedupe(s))) != Some(b)
  {
    var d := Dedupe(s);
    if KeyOf(Selected(d)) == Some(b) {
      EligibleIsKept(q, s);
      SelectedIsBest(d);
      DedupeIsDistinct(s);
      var y :| y in d && BucketKey(y) == b && forall o <- d :: BucketKey(o) in EligibleKeys(d) ==> Rank(o) <= Rank(y);
      var kept := KeptOutranks(q, s, a, b, y);
      AsGoodAsBest(d, kept, y);
      SelectedIsFirstBest(d, a);
      EarlierTableComesFirst(q, s, a, b);
    }
  }

  /** In an arrangement that favours `b` to the utmost, whoever is selected instead beats `b`. */
  lemma SelectedBeatsFavourite(q: Request, s: seq<Observation>, a: string, b: string)
    requires NormalRequest(q) && Readings(q, s) && PlainRecords(s) && Staged(s) && Rising(b, s)
    requires !InConflict(Dedupe(s)) && b in EligibleKeys(s) && a != b && KeyOf(Selected(Dedupe(s))) == Some(a)
    ensures Beats(s, a, b)
  {
    var d := Dedupe(s);
    EligibleIsKept(q, s);
    SelectedIsBest(d);
    DedupeIsDistinct(s);
    var x :| x in d && BucketKey(x) == a && forall o <- d :: BucketKey(o) in EligibleKeys(d) ==> Rank(o) <= Rank(x);
    forall x', y | x' in s && y in s && ObservationKey(x') == ObservationKey(x) && BucketKey(y) == b
      ensures Rank(x') > Rank(y) || (Rank(x') == Rank(y) && InEarlierTable(s, a, b))
    {
      FavouriteAtItsBest(q, s, a, b, x, x', y);
    }
  }

  lemma SameKeyOnce(d: seq<Observation>, a: Observation, b: Observation)
    requires DistinctKeys(d) && a in d && b in d && ObservationKey(a) == ObservationKey(b)
    ensures a == b
  {
    var i, j :| 0 <= i < |d| && 0 <= j < |d| && d[i] == a && d[j] == b;
  }

  lemma FavouriteAtItsBest(q: Request, s: seq<Observation>, a: string, b: string, x: Observation, x': Observation,
                           y: Observation)
    requires NormalRequest(q) && Readings(q, s) && PlainRecords(s) && Staged(s) && Rising(b, s)
    requires !InConflict(Dedupe(s)) && b in EligibleKeys(s) && a != b && KeyOf(Selected(Dedupe(s))) == Some(a)
    requires x in Dedupe(s) && BucketKey(x) == a
    requires forall o <- Dedupe(s) :: BucketKey(o) in EligibleKeys(Dedupe(s)) ==> Rank(o) <= Rank(x)
    requires x' in s && y in s && ObservationKey(x') == ObservationKey(x) && BucketKey(y) == b
    ensures Rank(x') > Rank(y) || (Rank(x') == Rank(y) && InEarlierTable(s, a, b))
  {
    var d := Dedupe(s);
    EligibleIsKept(q, s);
    DedupeIsDistinct(s);
    var first := KeptStandsFirst(q, s, x', b);
    SameKeyOnce(d, first, x);
    var kept := KeptStandsFirst(q, s, y, b);
    assert Rank(x') >= Rank(x) >= Rank(kept) >= Rank(y);
    if Rank(x') == Rank(y) {
      TiedInEarlierTable(q, s, a, b, x, kept);
    }
  }

  lemma TiedInEarlierTable(q: Request, s: seq<Observation>, a: string, b: string, x: Observation, kept: Observation)
    requires NormalRequest(q) && Readings(q, s) && PlainRecords(s) && Staged(s) && Rising(b, s)
    requires !InConflict(Dedupe(s)) && a != b && KeyOf(Selected(Dedupe(s))) == Some(a)
    requires kept in Dedupe(s) && BucketKey(kept) == b && b in EligibleKeys(Dedupe(s)) && Rank(kept) >= Rank(x)
    requires forall o <- Dedupe(s) :: BucketKey(o) in EligibleKeys(Dedupe(s)) ==> Rank(o) <= Rank(x)
    ensures InEarlierTable(s, a, b)
  {
    AsGoodAsBest(Dedupe(s), kept, x);
    SelectedIsFirstBest(Dedupe(s), b);
    SeenFirstInEarlierTable(q, s, a, b);
  }

  lemma SeenFirstInEarlierTable(q: Request, s: seq<Observation>, a: string, b: string)
    requires NormalRequest(q) && Readings(q, s) && PlainRecords(s) && Staged(s) && Rising(b, s)
    requires a != b && SeenBefore(Dedupe(s), a, b)
    ensures InEarlierTable(s, a, b)
  {
    var d := Dedupe(s);
    DedupeIsDistinct(s);
    DedupedKeepsOrder(s, b);
    var m :| 0 <= m < |d| && BucketKey(d[m]) == a && forall j :: 0 <= j <= m ==> BucketKey(d[j]) != b;
    assert d[m] in s;
    forall y | y in s && BucketKey(y) == b
      ensures Stage(d[m].table) < Stage(y.table)
    {
      var kept := KeptStandsFirst(q, s, y, b);
      var j :| 0 <= j < |d| && d[j] == kept;
    }
  }

  // ----- the theorem

  lemma SameElementsSameEligible(s: seq<Observation>, t: seq<Observation>)
    requires forall o :: o in s <==> o in t
    ensures EligibleKeys(t) == EligibleKeys(s)
  {
    assert KeysWith(IsStrong, s) == KeysWith(IsStrong, t);
    assert KeysWith(IsProvisional, s) == KeysWith(IsProvisional, t);
  }

  lemma SameElementsSameConflict(q: Request, s: seq<Observation>, t: seq<Observation>)
    requires NormalRequest(q) && Readings(q, s) && PlainRecords(s) && forall o :: o in s <==> o in t
    ensures InConflict(Dedupe(t)) == InConflict(Dedupe(s))
  {
    SameSetSameFacts(s, t);
    ConflictOfReadingsIff(q, s);
    ConflictOfReadingsIff(q, t);
  }

  /** Rows in another order: the same readings, the same conflict, the same eligible customers. */
  lemma SameAfterReordering(q: Request, rows: Table -> seq<Row>, rows': Table -> seq<Row>)
    requires NormalRequest(q) && PlainRecords(Evidence(q, rows)) && SameRows(rows, rows')
    ensures var s, t := Evidence(q, rows), Evidence(q, rows');
      && (forall o :: o in s <==> o in t) && Readings(q, t) && PlainRecords(t)
      && EligibleKeys(t) == EligibleKeys(s) && InConflict(Dedupe(t)) == InConflict(Dedupe(s))
  {
    SameEvidence(q, rows, rows');
    EvidenceIsReadings(q, rows);
    EvidenceIsReadings(q, rows');
    SameElementsSameEligible(Evidence(q, rows), Evidence(q, rows'));
    SameElementsSameConflict(q, Evidence(q, rows), Evidence(q, rows'));
  }

  lemma SameBeats(s: seq<Observation>, t: seq<Observation>, a: string, b: string)
    requires forall o :: o in s <==> o in t
    ensures Beats(s, a, b) ==> Beats(t, a, b)
  {
    assert InEarlierTable(s, a, b) ==> InEarlierTable(t, a, b);
  }

  /** The key in the answer, in terms of what was read. */
  lemma NamedInAnswer(q: Request, rows: Table -> seq<Row>, settings: Settings)
    requires NormalRequest(q) && PlainRecords(Evidence(q, rows))
    ensures var s := Evidence(q, rows);
      && Answer(q, rows, settings).customerKey
         == (if InConflict(Dedupe(s)) then None
             else if EligibleKeys(s) == {} then SyntheticKey(q) else KeyOf(Selected(Dedupe(s))))
      && (!InConflict(Dedupe(s)) && EligibleKeys(s) != {} ==>
            Selected(Dedupe(s)).Some? && Selected(Dedupe(s)).value.key in EligibleKeys(s))
  {
    var s := Evidence(q, rows);
    EvidenceIsReadings(q, rows);
    EligibleIsKept(q, s);
    NamedCustomer(Dedupe(s), SyntheticOf(q), settings);
  }

  /** An unrivalled customer is named in every order of the rows. */
  lemma UnrivalledIsNamed(q: Request, rows: Table -> seq<Row>, rows': Table -> seq<Row>, settings: Settings, a: string)
    requires NormalRequest(q) && PlainRecords(Evidence(q, rows)) && SameRows(rows, rows')
    requires !InConflict(Dedupe(Evidence(q, rows))) && Unrivalled(Evidence(q, rows), a)
    ensures Answer(q, rows', settings).customerKey == Some(a)
  {
    var s, t := Evidence(q, rows), Evidence(q, rows');
    SameAfterReordering(q, rows, rows');
    NamedInAnswer(q, rows', settings);
    EvidenceIsStaged(q, rows', "");
    var b := Selected(Dedupe(t)).value.key;
    if b != a {
      SameBeats(s, t, a, b);
      BeatenIsNotSelected(q, t, a, b);
    }
  }

  /** A customer that does not beat another gives way to it in some order of the rows. */
  lemma RivalCanReplace(q: Request, rows: Table -> seq<Row>, settings: Settings, a: string, b: string)
    requires NormalRequest(q) && PlainRecords(Evidence(q, rows)) && !InConflict(Dedupe(Evidence(q, rows)))
    requires b in EligibleKeys(Evidence(q, rows)) && a != b && !Beats(Evidence(q, rows), a, b)
    ensures SameRows(rows, Arranged(q, rows, b))
    ensures Answer(q, Arranged(q, rows, b), settings).customerKey != Some(a)
  {
    var arranged := Arranged(q, rows, b);
    var s, t := Evidence(q, rows), Evidence(q, arranged);
    ArrangedRises(q, rows, b);
    SameAfterReordering(q, rows, arranged);
    NamedInAnswer(q, arranged, settings);
    EvidenceIsStaged(q, arranged, b);
    if Answer(q, arranged, settings).customerKey == Some(a) {
      SelectedBeatsFavourite(q, t, a, b);
      SameBeats(t, s, a, b);
    }
  }

  /**
   The exact condition: whatever order the database gives the rows of each table in, the same
   customer is named, exactly when there is a conflict, or nobody is eligible, or one eligible
   customer beats all others: by rank, or at equal rank by an earlier table.
   */
  lemma CustomerIgnoresRowOrderIff(q: Request, rows: Table -> seq<Row>, settings: Settings)
    requires NormalRequest(q) && PlainRecords(Evidence(q, rows))
    ensures var s := Evidence(q, rows);
      (forall rows': Table -> seq<Row> | SameRows(rows, rows') ::
         Answer(q, rows', settings).customerKey == Answer(q, rows, settings).customerKey)
      <==> InConflict(Dedupe(s)) || EligibleKeys(s) == {} || exists a :: Unrivalled(s, a)
  {
    var s := Evidence(q, rows);
    NamedInAnswer(q, rows, settings);
    if InConflict(Dedupe(s)) || EligibleKeys(s) == {} {
      forall rows': Table -> seq<Row> | SameRows(rows, rows')
        ensures Answer(q, rows', settings).customerKey == Answer(q, rows, settings).customerKey
      {
        NobodyInAnyOrder(q, rows, rows', settings);
      }
    } else if a :| Unrivalled(s, a) {
      forall rows': Table -> seq<Row> | SameRows(rows, rows')
        ensures Answer(q, rows', settings).customerKey == Answer(q, rows, settings).customerKey
      {
        UnrivalledIsNamed(q, rows, rows, settings, a);
        UnrivalledIsNamed(q, rows, rows', settings, a);
      }
    } else {
      var a := Selected(Dedupe(s)).value.key;
      assert !Unrivalled(s, a);
      var b :| b in EligibleKeys(s) && b != a && !Beats(s, a, b);
      RivalCanReplace(q, rows, settings, a, b);
    }
  }

  lemma NobodyInAnyOrder(q: Request, rows: Table -> seq<Row>, rows': Table -> seq<Row>, settings: Settings)
    requires NormalRequest(q) && PlainRecords(Evidence(q, rows)) && SameRows(rows, rows')
    requires InConflict(Dedupe(Evidence(q, rows))) || EligibleKeys(Evidence(q, rows)) == {}
    ensures Answer(q, rows', settings).customerKey == Answer(q, rows, settings).customerKey
  {
    SameAfterReordering(q, rows, rows');
    NamedInAnswer(q, rows, settings);
    NamedInAnswer(q, rows', settings);
  }

  /** Observations with one key have one rank, so it does not matter which of them deduplication keeps. */
  ghost predicate NoUnequalTwins(s: seq<Observation>) {
    forall x, y :: x in s && y in s && ObservationKey(x) == ObservationKey(y) ==> Rank(x) == Rank(y)
  }

  lemma BestBeats(s: seq<Observation>, a: string, b: string)
    requires NoUnequalTwins(s) && Best(s, a) && b in EligibleKeys(s) && (Best(s, b) ==> InEarlierTable(s, a, b))
    ensures Beats(s, a, b)
  {
    var x :| x in s && BucketKey(x) == a && forall o <- s :: BucketKey(o) in EligibleKeys(s) ==> Rank(o) <= Rank(x);
    forall x', y | x' in s && y in s && ObservationKey(x') == ObservationKey(x) && BucketKey(y) == b
      ensures Rank(x') > Rank(y) || (Rank(x') == Rank(y) && InEarlierTable(s, a, b))
    {
      if Rank(y) >= Rank(x) {
        AsGoodAsBest(s, y, x);
      }
    }
  }

  /** Then the unrivalled customer is the only best one, or the only one seen in the earliest table with a best one. */
  lemma UnrivalledIff(s: seq<Observation>, a: string)
    requires NoUnequalTwins(s)
    ensures Unrivalled(s, a) <==> Best(s, a) && forall b :: Best(s, b) && b != a ==> InEarlierTable(s, a, b)
  {
    if Unrivalled(s, a) {
      UnrivalledIsBest(s, a);
    } else if Best(s, a) && a in EligibleKeys(s) {
      var b :| b in EligibleKeys(s) && b != a && !Beats(s, a, b);
      if Best(s, b) ==> InEarlierTable(s, a, b) {
        BestBeats(s, a, b);
      }
    }
  }

  lemma UnrivalledIsBest(s: seq<Observation>, a: string)
    requires Unrivalled(s, a)
    ensures Best(s, a) && forall b :: Best(s, b) && b != a ==> InEarlierTable(s, a, b)
  {
    var own := WithKey(s, a);
    var o :| o in s && BucketKey(o) == a;
    assert o in own;
    var i := PrimaryIsFirstBest(own);
    assert own[i] in own;
    forall y | y in s && BucketKey(y) in EligibleKeys(s)
      ensures Rank(y) <= Rank(own[i])
    {
      if BucketKey(y) == a {
        assert y in own;
      } else {
        var x := Outranking(s, a, BucketKey(y), y);
        assert x in own;
      }
    }
    forall b | Best(s, b) && b != a
      ensures InEarlierTable(s, a, b)
    {
      var y :| y in s && BucketKey(y) == b && forall x <- s :: BucketKey(x) in EligibleKeys(s) ==> Rank(x) <= Rank(y);
      var x := Outranking(s, a, b, y);
    }
  }

  lemma Outranking(s: seq<Observation>, a: string, b: string, y: Observation) returns (x: Observation)
    requires Beats(s, a, b) && y in s && BucketKey(y) == b
    ensures x in s && BucketKey(x) == a && Rank(x) >= Rank(y)
    ensures Rank(x) == Rank(y) ==> InEarlierTable(s, a, b)
  {
    x :| x in s && BucketKey(x) == a
      && forall x', z :: x' in s && z in s && ObservationKey(x') == ObservationKey(x) && BucketKey(z) == b ==>
           Rank(x') > Rank(z) || (Rank(x') == Rank(z) && InEarlierTable(s, a, b));
  }
}
