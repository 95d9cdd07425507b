/**
 The conversation timeline: the messages on screen are replaced by last-write-wins merges of
 themselves with a message just sent or with a batch of older ones.
 */
module Timeline {
  import opened Options
  import opened Sequences
  import opened Sorting

  /** `occurredAt` is the parsed time; a missing or empty one counts as zero. */
  datatype Message = Message(key: string, occurredAt: Option<int>, body: string)

  /** Whether one key comes before another in the order of the locale. */
  type KeyOrder = (string, string) -> bool

  ghost predicate StrictTotal(less: KeyOrder) {
    && (forall a, b :: less(a, b) ==> !less(b, a))
    && (forall a, b :: a != b ==> less(a, b) || less(b, a))
    && (forall a, b, c :: less(a, b) && less(b, c) ==> less(a, c))
  }

  function Time(m: Message): int {
    m.occurredAt.GetOr(0)
  }

  function Before(less: KeyOrder): (Message, Message) -> bool {
    (a: Message, b: Message) => if Time(a) != Time(b) then Time(a) < Time(b) else less(a.key, b.key)
  }

  /** At a smaller time, a missing one counting as zero, or at the same time and with a key that comes first. */
  ghost predicate Earlier(a: Message, b: Message, less: KeyOrder) {
    var x := if a.occurredAt.Some? then a.occurredAt.value else 0;
    var y := if b.occurredAt.Some? then b.occurredAt.value else 0;
    x < y || (x == y && less(a.key, b.key))
  }

  /** What a map holds after all messages have been set under their keys. */
  function LastByKey(messages: seq<Message>): map<string, Message> {
    if messages == [] then map[]
    else
      var last := messages[|messages| - 1];
      LastByKey(messages[..|messages| - 1])[last.key := last]
  }

  /** The keys of a JavaScript map keep the place of their first insertion. */
  function KeyOrderOf(messages: seq<Message>): seq<string> {
    if messages == [] then []
    else
      var front, last := KeyOrderOf(messages[..|messages| - 1]), messages[|messages| - 1];
      if last.key in front then front else front + [last.key]
  }

  lemma {:induction false} MapOfMessages(messages: seq<Message>)
    ensures LastByKey(messages).Keys == set key <- KeyOrderOf(messages)
    ensures Distinct(KeyOrderOf(messages))
    ensures forall key <- LastByKey(messages) ::
      LastByKey(messages)[key].key == key && LastByKey(messages)[key] in messages
  {
    if messages != [] {
      var front := messages[..|messages| - 1];
      SplitLast(messages);
      MapOfMessages(front);
      assert forall m <- front :: m in messages;
    }
  }

  ghost function Values(messages: seq<Message>): (r: seq<Message>)
    ensures |r| == |KeyOrderOf(messages)|
    ensures forall i :: 0 <= i < |r| ==>
      var key := KeyOrderOf(messages)[i];
      key in LastByKey(messages) && r[i] == LastByKey(messages)[key] && r[i].key == key
  {
    MapOfMessages(messages);
    assert forall key <- KeyOrderOf(messages) :: key in LastByKey(messages).Keys;
    var order := KeyOrderOf(messages);
    seq(|order|, i requires 0 <= i < |order| => LastByKey(messages)[order[i]])
  }

  ghost function Merge(messages: seq<Message>, less: KeyOrder): seq<Message> {
    Sort(Values(messages), Before(less))
  }

  method DedupeSort(messages: seq<Message>, less: KeyOrder) returns (r: seq<Message>)
    ensures r == Merge(messages, less)
  {
    var keys: seq<string> := [];
    var byKey: map<string, Message> := map[];
    for k := 0 to |messages|
      invariant byKey == LastByKey(messages[..k]) && keys == KeyOrderOf(messages[..k])
    {
      assert messages[..k + 1][..k] == messages[..k];
      if messages[k].key !in keys {
        keys := keys + [messages[k].key];
      }
      byKey := byKey[messages[k].key := messages[k]];
    }
    assert messages[..|messages|] == messages;
    MapOfMessages(messages);
    var values: seq<Message> := [];
    for k := 0 to |keys|
      invariant |values| == k && forall i :: 0 <= i < k ==> values[i] == Values(messages)[i]
    {
      assert keys[k] in KeyOrderOf(messages);
      values := values + [byKey[keys[k]]];
    }
    assert values == Values(messages);
    r := Sort(values, Before(less));
  }

  // ----- the merge is canonical

  lemma BeforeIsWeakOrder(s: seq<Message>, less: KeyOrder)
    requires StrictTotal(less)
    ensures WeakOrder(s, Before(less))
  {
    forall a, b | a in s && b in s && Before(less)(a, b)
      ensures !Before(less)(b, a)
    {
      assert less(a.key, b.key) ==> !less(b.key, a.key);
    }
    forall a, b, c | a in s && b in s && c in s && Before(less)(a, c)
      ensures Before(less)(a, b) || Before(less)(b, c)
    {
      assert a.key != b.key ==> less(a.key, b.key) || less(b.key, a.key);
      assert less(b.key, a.key) && less(a.key, c.key) ==> less(b.key, c.key);
    }
  }

  lemma MergeContents(messages: seq<Message>, less: KeyOrder)
    ensures forall m :: m in Merge(messages, less) <==> m.key in LastByKey(messages) && LastByKey(messages)[m.key] == m
  {
    var values := Values(messages);
    MapOfMessages(messages);
    SortContents(values, Before(less));
    forall m: Message
      ensures m in values <==> m.key in LastByKey(messages) && LastByKey(messages)[m.key] == m
    {
      if m.key in LastByKey(messages) && LastByKey(messages)[m.key] == m {
        var i :| 0 <= i < |KeyOrderOf(messages)| && KeyOrderOf(messages)[i] == m.key;
        assert values[i] == m;
      }
      if m in values {
        var i :| 0 <= i < |values| && values[i] == m;
        assert KeyOrderOf(messages)[i] in KeyOrderOf(messages);
      }
    }
  }

  /** The message is in the list, and none after it has its key. */
  ghost predicate LastOfItsKey(messages: seq<Message>, m: Message) {
    exists i :: 0 <= i < |messages| && messages[i] == m && forall j :: i < j < |messages| ==> messages[j].key != m.key
  }

  lemma LastOfItsKeyStep(front: seq<Message>, last: Message, m: Message)
    ensures LastOfItsKey(front + [last], m) <==> last == m || (last.key != m.key && LastOfItsKey(front, m))
  {
    var all := front + [last];
    assert all[|front|] == last && forall k :: 0 <= k < |front| ==> all[k] == front[k];
    if i :| last.key != m.key && 0 <= i < |front| && front[i] == m
            && forall j :: i < j < |front| ==> front[j].key != m.key {
      assert all[i] == m;
    }
    if i :| 0 <= i < |all| && all[i] == m && forall j :: i < j < |all| ==> all[j].key != m.key {
      assert i < |front| ==> front[i] == m && forall j :: i < j < |front| ==> front[j].key != m.key;
    }
  }

  lemma {:induction false} LastByKeyIsLast(messages: seq<Message>, m: Message)
    ensures m.key in LastByKey(messages) && LastByKey(messages)[m.key] == m <==> LastOfItsKey(messages, m)
  {
    if messages != [] {
      var front, last := messages[..|messages| - 1], messages[|messages| - 1];
      LastByKeyIsLast(front, m);
      LastOfItsKeyStep(front, last, m);
      assert front + [last] == messages;
    }
  }

  /** The merge holds a message exactly if it is in the list and no later one has its key. */
  lemma MergeHoldsLast(messages: seq<Message>, less: KeyOrder, m: Message)
    ensures m in Merge(messages, less) <==> LastOfItsKey(messages, m)
  {
    MergeContents(messages, less);
    LastByKeyIsLast(messages, m);
  }

  lemma EarlierIff(a: Message, b: Message, less: KeyOrder)
    ensures Before(less)(a, b) <==> Earlier(a, b, less)
  {
    var before := Before(less);
    assert before(a, b) <==> if Time(a) != Time(b) then Time(a) < Time(b) else less(a.key, b.key);
  }

  /** The merged timeline is strictly sorted by (time, key), so no key is shown twice. */
  lemma MergeIsStrictlySorted(messages: seq<Message>, less: KeyOrder)
    requires StrictTotal(less)
    ensures var r := Merge(messages, less);
      forall i, j :: 0 <= i < j < |r| ==>
        Earlier(r[i], r[j], less) && r[i].key != r[j].key && Before(less)(r[i], r[j])
  {
    var r := Merge(messages, less);
    BeforeIsWeakOrder(Values(messages), less);
    SortSorts(Values(messages), Before(less));
    MapOfMessages(messages);
    MergeContents(messages, less);
    SortKeepsDistinct(Values(messages), Before(less));
    forall i, j | 0 <= i < j < |r|
      ensures Earlier(r[i], r[j], less) && r[i].key != r[j].key && Before(less)(r[i], r[j])
    {
      EarlierIff(r[i], r[j], less);
      assert r[i] in r && r[j] in r && r[i] != r[j];
    }
  }

  lemma SortKeepsDistinct(values: seq<Message>, before: (Message, Message) -> bool)
    requires Distinct(values)
    ensures Distinct(Sort(values, before))
  {
    SortContents(values, before);
    forall i, j | 0 <= i < j < |values|
      ensures Sort(values, before)[i] != Sort(values, before)[j]
    {
      DistinctCount(values, Sort(values, before)[i]);
      RepeatedCount(Sort(values, before), i, j);
    }
  }

  lemma {:induction false} DistinctCount<A(!new)>(s: seq<A>, x: A)
    requires Distinct(s)
    ensures multiset(s)[x] <= 1
  {
    if s != [] {
      SplitLast(s);
      DistinctCount(s[..|s| - 1], x);
      assert s[|s| - 1] !in s[..|s| - 1];
    }
  }

  lemma RepeatedCount<A>(s: seq<A>, i: nat, j: nat)
    requires i < j < |s|
    ensures s[i] == s[j] ==> multiset(s)[s[i]] >= 2
  {
    assert s == s[..j] + s[j..];
    assert s[i] in s[..j] && s[j] in s[j..];
    assert multiset(s)[s[i]] == multiset(s[..j])[s[i]] + multiset(s[j..])[s[i]];
  }

  /** Two lists of messages show the same timeline exactly when they end in the same message for each key. */
  lemma SameTimelineIff(a: seq<Message>, b: seq<Message>, less: KeyOrder)
    requires StrictTotal(less)
    ensures Merge(a, less) == Merge(b, less) <==> LastByKey(a) == LastByKey(b)
  {
    MergeContents(a, less);
    MergeContents(b, less);
    MapOfMessages(a);
    MapOfMessages(b);
    if LastByKey(a) == LastByKey(b) {
      MergeIsStrictlySorted(a, less);
      MergeIsStrictlySorted(b, less);
      StrictlySortedUnique(Merge(a, less), Merge(b, less), Before(less));
    }
    if Merge(a, less) == Merge(b, less) {
      forall key
        ensures key in LastByKey(a) <==> key in LastByKey(b)
        ensures key in LastByKey(a) ==> LastByKey(a)[key] == LastByKey(b)[key]
      {
        assert key in LastByKey(a) ==> LastByKey(a)[key] in Merge(a, less);
        assert key in LastByKey(b) ==> LastByKey(b)[key] in Merge(b, less);
      }
    }
  }

  lemma {:induction false} LastOfDistinct(s: seq<Message>, m: Message)
    requires forall i, j :: 0 <= i < j < |s| ==> s[i].key != s[j].key
    ensures m in s ==> m.key in LastByKey(s) && LastByKey(s)[m.key] == m
    ensures forall key <- LastByKey(s) :: LastByKey(s)[key] in s && LastByKey(s)[key].key == key
  {
    if s != [] {
      SplitLast(s);
      LastOfDistinct(s[..|s| - 1], m);
      assert forall x <- s[..|s| - 1] :: x in s;
    }
  }

  lemma LastOfMerge(messages: seq<Message>, less: KeyOrder)
    requires StrictTotal(less)
    ensures LastByKey(Merge(messages, less)) == LastByKey(messages)
  {
    var r := Merge(messages, less);
    MergeIsStrictlySorted(messages, less);
    MergeContents(messages, less);
    MapOfMessages(messages);
    MapOfMessages(r);
    forall key
      ensures key in LastByKey(r) <==> key in LastByKey(messages)
      ensures key in LastByKey(r) ==> LastByKey(r)[key] == LastByKey(messages)[key]
    {
      if key in LastByKey(messages) {
        LastOfDistinct(r, LastByKey(messages)[key]);
      }
    }
  }

  lemma {:induction false} LastOfAppend(a: seq<Message>, b: seq<Message>)
    ensures LastByKey(a + b) == LastByKey(a) + LastByKey(b)
  {
    if b == [] {
      assert a + b == a;
    } else {
      assert (a + b)[..|a + b| - 1] == a + b[..|b| - 1];
      LastOfAppend(a, b[..|b| - 1]);
    }
  }

  /** Merging a merged timeline with more, on either side, is merging everything at once. */
  lemma MergeInStages(a: seq<Message>, b: seq<Message>, less: KeyOrder)
    requires StrictTotal(less)
    ensures Merge(Merge(a, less) + b, less) == Merge(a + b, less)
    ensures Merge(b + Merge(a, less), less) == Merge(b + a, less)
  {
    LastOfMerge(a, less);
    LastOfAppend(Merge(a, less), b);
    LastOfAppend(a, b);
    LastOfAppend(b, Merge(a, less));
    LastOfAppend(b, a);
    SameTimelineIff(Merge(a, less) + b, a + b, less);
    SameTimelineIff(b + Merge(a, less), b + a, less);
  }

  // ----- the workspace

  /** The time of the first message shown, if there is one with a time. */
  function OldestTime(messages: seq<Message>): Option<int> {
    if messages == [] then None else messages[0].occurredAt
  }

  /** The answer to a request for older messages; `None` stands for a failed request. */
  datatype Payload = Payload(messages: seq<Message>, truncated: bool)

  class Workspace {
    const less: KeyOrder
    var messages: seq<Message>
    var truncated: bool
    var loadingOlder: bool

    constructor (messages: seq<Message>, truncated: bool, less: KeyOrder)
      ensures this.less == less && this.messages == messages && this.truncated == truncated && !loadingOlder
    {
      this.messages, this.truncated, this.loadingOlder, this.less := messages, truncated, false, less;
    }

    method HandleSent(message: Message)
      modifies `messages
      ensures messages == Apply(old(messages), Sent(message), less)
    {
      messages := DedupeSort(messages + [message], less);
    }

    /**
     Up to the request. The handler goes by what the page showed when it was last drawn: nothing is
     asked for if a request was running then, or without a time to start from.
     */
    method BeginLoadOlder(shown: seq<Message>, busy: bool) returns (before: Option<int>)
      modifies `loadingOlder
      ensures before == if busy then None else OldestTime(shown)
      ensures loadingOlder == (old(loadingOlder) || before.Some?)
    {
      before := if shown == [] || busy then None else shown[0].occurredAt;
      if before.Some? {
        loadingOlder := true;
      }
    }

    /** From the answer on; other handlers may have run in between, and ended another request. */
    method FinishLoadOlder(answer: Option<Payload>)
      modifies this
      ensures !loadingOlder
      ensures messages == Apply(old(messages), Older(if answer.Some? then answer.value.messages else []), less)
      ensures truncated <==> answer.Some? && answer.value.truncated && answer.value.messages != []
    {
      match answer {
        case Some(payload) =>
          if |payload.messages| > 0 {
            messages := DedupeSort(payload.messages + messages, less);
          }
          truncated := payload.truncated && |payload.messages| > 0;
        case None =>
          truncated := false;
      }
      loadingOlder := false;
    }
  }

  // ----- every history of the workspace

  datatype Event = Sent(message: Message) | Older(batch: seq<Message>)

  ghost function Apply(messages: seq<Message>, e: Event, less: KeyOrder): seq<Message> {
    match e
    case Sent(message) => Merge(messages + [message], less)
    case Older(batch) => if batch == [] then messages else Merge(batch + messages, less)
  }

  /** A message just sent is shown, whatever was there. */
  lemma SentIsShown(messages: seq<Message>, m: Message, less: KeyOrder)
    ensures m in Apply(messages, Sent(m), less)
  {
    MergeHoldsLast(messages + [m], less, m);
    LastOfItsKeyStep(messages, m, m);
  }

  /** Older messages only fill in: none replaces a message that is shown under its key. */
  lemma LoadedFillsIn(messages: seq<Message>, batch: seq<Message>, less: KeyOrder, m: Message)
    requires m in Apply(messages, Older(batch), less)
    ensures m in messages || (m in batch && forall x <- messages :: x.key != m.key)
  {
    if batch != [] {
      var all := batch + messages;
      MergeHoldsLast(all, less, m);
      var i :| 0 <= i < |all| && all[i] == m && forall j :: i < j < |all| ==> all[j].key != m.key;
      assert forall k :: 0 <= k < |messages| ==> messages[k] == all[|batch| + k];
    }
  }

  ghost function After(initial: seq<Message>, events: seq<Event>, less: KeyOrder): seq<Message> {
    if events == [] then initial else Apply(After(initial, events[..|events| - 1], less), events[|events| - 1], less)
  }

  /** The messages sent, in order. */
  function SentMessages(events: seq<Event>): seq<Message> {
    if events == [] then []
    else SentMessages(events[..|events| - 1]) + match events[|events| - 1] case Sent(m) => [m] case Older(_) => []
  }

  /** The older messages loaded: each batch stands before the earlier ones. */
  function OlderMessages(events: seq<Event>): seq<Message> {
    if events == [] then []
    else
      (match events[|events| - 1] case Sent(_) => [] case Older(batch) => batch)
      + OlderMessages(events[..|events| - 1])
  }

  function Everything(initial: seq<Message>, events: seq<Event>): seq<Message> {
    OlderMessages(events) + initial + SentMessages(events)
  }

  predicate Effective(e: Event) {
    e.Sent? || e.batch != []
  }

  /** Some handler has replaced the messages that the page was rendered with. */
  predicate Touched(events: seq<Event>) {
    exists e <- events :: Effective(e)
  }

  function With(messages: seq<Message>, e: Event): seq<Message> {
    match e
    case Sent(m) => messages + [m]
    case Older(batch) => batch + messages
  }

  lemma EverythingStep(initial: seq<Message>, events: seq<Event>)
    requires events != []
    ensures var front, last := events[..|events| - 1], events[|events| - 1];
      && Everything(initial, events) == With(Everything(initial, front), last)
      && (Touched(events) <==> Touched(front) || Effective(last))
  {
    SplitLast(events);
    assert events[|events| - 1] in events;
    assert forall e <- events[..|events| - 1] :: e in events;
  }

  lemma ApplyToMerge(messages: seq<Message>, e: Event, less: KeyOrder)
    requires StrictTotal(less)
    ensures Apply(Merge(messages, less), e, less) == Merge(With(messages, e), less)
    ensures Effective(e) ==> Apply(messages, e, less) == Merge(With(messages, e), less)
    ensures !Effective(e) ==> Apply(messages, e, less) == messages == With(messages, e)
  {
    match e
    case Sent(m) => MergeInStages(messages, [m], less);
    case Older(batch) =>
      MergeInStages(messages, batch, less);
      assert [] + messages == messages;
  }

  /**
   However sending and loading interleave, the timeline is one merge of everything: older
   batches before the initial messages, sent messages after them.
   */
  lemma {:induction false} HistoryIsOneMerge(initial: seq<Message>, events: seq<Event>, less: KeyOrder)
    requires StrictTotal(less)
    ensures After(initial, events, less)
      == if Touched(events) then Merge(Everything(initial, events), less) else initial
    ensures !Touched(events) ==> Everything(initial, events) == initial
  {
    if events != [] {
      var front := events[..|events| - 1];
      HistoryIsOneMerge(initial, front, less);
      EverythingStep(initial, events);
      ApplyToMerge(Everything(initial, front), events[|events| - 1], less);
    }
  }

  ghost predicate ComesFirst(m: Message, shown: seq<Message>, less: KeyOrder) {
    m in shown && forall x <- shown :: x == m || Earlier(m, x, less)
  }

  lemma {:induction false} TouchedHasMessages(initial: seq<Message>, events: seq<Event>)
    requires Touched(events)
    ensures Everything(initial, events) != []
  {
    EverythingStep(initial, events);
    if !Effective(events[|events| - 1]) {
      TouchedHasMessages(initial, events[..|events| - 1]);
    }
  }

  /** A merged timeline shows something, and its first message comes before every other one. */
  lemma FirstShown(initial: seq<Message>, events: seq<Event>, less: KeyOrder)
    requires StrictTotal(less) && Touched(events)
    ensures var shown := After(initial, events, less); shown != [] && ComesFirst(shown[0], shown, less)
  {
    var all := Everything(initial, events);
    HistoryIsOneMerge(initial, events, less);
    TouchedHasMessages(initial, events);
    MergeIsStrictlySorted(all, less);
    MergeContents(all, less);
    var last := all[|all| - 1];
    assert LastByKey(all)[last.key] == last;
    assert last in After(initial, events, less);
  }

  /**
   Once a handler has merged the timeline, a request for older messages starts from the smallest
   time shown. A message without a time counts as the start of 1970 and blocks the request when it
   comes first; with all times after that, exactly when such a message is shown at all.
   */
  lemma RequestStartsAtOldest(initial: seq<Message>, events: seq<Event>, less: KeyOrder)
    requires StrictTotal(less) && Touched(events)
    ensures var shown := After(initial, events, less);
      var before := OldestTime(shown);
      && (before.Some? ==>
            (exists m <- shown :: m.occurredAt == before) && forall m <- shown :: before.value <= Time(m))
      && (before.None? <==> exists m <- shown :: m.occurredAt.None? && ComesFirst(m, shown, less))
      && ((forall m <- shown :: m.occurredAt.Some? ==> m.occurredAt.value > 0) ==>
            (before.None? <==> exists m <- shown :: m.occurredAt.None?))
  {
    FirstShown(initial, events, less);
    var shown := After(initial, events, less);
    assert forall m <- shown :: ComesFirst(m, shown, less) ==> m == shown[0] || Earlier(m, shown[0], less);
  }

  /** Only the order among sends and the order among loads can matter, not how the two interleave. */
  lemma InterleavingDoesNotMatter(initial: seq<Message>, a: seq<Event>, b: seq<Event>, less: KeyOrder)
    requires StrictTotal(less) && Touched(a) && Touched(b)
    requires SentMessages(a) == SentMessages(b) && OlderMessages(a) == OlderMessages(b)
    ensures After(initial, a, less) == After(initial, b, less)
  {
    HistoryIsOneMerge(initial, a, less);
    HistoryIsOneMerge(initial, b, less);
  }

  /** Equal keys mean equal messages. */
  ghost predicate Agree(messages: seq<Message>) {
    forall a, b :: a in messages && b in messages && a.key == b.key ==> a == b
  }

  lemma {:induction false} AgreeingLast(messages: seq<Message>, key: string)
    ensures key in LastByKey(messages) <==> exists m <- messages :: m.key == key
    ensures key in LastByKey(messages) ==> LastByKey(messages)[key] in messages && LastByKey(messages)[key].key == key
  {
    if messages != [] {
      SplitLast(messages);
      AgreeingLast(messages[..|messages| - 1], key);
      assert forall m <- messages[..|messages| - 1] :: m in messages;
    }
  }

  /** Convergence: if messages agree on equal keys, neither order nor batching of their arrival matters. */
  lemma TimelineConverges(initial: seq<Message>, a: seq<Event>, initial': seq<Message>, b: seq<Event>, less: KeyOrder)
    requires StrictTotal(less) && Touched(a) && Touched(b)
    requires forall m :: m in Everything(initial, a) <==> m in Everything(initial', b)
    requires Agree(Everything(initial, a))
    ensures After(initial, a, less) == After(initial', b, less)
  {
    HistoryIsOneMerge(initial, a, less);
    HistoryIsOneMerge(initial', b, less);
    AgreeingMerge(Everything(initial, a), Everything(initial', b), less);
  }

  lemma AgreeingMerge(x: seq<Message>, y: seq<Message>, less: KeyOrder)
    requires StrictTotal(less) && Agree(x) && forall m :: m in x <==> m in y
    ensures Merge(x, less) == Merge(y, less)
  {
    forall key
      ensures key in LastByKey(x) <==> key in LastByKey(y)
      ensures key in LastByKey(x) ==> LastByKey(x)[key] == LastByKey(y)[key]
    {
      AgreeingLast(x, key);
      AgreeingLast(y, key);
    }
    SameTimelineIff(x, y, less);
  }
}
