/**
 The bounded worker pool behind the live-autonomy runner: several cooperative `next()` loops
 share one cursor and one results array. A loop can only be overtaken while it is suspended at
 its `await`, so one step of the system is "the call this loop is awaiting settles": the loop
 pushes the value, then takes the next item or returns; a rejected call ends the loop instead.
 */
module WorkerPool {
  import opened Options
  import opened Sequences

  /** A `next()` loop: suspended at the call for item number `index`, or ended. */
  datatype Loop = Awaiting(index: nat) | Ended

  /** The value that the worker call for item number `index` resolved to. */
  datatype Completion<T> = Completion(index: nat, value: T)

  datatype State<T> = State(loops: seq<Loop>, cursor: nat, completed: seq<Completion<T>>, rejected: seq<nat>)

  datatype Event<T> = Resolve(loop: nat, value: T) | Reject(loop: nat)

  function Min(a: int, b: int): int {
    if a <= b then a else b
  }

  /** A length below one makes no loop at all. */
  function Width(n: nat, concurrency: int): nat {
    if Min(concurrency, n) <= 0 then 0 else Min(concurrency, n)
  }

  /** Loop `w` re-enters its `while`: it takes the next item, or returns when none is left. */
  function TakeNext<T>(s: State<T>, n: nat, w: nat): State<T>
    requires w < |s.loops|
  {
    if s.cursor < n then
      s.(loops := s.loops[w := Awaiting(s.cursor)], cursor := s.cursor + 1)
    else
      s.(loops := s.loops[w := Ended])
  }

  /** The first `k` loops have run up to their first `await`. */
  function Launched<T>(n: nat, k: nat): State<T>
  {
    if k == 0 then State([], 0, [], [])
    else
      var s := Launched<T>(n, k - 1);
      TakeNext(s.(loops := s.loops + [Ended]), n, |s.loops|)
  }

  function Start<T>(n: nat, concurrency: int): State<T> {
    Launched(n, Width(n, concurrency))
  }

  predicate Enabled<T>(s: State<T>, e: Event<T>) {
    e.loop < |s.loops| && s.loops[e.loop].Awaiting?
  }

  function Step<T>(s: State<T>, n: nat, e: Event<T>): State<T>
    requires Enabled(s, e)
  {
    var index := s.loops[e.loop].index;
    match e
    case Resolve(w, value) => TakeNext(s.(completed := s.completed + [Completion(index, value)]), n, w)
    case Reject(w) => s.(loops := s.loops[w := Ended], rejected := s.rejected + [index])
  }

  /** A schedule: each event settles a call that is pending when it happens. */
  predicate Legal<T>(n: nat, concurrency: int, events: seq<Event<T>>)
    decreases |events|, 0
  {
    events != [] ==>
      Legal(n, concurrency, events[..|events| - 1])
      && Enabled(After(n, concurrency, events[..|events| - 1]), events[|events| - 1])
  }

  function After<T>(n: nat, concurrency: int, events: seq<Event<T>>): State<T>
    requires Legal(n, concurrency, events)
    decreases |events|, 1
  {
    if events == [] then Start(n, concurrency)
    else Step(After(n, concurrency, events[..|events| - 1]), n, events[|events| - 1])
  }

  // ----- what the states are made of

  /** How many calls are pending. */
  function Busy(loops: seq<Loop>): (r: nat)
    ensures r <= |loops|
  {
    if loops == [] then 0 else Busy(loops[..|loops| - 1]) + if loops[|loops| - 1].Awaiting? then 1 else 0
  }

  /** How many loops are suspended at the call for item number `i`. */
  function Pending(loops: seq<Loop>, i: nat): nat {
    if loops == [] then 0
    else Pending(loops[..|loops| - 1], i) + if loops[|loops| - 1] == Awaiting(i) then 1 else 0
  }

  function Done<T>(s: State<T>): seq<nat> {
    Map((c: Completion<T>) => c.index, s.completed)
  }

  function Results<T>(s: State<T>): seq<T> {
    Map((c: Completion<T>) => c.value, s.completed)
  }

  /** In how many places item number `i` is: at a pending call, completed, or rejected. */
  function Places<T>(s: State<T>, i: nat): nat {
    Pending(s.loops, i) + multiset(Done(s))[i] + multiset(s.rejected)[i]
  }

  predicate Final<T>(s: State<T>) {
    forall l <- s.loops :: l.Ended?
  }

  /** What every reachable state of the pool satisfies. */
  ghost predicate Inv<T>(s: State<T>, n: nat, width: nat) {
    && |s.loops| == width <= n
    && s.cursor <= n
    && (forall i: nat :: Places(s, i) == if i < s.cursor then 1 else 0)
    && Busy(s.loops) + |s.completed| + |s.rejected| == s.cursor
    && Busy(s.loops) + |s.rejected| <= width
    && (s.cursor < n ==> Busy(s.loops) + |s.rejected| == width)
  }

  lemma {:induction false} BusyUpdate(loops: seq<Loop>, w: nat, l: Loop)
    requires w < |loops|
    ensures Busy(loops[w := l]) ==
      Busy(loops) + (if l.Awaiting? then 1 else 0) - (if loops[w].Awaiting? then 1 else 0)
  {
    var last := |loops| - 1;
    if w < last {
      assert loops[w := l][..last] == loops[..last][w := l];
      BusyUpdate(loops[..last], w, l);
    } else {
      assert loops[w := l][..last] == loops[..last];
    }
  }

  lemma {:induction false} PendingUpdate(loops: seq<Loop>, w: nat, l: Loop, i: nat)
    requires w < |loops|
    ensures Pending(loops[w := l], i) ==
      Pending(loops, i) + (if l == Awaiting(i) then 1 else 0) - (if loops[w] == Awaiting(i) then 1 else 0)
  {
    var last := |loops| - 1;
    if w < last {
      assert loops[w := l][..last] == loops[..last][w := l];
      PendingUpdate(loops[..last], w, l, i);
    } else {
      assert loops[w := l][..last] == loops[..last];
    }
  }

  lemma {:induction false} NoneBusy(loops: seq<Loop>)
    ensures Busy(loops) == 0 <==> forall l <- loops :: l.Ended?
    ensures Busy(loops) == 0 ==> forall i: nat :: Pending(loops, i) == 0
  {
    if loops != [] {
      SplitLast(loops);
      NoneBusy(loops[..|loops| - 1]);
      assert loops[|loops| - 1] in loops;
      assert forall l <- loops[..|loops| - 1] :: l in loops;
    }
  }

  lemma DoneAppend<T>(s: State<T>, c: Completion<T>)
    ensures Done(s.(completed := s.completed + [c])) == Done(s) + [c.index]
    ensures Results(s.(completed := s.completed + [c])) == Results(s) + [c.value]
  {
  }

  // ----- one step

  lemma TakeNextKeeps<T>(s: State<T>, n: nat, w: nat)
    requires w < |s.loops| && s.cursor <= n && s.loops[w].Ended?
    requires forall i: nat :: Places(s, i) == if i < s.cursor then 1 else 0
    ensures var t := TakeNext(s, n, w);
      && (forall i: nat :: Places(t, i) == if i < t.cursor then 1 else 0)
      && Busy(t.loops) == Busy(s.loops) + if s.cursor < n then 1 else 0
  {
    var t := TakeNext(s, n, w);
    BusyUpdate(s.loops, w, t.loops[w]);
    forall i: nat
      ensures Places(t, i) == if i < t.cursor then 1 else 0
    {
      PendingUpdate(s.loops, w, t.loops[w], i);
      assert Done(t) == Done(s) && Places(s, i) == if i < s.cursor then 1 else 0;
    }
  }

  lemma {:induction false} LaunchedInv<T>(n: nat, k: nat)
    requires k <= n
    ensures Inv(Launched<T>(n, k), n, k)
    ensures Launched<T>(n, k).cursor == k && Launched<T>(n, k).completed == [] && Launched<T>(n, k).rejected == []
  {
    if k > 0 {
      LaunchedInv<T>(n, k - 1);
      var s := Launched<T>(n, k - 1);
      var s' := s.(loops := s.loops + [Ended]);
      assert s'.loops[..k - 1] == s.loops;
      assert forall i: nat :: Places(s', i) == Places(s, i);
      TakeNextKeeps(s', n, k - 1);
    }
  }

  /** The call of loop `w` is over; the loop has not resumed yet. */
  function Settled<T>(s: State<T>, w: nat, outcome: Option<T>): State<T>
    requires w < |s.loops| && s.loops[w].Awaiting?
  {
    var index := s.loops[w].index;
    match outcome
    case Some(value) => s.(loops := s.loops[w := Ended], completed := s.completed + [Completion(index, value)])
    case None => s.(loops := s.loops[w := Ended], rejected := s.rejected + [index])
  }

  lemma SettledKeeps<T>(s: State<T>, w: nat, outcome: Option<T>)
    requires w < |s.loops| && s.loops[w].Awaiting?
    ensures var t := Settled(s, w, outcome);
      (forall i: nat :: Places(t, i) == Places(s, i)) && Busy(t.loops) == Busy(s.loops) - 1
  {
    var t := Settled(s, w, outcome);
    BusyUpdate(s.loops, w, Ended);
    if outcome.Some? {
      DoneAppend(s, Completion(s.loops[w].index, outcome.value));
    }
    forall i: nat
      ensures Places(t, i) == Places(s, i)
    {
      PendingUpdate(s.loops, w, Ended, i);
    }
  }

  lemma StepIsSettleThenTake<T>(s: State<T>, n: nat, e: Event<T>)
    requires Enabled(s, e)
    ensures Step(s, n, e) == match e
                             case Resolve(w, value) => TakeNext(Settled(s, w, Some(value)), n, w)
                             case Reject(w) => Settled(s, w, None)
  {
  }

  lemma StepKeepsInv<T>(s: State<T>, n: nat, width: nat, e: Event<T>)
    requires Inv(s, n, width) && Enabled(s, e)
    ensures Inv(Step(s, n, e), n, width)
    ensures var t := Step(s, n, e); |t.completed| + |t.rejected| == |s.completed| + |s.rejected| + 1
  {
    StepIsSettleThenTake(s, n, e);
    SettledKeeps(s, e.loop, if e.Resolve? then Some(e.value) else None);
    if e.Resolve? {
      TakeNextKeeps(Settled(s, e.loop, Some(e.value)), n, e.loop);
    }
  }

  /** In an invariant state the counts fix the number of pending calls, and when none is left. */
  lemma PendingNumber<T>(s: State<T>, n: nat, width: nat)
    requires Inv(s, n, width)
    ensures Busy(s.loops) == Min(width, n - |s.completed|) - |s.rejected|
    ensures Final(s) <==> |s.completed| + |s.rejected| == n || |s.rejected| == width
    ensures |s.completed| + |s.rejected| <= n
  {
    NoneBusy(s.loops);
  }

  /** The invariant holds after every schedule, and each event settles one call. */
  lemma {:induction false} AfterInv<T>(n: nat, concurrency: int, events: seq<Event<T>>)
    requires Legal(n, concurrency, events)
    ensures var s := After(n, concurrency, events);
      Inv(s, n, Width(n, concurrency)) && |s.completed| + |s.rejected| == |events|
    decreases |events|
  {
    if events == [] {
      LaunchedInv<T>(n, Width(n, concurrency));
    } else {
      var before := events[..|events| - 1];
      AfterInv(n, concurrency, before);
      StepKeepsInv(After(n, concurrency, before), n, Width(n, concurrency), events[|events| - 1]);
    }
  }

  // ----- every schedule

  /**
   After any schedule the items before the cursor split into pending, completed and rejected
   ones, each in exactly one of the three. There are as many loops as the smaller of concurrency
   and number of items says, and the number of pending calls is fixed by that and the counts alone.
   */
  lemma ReachableSplit<T>(n: nat, concurrency: int, events: seq<Event<T>>)
    requires Legal(n, concurrency, events)
    ensures var s := After(n, concurrency, events);
      && (forall i: nat :: Places(s, i) == if i < s.cursor then 1 else 0)
      && Busy(s.loops) == Min(Width(n, concurrency), n - |s.completed|) - |s.rejected|
      && |s.loops| == (if concurrency <= 0 then 0 else if concurrency < n then concurrency else n)
      && (if |s.loops| < n - |s.completed| then Busy(s.loops) == |s.loops| - |s.rejected|
          else Busy(s.loops) == n - |s.completed| - |s.rejected|)
  {
    var s := After(n, concurrency, events);
    AfterInv(n, concurrency, events);
    PendingNumber(s, n, Width(n, concurrency));
  }

  /** The bound the pool is named for: at no time are more calls pending than the concurrency allows. */
  lemma NeverMoreThanConcurrency<T>(n: nat, concurrency: int, events: seq<Event<T>>)
    requires Legal(n, concurrency, events)
    ensures var s := After(n, concurrency, events);
      && Busy(s.loops) <= n
      && (concurrency >= 0 ==> Busy(s.loops) <= concurrency)
      && (concurrency < 1 ==> s.loops == [] && s.completed == [] && s.rejected == [])
  {
    ReachableSplit(n, concurrency, events);
    AfterInv(n, concurrency, events);
  }

  /** The values that calls resolved to, in the order of the schedule. */
  ghost function Resolved<T>(events: seq<Event<T>>): seq<T> {
    if events == [] then []
    else
      Resolved(events[..|events| - 1])
      + match events[|events| - 1] case Resolve(_, value) => [value] case Reject(_) => []
  }

  /** Results are kept in the order in which their calls settled, whatever the order of the items. */
  lemma {:induction false} ResultsInOrderOfSettling<T>(n: nat, concurrency: int, events: seq<Event<T>>)
    requires Legal(n, concurrency, events)
    ensures Results(After(n, concurrency, events)) == Resolved(events)
    decreases |events|
  {
    if events == [] {
      LaunchedInv<T>(n, Width(n, concurrency));
    } else {
      var before, last := events[..|events| - 1], events[|events| - 1];
      var s := After(n, concurrency, before);
      ResultsInOrderOfSettling(n, concurrency, before);
      if last.Resolve? {
        DoneAppend(s, Completion(s.loops[last.loop].index, last.value));
      }
    }
  }

  /** While an item is left untaken no loop has ended by itself: as many have ended as calls were rejected. */
  lemma NoLoopEndsEarly<T>(n: nat, concurrency: int, events: seq<Event<T>>)
    requires Legal(n, concurrency, events)
    requires After(n, concurrency, events).cursor < n
    ensures var s := After(n, concurrency, events); |s.loops| - Busy(s.loops) == |s.rejected|
  {
    AfterInv(n, concurrency, events);
  }

  /**
   Termination over every schedule: never more than `n` events, some event is possible exactly
   until the state is final, and a state is final exactly when every item has settled or every
   loop has been ended by a rejection.
   */
  lemma EveryScheduleEnds<T(00)>(n: nat, concurrency: int, events: seq<Event<T>>)
    requires Legal(n, concurrency, events)
    ensures |events| <= n
    ensures var s := After(n, concurrency, events);
      && (Final(s) <==> forall e: Event<T> :: !Enabled(s, e))
      && (Final(s) <==> |events| == n || |s.rejected| == Width(n, concurrency))
      && (Final(s) <==> concurrency <= 0 || |events| == n || |s.rejected| == concurrency)
  {
    var s := After(n, concurrency, events);
    AfterInv(n, concurrency, events);
    PendingNumber(s, n, Width(n, concurrency));
    StuckExactlyWhenFinal(s);
  }

  lemma StuckExactlyWhenFinal<T(00)>(s: State<T>)
    ensures Final(s) <==> forall e: Event<T> :: !Enabled(s, e)
  {
    if Final(s) {
      forall e: Event<T> | e.loop < |s.loops|
        ensures !Enabled(s, e)
      {
        assert s.loops[e.loop] in s.loops;
      }
    } else {
      var i: nat :| i < |s.loops| && s.loops[i].Awaiting?;
      var e: Event<T> := Reject(i);
      assert Enabled(s, e);
    }
  }

  /** The numbers below `n`, in order. */
  function Indices(n: nat): (r: seq<nat>) {
    seq(n, i requires 0 <= i < n => i)
  }

  lemma {:induction false} IndicesCount(n: nat, i: nat)
    ensures multiset(Indices(n))[i] == if i < n then 1 else 0
  {
    if n > 0 {
      IndicesCount(n - 1, i);
      assert Indices(n) == Indices(n - 1) + [n - 1];
    }
  }

  lemma FinalDone<T>(s: State<T>, n: nat, width: nat)
    requires Inv(s, n, width) && Final(s) && s.rejected == [] && (width > 0 || n == 0)
    ensures multiset(Done(s)) == multiset(Indices(n))
  {
    PendingNumber(s, n, width);
    NoneBusy(s.loops);
    forall i: nat
      ensures multiset(Done(s))[i] == multiset(Indices(n))[i]
    {
      IndicesCount(n, i);
      assert Places(s, i) == multiset(Done(s))[i];
    }
  }

  /**
   Without rejections every schedule takes exactly `n` steps to its end, and in the final state
   each item has completed exactly once, provided there is a loop to run it; with a concurrency
   below one nothing is ever started.
   */
  lemma FinalRunsEachItemOnce<T>(n: nat, concurrency: int, events: seq<Event<T>>)
    requires Legal(n, concurrency, events)
    requires After(n, concurrency, events).rejected == []
    requires Final(After(n, concurrency, events))
    ensures var s := After(n, concurrency, events);
      && (multiset(Done(s)) == multiset(Indices(n)) <==> n == 0 || concurrency >= 1)
      && |events| == (if n == 0 || concurrency >= 1 then n else 0)
  {
    var s := After(n, concurrency, events);
    AfterInv(n, concurrency, events);
    PendingNumber(s, n, Width(n, concurrency));
    if n == 0 || concurrency >= 1 {
      FinalDone(s, n, Width(n, concurrency));
    } else {
      assert s.loops == [];
      NothingStarted(n, concurrency, events);
      assert Indices(n)[0] in multiset(Indices(n));
    }
  }

  lemma NothingStarted<T>(n: nat, concurrency: int, events: seq<Event<T>>)
    requires Legal(n, concurrency, events) && Width(n, concurrency) == 0
    ensures events == []
  {
  }

  // ----- the pool itself

  /** What the worker does with each item: a value, or a rejection. Every item is run at most once,
      so one outcome per position covers a worker that answers equal items differently. */
  function Outcomes<T>(items: seq<int>, worker: (nat, int) -> Option<T>): seq<Option<T>> {
    seq(|items|, i requires 0 <= i < |items| => worker(i, items[i]))
  }

  ghost predicate Answers<T>(s: State<T>, items: seq<int>, worker: (nat, int) -> Option<T>) {
    && (forall c <- s.completed :: c.index < |items| && worker(c.index, items[c.index]) == Some(c.value))
    && (forall i <- s.rejected :: i < |items| && worker(i, items[i]).None?)
  }

  /** When everything has completed, the results are the workers' answers up to order. */
  lemma ResultsArePermutation<T>(s: State<T>, items: seq<int>, worker: (nat, int) -> Option<T>)
    requires multiset(Done(s)) == multiset(Indices(|items|))
    requires Answers(s, items, worker)
    ensures multiset(Map((v: T) => Some(v), Results(s))) == multiset(Outcomes(items, worker))
  {
    var answer := (i: nat) => if i < |items| then worker(i, items[i]) else None;
    MapMultiset(answer, Done(s), Indices(|items|));
    assert Map(answer, Indices(|items|)) == Outcomes(items, worker);
    forall k | 0 <= k < |s.completed|
      ensures Map(answer, Done(s))[k] == Some(Results(s)[k])
    {
      assert s.completed[k] in s.completed;
    }
    assert Map(answer, Done(s)) == Map((v: T) => Some(v), Results(s));
  }

  class Pool<T> {
    const items: seq<int>
    const width: nat
    var loops: seq<Loop>
    var cursor: nat
    var results: seq<T>
    var thrown: bool
    ghost var completed: seq<Completion<T>>
    ghost var rejected: seq<nat>

    ghost function View(): State<T>
      reads this
    {
      State(loops, cursor, completed, rejected)
    }

    ghost predicate Valid()
      reads this
    {
      && results == Results(View())
      && (thrown <==> rejected != [])
    }

    constructor (items: seq<int>, concurrency: int)
      ensures Valid() && this.items == items && width == Width(|items|, concurrency)
      ensures |loops| == width == if concurrency <= 0 then 0 else if concurrency < |items| then concurrency else |items|
      ensures Busy(loops) == cursor == |loops|
      ensures View() == Start(|items|, concurrency) && !thrown
    {
      this.items, width := items, Width(|items|, concurrency);
      loops, cursor, results, thrown := [], 0, [], false;
      completed, rejected := [], [];
      new;
      for k := 0 to width
        invariant View() == Launched(|items|, k) && |loops| == k && rejected == [] && completed == []
        invariant results == [] && !thrown && this.items == items
      {
        loops := loops + [Ended];
        Resume(k);
      }
      LaunchedInv<T>(|items|, width);
    }

    /** The loop is back at its condition, and takes the next item or ends. */
    method Resume(w: nat)
      requires w < |loops|
      modifies `loops, `cursor
      ensures View() == TakeNext(old(View()), |items|, w)
    {
      if cursor < |items| {
        loops := loops[w := Awaiting(cursor)];
        cursor := cursor + 1;
      } else {
        loops := loops[w := Ended];
      }
    }

    /** The call that loop `w` awaits resolves: push the value, then carry on with the loop. */
    method Fulfil(w: nat, value: T)
      requires w < |loops| && loops[w].Awaiting? && results == Results(View())
      modifies `results, `completed, `loops, `cursor
      ensures View() == Step(old(View()), |items|, Resolve(w, value)) && results == Results(View())
    {
      ghost var before := View();
      results := results + [value];
      completed := completed + [Completion(loops[w].index, value)];
      DoneAppend(before, Completion(loops[w].index, value));
      Resume(w);
    }

    /** The call that loop `w` awaits rejects: the exception ends the loop. */
    method Throw(w: nat)
      requires w < |loops| && loops[w].Awaiting?
      modifies `rejected, `loops, `thrown
      ensures View() == Step(old(View()), |items|, Reject(w)) && thrown
    {
      rejected := rejected + [loops[w].index];
      loops := loops[w := Ended];
      thrown := true;
    }

    method Settle(e: Event<T>)
      requires Valid() && Enabled(View(), e)
      modifies this
      ensures Valid() && View() == Step(old(View()), |items|, e)
    {
      match e
      case Resolve(w, value) => Fulfil(w, value);
      case Reject(w) => Throw(w);
    }

    /** The event loop settles some pending call, whichever it likes, until none is left. */
    method Drain(worker: (nat, int) -> Option<T>, concurrency: int)
      requires Valid() && width == Width(|items|, concurrency)
      requires View() == Start(|items|, concurrency)
      modifies this
      ensures Valid() && Inv(View(), |items|, width) && Final(View()) && Answers(View(), items, worker)
      ensures width == 0 ==> completed == []
    {
      LaunchedInv<T>(|items|, width);
      while exists w: nat :: w < |loops| && loops[w].Awaiting?
        invariant Valid() && Inv(View(), |items|, width) && Answers(View(), items, worker)
        invariant width == 0 ==> completed == []
        decreases |items| - |completed| - |rejected|
      {
        var w: nat :| w < |loops| && loops[w].Awaiting?;
        IndexInRange(View(), |items|, width, w);
        var outcome := worker(loops[w].index, items[loops[w].index]);
        var event := if outcome.Some? then Resolve(w, outcome.value) else Reject(w);
        StepKeepsInv(View(), |items|, width, event);
        StepAnswers(View(), items, width, worker, event);
        Settle(event);
        PendingNumber(View(), |items|, width);
      }
      PendingNumber(View(), |items|, width);
    }
  }

  lemma StepAnswers<T>(s: State<T>, items: seq<int>, width: nat, worker: (nat, int) -> Option<T>, e: Event<T>)
    requires Inv(s, |items|, width) && Enabled(s, e) && Answers(s, items, worker)
    requires s.loops[e.loop].index < |items|
    requires worker(s.loops[e.loop].index, items[s.loops[e.loop].index]) == if e.Resolve? then Some(e.value) else None
    ensures var t := Step(s, |items|, e);
      Answers(t, items, worker) && |t.completed| + |t.rejected| == |s.completed| + |s.rejected| + 1
  {
  }

  lemma IndexInRange<T>(s: State<T>, n: nat, width: nat, w: nat)
    requires Inv(s, n, width) && w < |s.loops| && s.loops[w].Awaiting?
    ensures s.loops[w].index < s.cursor
  {
    var index := s.loops[w].index;
    PendingUpdate(s.loops, w, Ended, index);
    assert Places(s, index) > 0;
  }

  lemma FinalRejections<T>(s: State<T>, items: seq<int>, width: nat, worker: (nat, int) -> Option<T>)
    requires Inv(s, |items|, width) && Final(s) && Answers(s, items, worker)
    requires s.rejected == [] ==> multiset(Done(s)) == multiset(Indices(|items|))
    ensures s.rejected == [] <==> None !in Outcomes(items, worker)
  {
    if s.rejected != [] {
      var i := s.rejected[0];
      assert i in s.rejected && Outcomes(items, worker)[i].None?;
    } else {
      ResultsArePermutation(s, items, worker);
      var answers := Map((v: T) => Some(v), Results(s));
      forall o | o in Outcomes(items, worker)
        ensures o.Some?
      {
        assert o in multiset(answers);
        assert o in answers;
      }
    }
  }

  /**
   `runPool`, whatever order the calls settle in. It resolves exactly when no started call
   rejects, and then returns every answer once, in some order; with no loop at all it resolves
   to the empty array and runs nothing.
   */
  method RunPool<T>(items: seq<int>, concurrency: int, worker: (nat, int) -> Option<T>) returns (r: Option<seq<T>>)
    ensures r.Some? <==> concurrency < 1 || None !in Outcomes(items, worker)
    ensures r.Some? && (items == [] || concurrency >= 1) ==>
      multiset(Map((v: T) => Some(v), r.value)) == multiset(Outcomes(items, worker))
    ensures r.Some? && concurrency < 1 ==> r.value == []
  {
    var pool := new Pool<T>(items, concurrency);
    pool.Drain(worker, concurrency);
    ghost var s := pool.View();
    PendingNumber(s, |items|, pool.width);
    if pool.width > 0 || items == [] {
      if !pool.thrown {
        FinalDone(s, |items|, pool.width);
        ResultsArePermutation(s, items, worker);
      }
      FinalRejections(s, items, pool.width, worker);
    }
    r := if pool.thrown then None else Some(pool.results);
  }
}
