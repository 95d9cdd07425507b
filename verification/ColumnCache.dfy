/**
 The process-wide cache of table columns. A question looks the table up at once, and only then
 waits for `DESCRIBE`; other questions may be asked and answered while it waits.
 */
module ColumnCache {
  import opened Options

  /** `Ask` is a question up to its first await, `Answer` the rest of it; `None` is a failed `DESCRIBE`. */
  datatype Event = Ask(id: nat, table: string) | Answer(id: nat, described: Option<seq<string>>)

  /** The cache, and the tables that the waiting questions are about. */
  datatype State = State(cache: map<string, seq<string>>, pending: map<nat, string>)

  const START: State := State(map[], map[])

  /** Questions have names of their own, and only a waiting one is answered. */
  predicate CanHappen(s: State, e: Event) {
    match e
    case Ask(id, _) => id !in s.pending
    case Answer(id, _) => id in s.pending
  }

  function Step(s: State, e: Event): State
    requires CanHappen(s, e)
  {
    match e
    case Ask(id, table) => if table in s.cache then s else s.(pending := s.pending[id := table])
    case Answer(id, described) => State(s.cache[s.pending[id] := described.GetOr([])], s.pending - {id})
  }

  class Columns {
    var cache: map<string, seq<string>>
    ghost var pending: map<nat, string>

    constructor ()
      ensures State(cache, pending) == START
    {
      cache, pending := map[], map[];
    }

    /** Up to the await: a cached table is answered here and now. */
    method Lookup(ghost id: nat, table: string) returns (columns: Option<seq<string>>)
      requires id !in pending
      modifies `pending
      ensures State(cache, pending) == Step(old(State(cache, pending)), Ask(id, table))
      ensures columns.None? <==> id in pending
      ensures columns.Some? ==> table in cache && cache[table] == columns.value
    {
      if table in cache {
        return Some(cache[table]);
      }
      pending := pending[id := table];
      return None;
    }

    /** From the answer on: what the question returns is what the cache holds from now. */
    method Store(ghost id: nat, table: string, described: Option<seq<string>>) returns (columns: seq<string>)
      requires id in pending && pending[id] == table
      modifies this
      ensures State(cache, pending) == Step(old(State(cache, pending)), Answer(id, described))
      ensures table in cache && cache[table] == columns
    {
      match described {
        case Some(rows) => columns := rows;
        case None => columns := [];
      }
      cache := cache[table := columns];
      pending := pending - {id};
    }
  }

  // ----- every history of the cache

  predicate Possible(s: State, events: seq<Event>)
    decreases |events|
  {
    events == [] || (CanHappen(s, events[0]) && Possible(Step(s, events[0]), events[1..]))
  }

  function Run(s: State, events: seq<Event>): State
    requires Possible(s, events)
    decreases |events|
  {
    if events == [] then s else Run(Step(s, events[0]), events[1..])
  }

  /** The answers about a table, in the order of their arrival. */
  function Answers(s: State, events: seq<Event>, table: string): seq<seq<string>>
    requires Possible(s, events)
    decreases |events|
  {
    if events == [] then []
    else
      var later := Answers(Step(s, events[0]), events[1..], table);
      match events[0]
      case Ask(_, _) => later
      case Answer(id, described) => (if s.pending[id] == table then [described.GetOr([])] else []) + later
  }

  /** Whatever overlaps: the cache holds the last answer about each table, a failure counting as no columns. */
  lemma {:induction false} LastAnswerStays(s: State, events: seq<Event>, table: string)
    requires Possible(s, events)
    ensures var answers, cache := Answers(s, events, table), Run(s, events).cache;
      if answers == [] then
        (table in cache <==> table in s.cache) && (table in cache ==> cache[table] == s.cache[table])
      else table in cache && cache[table] == answers[|answers| - 1]
    decreases |events|
  {
    if events != [] {
      LastAnswerStays(Step(s, events[0]), events[1..], table);
    }
  }

  predicate Waiting(s: State, table: string) {
    exists id <- s.pending :: s.pending[id] == table
  }

  /** The cache says the same about the table whatever happens from here on. */
  ghost predicate Final(s: State, table: string) {
    forall events | Possible(s, events) ::
      var cache := Run(s, events).cache;
      (table in cache <==> table in s.cache) && (table in cache ==> cache[table] == s.cache[table])
  }

  lemma {:induction false} NothingMoreToCome(s: State, events: seq<Event>, table: string)
    requires Possible(s, events) && table in s.cache && !Waiting(s, table)
    ensures var cache := Run(s, events).cache; table in cache && cache[table] == s.cache[table]
    decreases |events|
  {
    if events != [] {
      NothingMoreToCome(Step(s, events[0]), events[1..], table);
    }
  }

  /** Some other answer to question `id` is still possible. */
  lemma AnswerCanChange(s: State, id: nat, described: seq<string>)
    requires id in s.pending
    ensures Possible(s, [Answer(id, Some(described))])
    ensures var cache := Run(s, [Answer(id, Some(described))]).cache;
      s.pending[id] in cache && cache[s.pending[id]] == described
  {
  }

  /** What the cache says of a table is final exactly when no question about that table is waiting. */
  lemma CachedIsFinalIff(s: State, table: string)
    requires table in s.cache
    ensures Final(s, table) <==> !Waiting(s, table)
  {
    if id :| id in s.pending && s.pending[id] == table {
      AnswerCanChange(s, id, s.cache[table] + [table]);
    } else {
      forall events | Possible(s, events)
        ensures table in Run(s, events).cache && Run(s, events).cache[table] == s.cache[table]
      {
        NothingMoreToCome(s, events, table);
      }
    }
  }

  /** An answer settles its table for good exactly when no other question about it is waiting. */
  lemma AnswerIsFinalIff(s: State, id: nat, described: Option<seq<string>>)
    requires id in s.pending
    ensures Final(Step(s, Answer(id, described)), s.pending[id])
      <==> forall other <- s.pending :: other != id ==> s.pending[other] != s.pending[id]
  {
    CachedIsFinalIff(Step(s, Answer(id, described)), s.pending[id]);
    var after := Step(s, Answer(id, described));
    assert forall other :: other in after.pending <==> other in s.pending && other != id;
  }

  /** Two questions at once: a failure that arrives second erases the columns found, and then stays. */
  lemma FailureErasesAnswer(table: string, found: seq<string>)
    requires found != []
    ensures var s := Step(Step(START, Ask(0, table)), Ask(1, table));
      var answered := Step(s, Answer(0, Some(found)));
      var failed := Step(answered, Answer(1, None));
      && answered.cache == map[table := found]
      && failed.cache == map[table := []] && Final(failed, table)
  {
    var s := Step(Step(START, Ask(0, table)), Ask(1, table));
    assert s.pending == map[0 := table, 1 := table];
    var answered := Step(s, Answer(0, Some(found)));
    assert answered.pending == map[1 := table];
    CachedIsFinalIff(Step(answered, Answer(1, None)), table);
  }
}
