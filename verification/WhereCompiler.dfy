/**
 The compiler behind every source reader: identity terms become a WHERE clause with positional
 parameters. The clause is kept as the tokens of its text and read back by a small
 recursive-descent evaluator that takes one parameter at each placeholder.
 */
module WhereCompiler {
  import opened Options
  import opened Sequences
  import opened Sql

  /** `Null` stands for a value that is `null` or `undefined`. */
  datatype Term = Term(value: Value, columns: seq<string>, lowercase: bool)

  /** `Test` is one comparison with a placeholder, the column wrapped in LOWER or not. */
  datatype Token = LParen | RParen | Or | Test(column: string, lower: bool)

  // ----- the evaluator

  datatype Reading = Malformed | Read(value: bool, tokens: seq<Token>, params: seq<Value>)

  function ReadAtom(tokens: seq<Token>, params: seq<Value>, row: Row, sql: Collation): (r: Reading)
    ensures r.Read? ==> |r.tokens| < |tokens|
    decreases |tokens|, 0
  {
    if tokens == [] then Malformed
    else match tokens[0]
      case Test(column, lower) =>
        if params == [] then Malformed
        else Read(Holds(row, column, lower, params[0], sql), tokens[1..], params[1..])
      case LParen =>
        var inner := ReadOr(tokens[1..], params, row, sql);
        if inner.Read? && inner.tokens != [] && inner.tokens[0] == RParen then
          Read(inner.value, inner.tokens[1..], inner.params)
        else Malformed
      case _ => Malformed
  }

  function ReadOr(tokens: seq<Token>, params: seq<Value>, row: Row, sql: Collation): (r: Reading)
    ensures r.Read? ==> |r.tokens| < |tokens|
    decreases |tokens|, 1
  {
    var left := ReadAtom(tokens, params, row, sql);
    if left.Read? && left.tokens != [] && left.tokens[0] == Or then
      var right := ReadOr(left.tokens[1..], left.params, row, sql);
      if right.Read? then right.(value := left.value || right.value) else Malformed
    else left
  }

  // ----- the compiler

  /** A term that made it into the query: its value and the listed columns that exist. */
  datatype Use = Use(value: Value, columns: seq<string>, lower: bool)

  /** The value a term is compared by, if there is one; `fold` trims a text and puts it in lower case. */
  function UsableValue(term: Term, fold: string -> string): Option<Value> {
    var value := if term.lowercase && term.value.Text? then Text(fold(term.value.text)) else term.value;
    if value in {Null, Text("")} then None else Some(value)
  }

  function Available(listed: seq<string>, columns: seq<string>): seq<string> {
    Filter((c: string) => c in columns, listed)
  }

  function Uses(terms: seq<Term>, columns: seq<string>, fold: string -> string): seq<Use> {
    if terms == [] then []
    else
      var front, term := Uses(terms[..|terms| - 1], columns, fold), terms[|terms| - 1];
      var value, available := UsableValue(term, fold), Available(term.columns, columns);
      if value.None? || available == [] then front else front + [Use(value.value, available, term.lowercase)]
  }

  /** The parts with an OR between any two of them. */
  function JoinOr(parts: seq<seq<Token>>): seq<Token> {
    if parts == [] then []
    else if |parts| == 1 then parts[0]
    else parts[0] + [Or] + JoinOr(parts[1..])
  }

  function Tests(columns: seq<string>, lower: bool): seq<seq<Token>> {
    Map((c: string) => [Test(c, lower)], columns)
  }

  function Clause(use: Use): seq<Token> {
    [LParen] + JoinOr(Tests(use.columns, use.lower)) + [RParen]
  }

  function Where(uses: seq<Use>): seq<Token> {
    JoinOr(Map(Clause, uses))
  }

  function Repeat(value: Value, n: nat): seq<Value> {
    seq(n, _ => value)
  }

  function Params(uses: seq<Use>): seq<Value> {
    Flatten(Map((u: Use) => Repeat(u.value, |u.columns|), uses))
  }

  /** The limit, if it is between 1 and 50; otherwise the nearer of the two. */
  function Clamp(limit: int): (r: int)
    ensures 1 <= limit <= 50 ==> r == limit
    ensures limit < 1 ==> r == 1
    ensures limit > 50 ==> r == 50
  {
    var atLeastOne := if limit < 1 then 1 else limit;
    if atLeastOne > 50 then 50 else atLeastOne
  }

  datatype Query = TableNotFound | SourceNotConfigured | Select(where: seq<Token>, params: seq<Value>)

  function Compiled(columns: seq<string>, terms: seq<Term>, limit: int, fold: string -> string): Query {
    var uses := Uses(terms, columns, fold);
    if columns == [] then TableNotFound
    else if uses == [] then SourceNotConfigured
    else Select(Where(uses), Params(uses) + [Number(Clamp(limit) as real)])
  }

  /** What a term is compared by: a text in lower case, trimmed, if it asks for that, and else what it holds. */
  ghost function Sought(t: Term, fold: string -> string): Value {
    match t
    case Term(Text(text), _, true) => Text(fold(text))
    case Term(value, _, _) => value
  }

  /** The term has something to look for and a column to look in. */
  ghost predicate Asks(t: Term, columns: seq<string>, fold: string -> string) {
    && !Sought(t, fold).Null? && Sought(t, fold) != Text("")
    && exists c <- t.columns :: c in columns
  }

  /** Some listed column that exists holds what the term looks for, in lower case where it asks for that. */
  ghost predicate TermMatches(t: Term, columns: seq<string>, fold: string -> string, row: Row, sql: Collation) {
    && !Sought(t, fold).Null? && Sought(t, fold) != Text("")
    && exists c <- t.columns ::
         && c in columns && c in row && !row[c].Null?
         && sql.equal(if t.lowercase then sql.lower(row[c]) else row[c], Sought(t, fold))
  }

  method CompileQuery(columns: seq<string>, terms: seq<Term>, limit: int, fold: string -> string) returns (query: Query)
    ensures query == Compiled(columns, terms, limit, fold)
    ensures query.TableNotFound? <==> columns == []
    ensures query.SourceNotConfigured? <==> columns != [] && forall t <- terms :: !Asks(t, columns, fold)
    ensures query.Select? ==>
      query.params[|query.params| - 1..]
        == [Number((if limit < 1 then 1 else if limit > 50 then 50 else limit) as real)]
    ensures query.SourceNotConfigured? <==> columns != [] && Uses(terms, columns, fold) == []
    ensures query.Select? ==>
      var uses := Uses(terms, columns, fold);
      query == Select(Where(uses), Params(uses) + [Number(Clamp(limit) as real)])
  {
    if |columns| == 0 {
      return TableNotFound;
    }
    var clauses: seq<seq<Token>> := [];
    var params: seq<Value> := [];
    ghost var uses: seq<Use> := [];
    for k := 0 to |terms|
      invariant uses == Uses(terms[..k], columns, fold)
      invariant clauses == Map(Clause, uses) && params == Params(uses)
    {
      UsesStep(terms, columns, fold, k);
      var term := terms[k];
      var value := UsableValue(term, fold);
      if value.None? {
        continue;
      }
      var available := Available(term.columns, columns);
      if |available| == 0 {
        continue;
      }
      ghost var use := Use(value.value, available, term.lowercase);
      clauses := clauses + [[LParen] + JoinOr(Tests(available, term.lowercase)) + [RParen]];
      ghost var before := params;
      for index := 0 to |available|
        invariant params == before + Repeat(value.value, index)
      {
        RepeatStep(value.value, index);
        params := params + [value.value];
      }
      ParamsLast(uses, use);
      uses := uses + [use];
    }
    assert terms[..|terms|] == terms;
    AskedIff(columns, terms, fold);
    if |clauses| == 0 {
      return SourceNotConfigured;
    }
    query := Select(JoinOr(clauses), params + [Number(Clamp(limit) as real)]);
  }

  lemma UsesStep(terms: seq<Term>, columns: seq<string>, fold: string -> string, k: nat)
    requires k < |terms|
    ensures var value, available := UsableValue(terms[k], fold), Available(terms[k].columns, columns);
      Uses(terms[..k + 1], columns, fold) == Uses(terms[..k], columns, fold)
        + if value.None? || available == [] then [] else [Use(value.value, available, terms[k].lowercase)]
  {
    assert terms[..k + 1][..k] == terms[..k];
  }

  lemma RepeatStep(value: Value, n: nat)
    ensures Repeat(value, n + 1) == Repeat(value, n) + [value]
  {
  }

  lemma ParamsLast(uses: seq<Use>, use: Use)
    ensures Params(uses + [use]) == Params(uses) + Repeat(use.value, |use.columns|)
  {
    var own := (u: Use) => Repeat(u.value, |u.columns|);
    assert Map(own, uses + [use])[..|uses|] == Map(own, uses);
  }

  // ----- what the compiled clause accepts

  /** Some column of the use matches the use's value. */
  predicate UseHolds(use: Use, row: Row, sql: Collation) {
    exists c <- use.columns :: Holds(row, c, use.lower, use.value, sql)
  }

  /** `left OR more`, once both sides are known. */
  lemma ReadAlternative(tokens: seq<Token>, params: seq<Value>, left: bool, more: seq<Token>, moreParams: seq<Value>,
                        row: Row, sql: Collation)
    requires ReadAtom(tokens, params, row, sql) == Read(left, [Or] + more, moreParams)
    requires ReadOr(more, moreParams, row, sql).Read?
    ensures var right := ReadOr(more, moreParams, row, sql);
      ReadOr(tokens, params, row, sql) == Read(left || right.value, right.tokens, right.params)
  {
  }

  lemma ReadLast(tokens: seq<Token>, params: seq<Value>, value: bool, after: seq<Token>, rest: seq<Value>, row: Row,
                 sql: Collation)
    requires ReadAtom(tokens, params, row, sql) == Read(value, after, rest)
    requires after == [] || after[0] != Or
    ensures ReadOr(tokens, params, row, sql) == Read(value, after, rest)
  {
  }

  lemma ReadTest(column: string, lower: bool, value: Value, after: seq<Token>, rest: seq<Value>, row: Row,
                 sql: Collation)
    ensures ReadAtom([Test(column, lower)] + after, [value] + rest, row, sql)
      == Read(Holds(row, column, lower, value, sql), after, rest)
  {
  }

  lemma TestsFirst(columns: seq<string>, lower: bool, value: Value, after: seq<Token>, rest: seq<Value>)
    requires columns != []
    ensures Repeat(value, |columns|) + rest == [value] + (Repeat(value, |columns| - 1) + rest)
    ensures JoinOr(Tests(columns, lower)) + after == [Test(columns[0], lower)]
      + (if |columns| == 1 then after else [Or] + (JoinOr(Tests(columns[1..], lower)) + after))
  {
    if |columns| > 1 {
      assert Tests(columns, lower)[1..] == Tests(columns[1..], lower);
    }
  }

  lemma {:induction false} ReadTests(columns: seq<string>, lower: bool, value: Value, after: seq<Token>,
                                     rest: seq<Value>, row: Row, sql: Collation)
    requires columns != [] && (after == [] || after[0] != Or)
    ensures ReadOr(JoinOr(Tests(columns, lower)) + after, Repeat(value, |columns|) + rest, row, sql)
      == Read(exists c <- columns :: Holds(row, c, lower, value, sql), after, rest)
  {
    var tokens, params := JoinOr(Tests(columns, lower)) + after, Repeat(value, |columns|) + rest;
    var first, moreParams := columns[0], Repeat(value, |columns| - 1) + rest;
    TestsFirst(columns, lower, value, after, rest);
    if |columns| == 1 {
      assert moreParams == rest;
      ReadTest(first, lower, value, after, rest, row, sql);
      ReadLast(tokens, params, Holds(row, first, lower, value, sql), after, rest, row, sql);
    } else {
      var more := JoinOr(Tests(columns[1..], lower)) + after;
      ReadTest(first, lower, value, [Or] + more, moreParams, row, sql);
      ReadTests(columns[1..], lower, value, after, rest, row, sql);
      ReadAlternative(tokens, params, Holds(row, first, lower, value, sql), more, moreParams, row, sql);
      assert forall c :: c in columns <==> c == first || c in columns[1..];
    }
  }

  lemma ReadClause(use: Use, after: seq<Token>, rest: seq<Value>, row: Row, sql: Collation)
    requires use.columns != []
    ensures ReadAtom(Clause(use) + after, Repeat(use.value, |use.columns|) + rest, row, sql)
      == Read(UseHolds(use, row, sql), after, rest)
  {
    var tests := JoinOr(Tests(use.columns, use.lower));
    assert (Clause(use) + after)[1..] == tests + ([RParen] + after);
    ReadTests(use.columns, use.lower, use.value, [RParen] + after, rest, row, sql);
  }

  lemma WhereFirst(uses: seq<Use>, rest: seq<Value>)
    requires uses != []
    ensures Where(uses) == Clause(uses[0]) + if |uses| == 1 then [] else [Or] + Where(uses[1..])
    ensures Params(uses) + rest == Repeat(uses[0].value, |uses[0].columns|) + (Params(uses[1..]) + rest)
    ensures |uses| == 1 ==> Params(uses[1..]) + rest == rest
  {
    ParamsFirst(uses);
    assert Map(Clause, uses)[1..] == Map(Clause, uses[1..]);
  }

  lemma {:induction false} ReadWhere(uses: seq<Use>, rest: seq<Value>, row: Row, sql: Collation)
    requires uses != [] && forall u <- uses :: u.columns != []
    ensures ReadOr(Where(uses), Params(uses) + rest, row, sql)
      == Read(exists u <- uses :: UseHolds(u, row, sql), [], rest)
  {
    var first, tail := uses[0], uses[1..];
    var tokens, params, own := Where(uses), Params(uses) + rest, Repeat(first.value, |first.columns|);
    WhereFirst(uses, rest);
    if |uses| == 1 {
      ReadClause(first, [], rest, row, sql);
      ReadLast(tokens, params, UseHolds(first, row, sql), [], rest, row, sql);
    } else {
      ReadClause(first, [Or] + Where(tail), Params(tail) + rest, row, sql);
      ReadWhere(tail, rest, row, sql);
      ReadAlternative(tokens, params, UseHolds(first, row, sql), Where(tail), Params(tail) + rest, row, sql);
      assert forall u :: u in uses <==> u == first || u in tail;
    }
  }

  lemma ParamsFirst(uses: seq<Use>)
    requires uses != []
    ensures Params(uses) == Repeat(uses[0].value, |uses[0].columns|) + Params(uses[1..])
  {
    var own := (u: Use) => Repeat(u.value, |u.columns|);
    assert Map(own, uses) == [own(uses[0])] + Map(own, uses[1..]);
    FlattenAppend([own(uses[0])], Map(own, uses[1..]));
    assert Flatten([own(uses[0])]) == own(uses[0]);
  }

  lemma {:induction false} UsesContents(terms: seq<Term>, columns: seq<string>, fold: string -> string, u: Use)
    ensures u in Uses(terms, columns, fold) <==> exists t <- terms ::
      && UsableValue(t, fold) == Some(u.value) && t.lowercase == u.lower
      && Available(t.columns, columns) == u.columns != []
  {
    if terms != [] {
      SplitLast(terms);
      UsesContents(terms[..|terms| - 1], columns, fold, u);
      assert forall t :: t in terms <==> t in terms[..|terms| - 1] || t == terms[|terms| - 1];
    }
  }

  lemma UsableIff(t: Term, columns: seq<string>, fold: string -> string)
    ensures UsableValue(t, fold).Some? && Available(t.columns, columns) != [] <==> Asks(t, columns, fold)
    ensures Asks(t, columns, fold) ==> UsableValue(t, fold) == Some(Sought(t, fold))
  {
    assert forall c :: c in Available(t.columns, columns) <==> c in t.columns && c in columns;
    if Available(t.columns, columns) != [] {
      var c := Available(t.columns, columns)[0];
      assert c in Available(t.columns, columns);
    }
  }

  lemma AskedIff(columns: seq<string>, terms: seq<Term>, fold: string -> string)
    ensures Uses(terms, columns, fold) == [] <==> forall t <- terms :: !Asks(t, columns, fold)
  {
    var uses := Uses(terms, columns, fold);
    if t :| t in terms && Asks(t, columns, fold) {
      UsableIff(t, columns, fold);
      UsesContents(terms, columns, fold, Use(Sought(t, fold), Available(t.columns, columns), t.lowercase));
    }
    if uses != [] {
      UsesContents(terms, columns, fold, uses[0]);
      var t :| t in terms && UsableValue(t, fold) == Some(uses[0].value) && t.lowercase == uses[0].lower
        && Available(t.columns, columns) == uses[0].columns;
      UsableIff(t, columns, fold);
    }
  }

  /**
   Reading the compiled clause left to right takes every parameter but the last, which is the
   limit kept between 1 and 50, and accepts a row exactly when some term matches it.
   */
  lemma WhereAcceptsExactly(columns: seq<string>, terms: seq<Term>, limit: int, fold: string -> string, row: Row,
                            sql: Collation)
    requires Compiled(columns, terms, limit, fold).Select?
    ensures var query := Compiled(columns, terms, limit, fold);
      var kept := if limit < 1 then 1 else if limit > 50 then 50 else limit;
      ReadOr(query.where, query.params, row, sql)
        == Read(exists t <- terms :: TermMatches(t, columns, fold, row, sql), [], [Number(kept as real)])
  {
    var uses := Uses(terms, columns, fold);
    forall u <- uses
      ensures u.columns != []
    {
      UsesContents(terms, columns, fold, u);
    }
    ReadWhere(uses, [Number(Clamp(limit) as real)], row, sql);
    UsesMatchTerms(terms, columns, fold, row, sql);
  }

  lemma UsesMatchTerms(terms: seq<Term>, columns: seq<string>, fold: string -> string, row: Row, sql: Collation)
    ensures (exists u <- Uses(terms, columns, fold) :: UseHolds(u, row, sql))
      <==> exists t <- terms :: TermMatches(t, columns, fold, row, sql)
  {
    var uses := Uses(terms, columns, fold);
    if u :| u in uses && UseHolds(u, row, sql) {
      UsesContents(terms, columns, fold, u);
      var t :| t in terms && UsableValue(t, fold) == Some(u.value) && t.lowercase == u.lower
        && Available(t.columns, columns) == u.columns;
      UsableIff(t, columns, fold);
      assert TermMatches(t, columns, fold, row, sql);
    }
    if t :| t in terms && TermMatches(t, columns, fold, row, sql) {
      var c :| c in t.columns && c in columns && c in row && !row[c].Null?
        && sql.equal(if t.lowercase then sql.lower(row[c]) else row[c], Sought(t, fold));
      assert c in Available(t.columns, columns) && Asks(t, columns, fold);
      UsableIff(t, columns, fold);
      var u := Use(Sought(t, fold), Available(t.columns, columns), t.lowercase);
      UsesContents(terms, columns, fold, u);
      assert UseHolds(u, row, sql);
    }
  }

  /** No query is issued without a condition, and it is withheld only if no term could match any row. */
  lemma WithheldQueriesLoseNothing(columns: seq<string>, terms: seq<Term>, limit: int, fold: string -> string, row: Row,
                                   sql: Collation)
    requires !Compiled(columns, terms, limit, fold).Select?
    ensures !exists t <- terms :: TermMatches(t, columns, fold, row, sql)
  {
    AskedIff(columns, terms, fold);
  }
}
