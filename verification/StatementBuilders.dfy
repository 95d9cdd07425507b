/**
 `updateExistingColumns` and `insertExistingColumns`: a record of values becomes a statement
 over the columns the table really has, with a placeholder and a parameter for each value and
 an SQL clock expression in place of the now-marker.
 */
module StatementBuilders {
  import opened Options
  import opened Sequences
  import opened Sql

  /** A JavaScript record: its entries in order, no key twice. A `null` entry is one like any other. */
  type Record = seq<(string, Value)>

  ghost predicate IsRecord(values: Record) {
    forall i, j :: 0 <= i < j < |values| ==> values[i].0 != values[j].0
  }

  const NOW_MARKER: Value := Text("__CHILE_NOW__")

  /** The right-hand side for one column: the clock expression, or a placeholder. */
  datatype Slot = Clock | Placeholder

  datatype Assignment = Assignment(column: string, slot: Slot)

  datatype Statement =
    | Update(assignments: seq<Assignment>, whereColumn: string)
    | Insert(assignments: seq<Assignment>)

  // ----- what the database does with a statement

  datatype Bound = Bound(row: Row, rest: seq<Value>)

  /** Positional binding, from left to right: each placeholder takes the next parameter. */
  function Bind(assignments: seq<Assignment>, params: seq<Value>, now: Value): Option<Bound> {
    if assignments == [] then Some(Bound(map[], params))
    else
      var before, last := Bind(assignments[..|assignments| - 1], params, now), assignments[|assignments| - 1];
      if before.None? || (last.slot.Placeholder? && before.value.rest == []) then None
      else if last.slot.Clock? then Some(Bound(before.value.row[last.column := now], before.value.rest))
      else Some(Bound(before.value.row[last.column := before.value.rest[0]], before.value.rest[1..]))
  }

  function SetWhere(rows: seq<Row>, update: Row, column: string, value: Value, sql: Collation): seq<Row> {
    Map((row: Row) => if Holds(row, column, false, value, sql) then row + update else row, rows)
  }

  /** `None` when the parameters do not fit the placeholders. */
  function Execute(rows: seq<Row>, statement: Statement, params: seq<Value>, now: Value, sql: Collation)
    : Option<seq<Row>>
  {
    var bound := Bind(statement.assignments, params, now);
    if bound.None? then None
    else match statement
      case Update(_, whereColumn) =>
        if |bound.value.rest| != 1 then None
        else Some(SetWhere(rows, bound.value.row, whereColumn, bound.value.rest[0], sql))
      case Insert(_) =>
        if bound.value.rest != [] then None else Some(rows + [bound.value.row])
  }

  // ----- what the caller means

  /** What ends up in the column: the clock's value for the marker. */
  function Written(value: Value, now: Value): Value {
    if value == NOW_MARKER then now else value
  }

  /** The record restricted to existing columns. */
  function Restricted(values: Record, columns: seq<string>, now: Value): Row {
    if values == [] then map[]
    else
      var front, last := Restricted(values[..|values| - 1], columns, now), values[|values| - 1];
      if last.0 in columns then front[last.0 := Written(last.1, now)] else front
  }

  datatype Outcome = Done(columns: nat) | NoWhereColumn | NoColumns | TableMissing | RequiredMissing

  // ----- the builders

  class Table {
    const columns: seq<string>
    const sql: Collation
    var rows: seq<Row>

    constructor (columns: seq<string>, sql: Collation, rows: seq<Row>)
      ensures this.columns == columns && this.sql == sql && this.rows == rows
    {
      this.columns, this.sql, this.rows := columns, sql, rows;
    }

    method Run(statement: Statement, params: seq<Value>, now: Value)
      requires Execute(rows, statement, params, now, sql).Some?
      modifies `rows
      ensures Some(rows) == Execute(old(rows), statement, params, now, sql)
    {
      rows := Execute(rows, statement, params, now, sql).value;
    }

    /** The loop that both builders share: assignments and parameters grow side by side. */
    method Build(values: Record, ghost now: Value) returns (assignments: seq<Assignment>, params: seq<Value>)
      requires IsRecord(values)
      ensures Bind(assignments, params, now) == Some(Bound(Restricted(values, columns, now), []))
      ensures |assignments| == |Restricted(values, columns, now)|
    {
      assignments, params := [], [];
      for k := 0 to |values|
        invariant Bind(assignments, params, now) == Some(Bound(Restricted(values[..k], columns, now), []))
        invariant |assignments| == |Restricted(values[..k], columns, now)|
      {
        var (column, value) := values[k];
        assert values[..k + 1][..k] == values[..k];
        if column !in columns {
          continue;
        }
        RestrictedKeys(values[..k], columns, now);
        var assignment := Assignment(column, if value == NOW_MARKER then Clock else Placeholder);
        BindOneMore(assignments, assignment, params, value, now);
        if value == NOW_MARKER {
          assignments := assignments + [assignment];
        } else {
          assignments := assignments + [assignment];
          params := params + [value];
        }
      }
      assert values[..|values|] == values;
    }

    /**
     The UPDATE, once bound, is the direct update: exactly the rows whose WHERE column equals the
     value take the restricted record, all others keep theirs.
     */
    method UpdateExistingColumns(candidates: seq<string>, whereValue: Value, values: Record, now: Value)
      returns (outcome: Outcome)
      requires IsRecord(values)
      modifies `rows
      ensures var found, row := FirstExisting(candidates, columns), Restricted(values, columns, now);
        && outcome == (if found == [] then NoWhereColumn else if |row| == 0 then NoColumns else Done(|row|))
        && rows == if outcome.Done? then SetWhere(old(rows), row, found[0], whereValue, sql) else old(rows)
    {
      var found := FirstExisting(candidates, columns);
      if found == [] {
        return NoWhereColumn;
      }
      var assignments, params := Build(values, now);
      if |assignments| == 0 {
        return NoColumns;
      }
      BindLeavesRest(assignments, params, [whereValue], now);
      Run(Update(assignments, found[0]), params + [whereValue], now);
      outcome := Done(|assignments|);
    }

    /** The INSERT, once bound, adds exactly the restricted record as the new row. */
    method InsertExistingColumns(values: Record, requiredAny: seq<string>, now: Value) returns (outcome: Outcome)
      requires IsRecord(values)
      modifies `rows
      ensures var row := Restricted(values, columns, now);
        && outcome == (if columns == [] then TableMissing
                       else if requiredAny != [] && !(exists c <- requiredAny :: c in columns) then RequiredMissing
                       else if |row| == 0 then NoColumns else Done(|row|))
        && rows == if outcome.Done? then old(rows) + [row] else old(rows)
    {
      if |columns| == 0 {
        return TableMissing;
      }
      if |requiredAny| > 0 && !(exists c <- requiredAny :: c in columns) {
        return RequiredMissing;
      }
      var assignments, params := Build(values, now);
      if |assignments| == 0 {
        return NoColumns;
      }
      Run(Insert(assignments), params, now);
      outcome := Done(|assignments|);
    }
  }

  // ----- binding

  lemma {:induction false} RestrictedKeys(values: Record, columns: seq<string>, now: Value)
    ensures forall c <- Restricted(values, columns, now) :: exists v <- values :: v.0 == c
  {
    if values != [] {
      SplitLast(values);
      RestrictedKeys(values[..|values| - 1], columns, now);
      assert forall v <- values[..|values| - 1] :: v in values;
    }
  }

  /** What the placeholders do not take is left over. */
  lemma {:induction false} BindLeavesRest(assignments: seq<Assignment>, params: seq<Value>, rest: seq<Value>,
                                          now: Value)
    requires Bind(assignments, params, now).Some?
    ensures var bound := Bind(assignments, params, now).value;
      Bind(assignments, params + rest, now) == Some(Bound(bound.row, bound.rest + rest))
  {
    if assignments != [] {
      BindLeavesRest(assignments[..|assignments| - 1], params, rest, now);
      var before := Bind(assignments[..|assignments| - 1], params, now).value;
      assert before.rest != [] ==> (before.rest + rest)[1..] == before.rest[1..] + rest;
    }
  }

  /** One more column: the clock takes no parameter, a value brings its own. */
  lemma BindOneMore(assignments: seq<Assignment>, more: Assignment, params: seq<Value>, value: Value, now: Value)
    requires Bind(assignments, params, now).Some? && Bind(assignments, params, now).value.rest == []
    requires more.slot == if value == NOW_MARKER then Clock else Placeholder
    ensures var row := Bind(assignments, params, now).value.row;
      && (value == NOW_MARKER ==>
            Bind(assignments + [more], params, now) == Some(Bound(row[more.column := now], [])))
      && (value != NOW_MARKER ==>
            Bind(assignments + [more], params + [value], now) == Some(Bound(row[more.column := value], [])))
  {
    assert (assignments + [more])[..|assignments|] == assignments;
    BindLeavesRest(assignments, params, [value], now);
    assert [] + [value] == [value] && [value][1..] == [];
  }

  /** What restricting means, column by column: the record's value where the table has the column. */
  lemma {:induction false} RestrictedContents(values: Record, columns: seq<string>, now: Value, c: string)
    requires IsRecord(values)
    ensures c in Restricted(values, columns, now)
      <==> c in columns && exists i :: 0 <= i < |values| && values[i].0 == c
    ensures forall i :: 0 <= i < |values| && values[i].0 == c && c in columns ==>
      Restricted(values, columns, now)[c] == if values[i].1 == Text("__CHILE_NOW__") then now else values[i].1
  {
    if values != [] {
      var front := values[..|values| - 1];
      RestrictedContents(front, columns, now, c);
      assert forall i :: 0 <= i < |front| ==> front[i] == values[i];
    }
  }

  // ----- what an update does to the table

  /** Cell by cell: a row that meets the condition takes what the record says, and everything else stays. */
  lemma UpdatedCells(rows: seq<Row>, values: Record, columns: seq<string>, now: Value,
                     whereColumn: string, whereValue: Value, sql: Collation, k: nat, c: string)
    requires IsRecord(values) && k < |rows|
    ensures var after := SetWhere(rows, Restricted(values, columns, now), whereColumn, whereValue, sql);
      var before := rows[k];
      var meets := whereColumn in before && !before[whereColumn].Null? && !whereValue.Null?
                   && sql.equal(before[whereColumn], whereValue);
      && |after| == |rows|
      && (forall i :: 0 <= i < |values| && values[i].0 == c && c in columns && meets ==>
            c in after[k] && after[k][c] == if values[i].1 == Text("__CHILE_NOW__") then now else values[i].1)
      && (!meets || c !in columns || (forall i :: 0 <= i < |values| ==> values[i].0 != c) ==>
            (c in after[k] <==> c in before) && (c in before ==> after[k][c] == before[c]))
  {
    RestrictedContents(values, columns, now, c);
  }

  /** A `null` entry clears its column: no test of that column holds afterwards. */
  lemma NullClears(rows: seq<Row>, values: Record, columns: seq<string>, now: Value,
                   whereColumn: string, whereValue: Value, sql: Collation, k: nat, i: nat)
    requires IsRecord(values) && k < |rows| && i < |values| && values[i].0 in columns && values[i].1 == Null
    requires Holds(rows[k], whereColumn, false, whereValue, sql)
    ensures var after := SetWhere(rows, Restricted(values, columns, now), whereColumn, whereValue, sql);
      |after| == |rows| && forall lower, param :: !Holds(after[k], values[i].0, lower, param, sql)
  {
    UpdatedCells(rows, values, columns, now, whereColumn, whereValue, sql, k, values[i].0);
  }

  /** A `null` to compare with changes no row at all. */
  lemma NullWhereChangesNothing(rows: seq<Row>, update: Row, column: string, sql: Collation)
    ensures SetWhere(rows, update, column, Null, sql) == rows
  {
  }

  /** Sending the same update again changes nothing more, even when it rewrites its own WHERE column. */
  lemma UpdateTwice(rows: seq<Row>, update: Row, column: string, value: Value, sql: Collation)
    ensures var once := SetWhere(rows, update, column, value, sql); SetWhere(once, update, column, value, sql) == once
  {
    var once := SetWhere(rows, update, column, value, sql);
    forall k | 0 <= k < |rows|
      ensures SetWhere(once, update, column, value, sql)[k] == once[k]
    {
      assert rows[k] + update + update == rows[k] + update;
    }
  }

  /** The WHERE column is the first candidate that the table has. */
  lemma {:induction false} WhereColumnIsFirst(candidates: seq<string>, columns: seq<string>)
    ensures var found := FirstExisting(candidates, columns);
      && (found == [] ==> forall c <- candidates :: c !in columns)
      && (found != [] ==>
            exists i :: 0 <= i < |candidates| && candidates[i] in columns && found == [candidates[i]]
              && forall j :: 0 <= j < i ==> candidates[j] !in columns)
  {
    if candidates != [] && candidates[0] !in columns {
      WhereColumnIsFirst(candidates[1..], columns);
      var found := FirstExisting(candidates, columns);
      if found != [] {
        var i :| 0 <= i < |candidates| - 1 && candidates[1..][i] in columns && found == [candidates[1..][i]]
          && forall j :: 0 <= j < i ==> candidates[1..][j] !in columns;
        assert candidates[i + 1] == candidates[1..][i];
        assert forall j :: 0 < j < i + 1 ==> candidates[j] == candidates[1..][j - 1];
      } else {
        assert forall c <- candidates :: c == candidates[0] || c in candidates[1..];
      }
    } else if candidates != [] {
      assert candidates[0] in columns;
    }
  }
}
