/** Values, rows and comparison as the database sees them. */
module Sql {
  /** What can be bound to a placeholder and stored in a column. */
  datatype Value = Null | Text(text: string) | Number(number: real) | Flag(flag: bool)

  /** A column that no statement has named is not in the map, and counts as NULL in a test. */
  type Row = map<string, Value>

  /** The server's `=` and `LOWER`, which depend on collation and column type. */
  datatype Collation = Collation(equal: (Value, Value) -> bool, lower: Value -> Value)

  /** A test is never true of NULL, on either side. */
  predicate Holds(row: Row, column: string, lower: bool, param: Value, sql: Collation) {
    && column in row && row[column] != Null && param != Null
    && sql.equal(if lower then sql.lower(row[column]) else row[column], param)
  }

  /** The first candidate that the table has. */
  function FirstExisting(candidates: seq<string>, columns: seq<string>): seq<string> {
    if candidates == [] then []
    else if candidates[0] in columns then [candidates[0]]
    else FirstExisting(candidates[1..], columns)
  }
}
