/** The shapes shared by the column-type mappers: what a mapper is told about a
    column, and what it answers. */
module ColumnTypes {
  import opened Wrappers

  /** What a mapper is given for one column. `dataType` is the column's
      `DATA_TYPE` keyword, absent when the schema reports `NULL`; `columnType` is
      the full `COLUMN_TYPE` (`tinyint(1)`, `enum('a','b')`). */
  datatype Ctx = Ctx(
    dataType: Option<string>,
    columnType: string,
    columnComment: string,
    isNullable: bool,
    tinyintIsBoolean: bool,
    table: string,
    column: Option<string>)

  /** A mapper's answer: a bare type expression, or a type expression with a
      comment that, when present, replaces the column's own comment. */
  datatype TypeResult =
    | Plain(text: string)
    | Annotated(tsType: string, comment: Option<string>)
  {
    /** The type expression, whichever form carries it. */
    function TypeText(): string {
      match this
      case Plain(t) => t
      case Annotated(t, _) => t
    }
  }
}
