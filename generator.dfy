/** The per-table code generator: resolve each column's type through a custom
    mapper and a fallback mapper, format each column, and wrap the columns in a
    type declaration. Mappers and formatters are function parameters. */
module Generator {
  import opened Wrappers
  import opened Text
  import opened ColumnTypes

  /** One column as read from the schema. */
  datatype Column = Column(
    columnName: string,
    columnComment: string,
    columnType: string,
    dataType: Option<string>,
    isNullable: bool)

  /** What a column formatter is given. */
  datatype ColumnFields = ColumnFields(comment: string, column: string, tsType: string)

  /** What a type formatter is given. */
  datatype TypeFields = TypeFields(comment: string, typeName: string, fields: string)

  /** What the generator is called with for one table; `fallback` is the mapper
      used when the custom one has no answer. */
  datatype GenCtx = GenCtx(
    table: string,
    tableComment: string,
    columns: seq<Column>,
    fallback: Ctx -> Result<TypeResult>,
    typeName: string,
    tinyintIsBoolean: bool)

  /** The generator's options; an absent custom mapper is never asked, an absent
      formatter is replaced by the default one. A custom mapper answering
      `None` stands for `null` or `undefined`. */
  datatype Options = Options(
    custom: Option<Ctx -> Option<TypeResult>>,
    formatColumn: Option<ColumnFields -> string>,
    formatType: Option<TypeFields -> string>)

  const ColumnCommentBreak: string := "\n   * "

  /** The default column layout: a doc comment whose every line break continues
      the comment, then `column: type;`. */
  function DefaultFormatColumn(f: ColumnFields): string {
    "\n  /**\n   * " + Join(Split(f.comment, '\n'), ColumnCommentBreak) + "\n   */\n  "
    + f.column + ": " + f.tsType + ";"
  }

  /** The default type layout: a doc comment, then the type declaration around the fields. */
  function DefaultFormatType(f: TypeFields): string {
    "/**\n * " + f.comment + "\n */\nexport type " + f.typeName + " = {\n" + f.fields + "\n}\n"
  }

  function FormatColumnOf(o: Options): ColumnFields -> string {
    o.formatColumn.GetOr(DefaultFormatColumn)
  }

  function FormatTypeOf(o: Options): TypeFields -> string {
    o.formatType.GetOr(DefaultFormatType)
  }

  /** What a mapper is told about one column of the table. */
  function CtxOf(g: GenCtx, c: Column): Ctx {
    Ctx(c.dataType, c.columnType, c.columnComment, c.isNullable, g.tinyintIsBoolean,
        g.table, Some(c.columnName))
  }

  /** The custom mapper's answer when it gives one, the fallback's otherwise. */
  function Resolve(o: Options, g: GenCtx, ctx: Ctx): Result<TypeResult> {
    if o.custom.Some? && o.custom.value(ctx).Some? then Ok(o.custom.value(ctx).value)
    else g.fallback(ctx)
  }

  /** The comment a result carries, if any. */
  function CommentOf(t: TypeResult): Option<string> {
    match t
    case Plain(_) => None
    case Annotated(_, c) => c
  }

  /** The fields handed to the column formatter: the resolved type, with ` | null`
      for a nullable column, and the result's comment or else the trimmed column comment. */
  function FieldsOf(o: Options, g: GenCtx, c: Column): Result<ColumnFields> {
    match Resolve(o, g, CtxOf(g, c))
    case Err(m) => Err(m)
    case Ok(t) =>
      Ok(ColumnFields(CommentOf(t).GetOr(Trim(c.columnComment)), c.columnName,
                      t.TypeText() + (if c.isNullable then " | null" else "")))
  }

  /** One column's code. */
  function ColumnCode(o: Options, g: GenCtx, c: Column): Result<string> {
    match FieldsOf(o, g, c)
    case Err(m) => Err(m)
    case Ok(f) => Ok(FormatColumnOf(o)(f))
  }

  /** The codes of `cols`, in order; the first column whose mapper throws makes
      the whole list fail with its message. */
  function ColumnCodes(o: Options, g: GenCtx, cols: seq<Column>): Result<seq<string>> {
    if |cols| == 0 then Ok([])
    else match ColumnCode(o, g, cols[0])
      case Err(m) => Err(m)
      case Ok(code) =>
        match ColumnCodes(o, g, cols[1..])
        case Err(m) => Err(m)
        case Ok(rest) => Ok([code] + rest)
  }

  /** The generator built from `o`, applied to one table. */
  function Generate(o: Options, g: GenCtx): Result<string> {
    match ColumnCodes(o, g, g.columns)
    case Err(m) => Err(m)
    case Ok(codes) => Ok(FormatTypeOf(o)(TypeFields(Trim(g.tableComment), g.typeName, Join(codes, "\n"))))
  }

  /** The default column layout turns every line break of the comment into a
      break followed by the comment's ` * ` margin, and ends with `column: type;`. */
  lemma DefaultFormatColumnSpec(f: ColumnFields)
    ensures DefaultFormatColumn(f) == "\n  /**\n   * " + ReplaceAll(f.comment, '\n', ColumnCommentBreak)
      + "\n   */\n  " + f.column + ": " + f.tsType + ";"
    ensures '\n' !in f.comment ==>
      DefaultFormatColumn(f) == "\n  /**\n   * " + f.comment + "\n   */\n  " + f.column + ": " + f.tsType + ";"
  {
    JoinSplit(f.comment, '\n', ColumnCommentBreak);
    if '\n' !in f.comment {
      ReplaceAllAbsent(f.comment, '\n', ColumnCommentBreak);
    }
  }

  /** The default type layout opens with the table comment and the declaration
      line and closes the fields with `}` on a line of its own. */
  lemma DefaultFormatTypeSpec(f: TypeFields)
    ensures var head := "/**\n * " + f.comment + "\n */\nexport type " + f.typeName + " = {\n";
      DefaultFormatType(f) == head + f.fields + "\n}\n"
      && DefaultFormatType(f)[..|head|] == head
      && DefaultFormatType(f)[|head| + |f.fields|..] == "\n}\n"
  {
    var head := "/**\n * " + f.comment + "\n */\nexport type " + f.typeName + " = {\n";
    assert DefaultFormatType(f) == head + f.fields + "\n}\n";
    var w := head + f.fields + "\n}\n";
    assert w[..|head|] == head;
    assert w[|head| + |f.fields|..] == "\n}\n";
  }

  /** An omitted formatter is the default one. */
  lemma DefaultFormatters(o: Options)
    ensures o.formatColumn.None? ==> FormatColumnOf(o) == DefaultFormatColumn
    ensures o.formatType.None? ==> FormatTypeOf(o) == DefaultFormatType
    ensures o.formatColumn.Some? ==> FormatColumnOf(o) == o.formatColumn.value
    ensures o.formatType.Some? ==> FormatTypeOf(o) == o.formatType.value
  {
  }

  /** When the custom mapper answers, its answer is used and the fallback does not
      matter; when it answers `null`/`undefined` the result is the fallback's, as
      if there were no custom mapper. */
  lemma ResolveSpec(o: Options, g1: GenCtx, g2: GenCtx, ctx: Ctx)
    ensures o.custom.Some? && o.custom.value(ctx).Some? ==>
      Resolve(o, g1, ctx) == Resolve(o, g2, ctx) == Ok(o.custom.value(ctx).value)
    ensures o.custom.None? || o.custom.value(ctx).None? ==>
      Resolve(o, g1, ctx) == Resolve(o.(custom := None), g1, ctx) == g1.fallback(ctx)
  {
  }

  /** The type given to the formatter is the resolved type, with exactly one
      ` | null` appended when the column is nullable and nothing otherwise. */
  lemma NullableSuffix(o: Options, g: GenCtx, c: Column)
    ensures FieldsOf(o, g, c).Ok? <==> Resolve(o, g, CtxOf(g, c)).Ok?
    ensures FieldsOf(o, g, c).Err? ==> FieldsOf(o, g, c).message == Resolve(o, g, CtxOf(g, c)).message
    ensures FieldsOf(o, g, c).Ok? ==>
      var t := Resolve(o, g, CtxOf(g, c)).value.TypeText();
      var ty := FieldsOf(o, g, c).value.tsType;
      (c.isNullable ==> ty == t + " | null") && (!c.isNullable ==> ty == t)
  {
  }

  /** The comment given to the formatter is the result's own comment whenever it
      has one (even an empty one), and the column's trimmed comment otherwise;
      the column name is passed unchanged. */
  lemma CommentChoice(o: Options, g: GenCtx, c: Column)
    requires Resolve(o, g, CtxOf(g, c)).Ok?
    ensures var t := Resolve(o, g, CtxOf(g, c)).value;
      var f := FieldsOf(o, g, c).value;
      f.column == c.columnName
      && (t.Annotated? && t.comment.Some? ==> f.comment == t.comment.value)
      && (t.Plain? || t.comment.None? ==> f.comment == Trim(c.columnComment))
  {
  }

  /** The columns are formatted one by one and kept in input order; the list
      succeeds exactly when every column does. */
  lemma {:induction false} ColumnCodesOk(o: Options, g: GenCtx, cols: seq<Column>)
    ensures var r := ColumnCodes(o, g, cols);
      (r.Ok? <==> forall i :: 0 <= i < |cols| ==> ColumnCode(o, g, cols[i]).Ok?)
      && (r.Ok? ==>
            |r.value| == |cols|
            && forall i :: 0 <= i < |cols| ==> ColumnCode(o, g, cols[i]) == Ok(r.value[i]))
    decreases |cols|
  {
    if |cols| > 0 {
      ColumnCodesOk(o, g, cols[1..]);
      assert forall i :: 0 < i < |cols| ==> cols[i] == cols[1..][i - 1];
    }
  }

  /** A failing list carries the message of the first column that fails. */
  lemma {:induction false} ColumnCodesErr(o: Options, g: GenCtx, cols: seq<Column>)
    ensures var r := ColumnCodes(o, g, cols);
      r.Err? ==>
        exists i :: 0 <= i < |cols| && ColumnCode(o, g, cols[i]) == Err(r.message)
          && forall j :: 0 <= j < i ==> ColumnCode(o, g, cols[j]).Ok?
    decreases |cols|
  {
    if |cols| > 0 {
      ColumnCodesErr(o, g, cols[1..]);
      var r := ColumnCodes(o, g, cols);
      var rest := ColumnCodes(o, g, cols[1..]);
      if ColumnCode(o, g, cols[0]).Ok? && rest.Err? {
        var i :| 0 <= i < |cols[1..]| && ColumnCode(o, g, cols[1..][i]) == Err(rest.message)
          && forall j :: 0 <= j < i ==> ColumnCode(o, g, cols[1..][j]).Ok?;
        assert ColumnCode(o, g, cols[i + 1]) == Err(r.message);
        assert forall j :: 0 <= j < i + 1 ==> ColumnCode(o, g, cols[j]).Ok? by {
          forall j | 0 <= j < i + 1
            ensures ColumnCode(o, g, cols[j]).Ok?
          {
            if j > 0 {
              assert cols[j] == cols[1..][j - 1];
            }
          }
        }
      }
    }
  }

  /** A table's code is the type layout around its trimmed comment, its type name
      and its column codes joined by line breaks, in column order; it fails
      exactly when a column does. */
  lemma GenerateSpec(o: Options, g: GenCtx)
    ensures Generate(o, g).Ok? <==> forall i :: 0 <= i < |g.columns| ==> ColumnCode(o, g, g.columns[i]).Ok?
    ensures Generate(o, g).Ok? ==> exists codes: seq<string> ::
      |codes| == |g.columns|
      && (forall i :: 0 <= i < |codes| ==> ColumnCode(o, g, g.columns[i]) == Ok(codes[i]))
      && Generate(o, g).value == FormatTypeOf(o)(TypeFields(Trim(g.tableComment), g.typeName, Join(codes, "\n")))
    ensures |g.columns| == 0 ==> Generate(o, g) == Ok(FormatTypeOf(o)(TypeFields(Trim(g.tableComment), g.typeName, "")))
  {
    ColumnCodesOk(o, g, g.columns);
  }

  /** With no options a column's code is the default column layout of its
      fields, and it fails exactly when the fallback fails. */
  lemma DefaultColumnCode(g: GenCtx, c: Column)
    ensures var o := Options(None, None, None);
      (ColumnCode(o, g, c).Ok? <==> g.fallback(CtxOf(g, c)).Ok?)
      && (ColumnCode(o, g, c).Ok? ==>
            FieldsOf(o, g, c).Ok? && ColumnCode(o, g, c).value == DefaultFormatColumn(FieldsOf(o, g, c).value))
  {
  }

  /** With no options at all a table fails exactly when the built-in fallback
      fails on one of its columns; otherwise its code is the doc comment holding
      the trimmed table comment, the `export type` line, each column in the
      default column layout joined by line breaks, and `}` on a line of its own. */
  lemma DefaultLayout(g: GenCtx)
    ensures var o := Options(None, None, None);
      Generate(o, g).Ok? <==> forall i :: 0 <= i < |g.columns| ==> g.fallback(CtxOf(g, g.columns[i])).Ok?
    ensures var o := Options(None, None, None);
      Generate(o, g).Ok? ==> exists codes: seq<string> ::
        |codes| == |g.columns|
        && (forall i :: 0 <= i < |codes| ==>
              FieldsOf(o, g, g.columns[i]).Ok? && codes[i] == DefaultFormatColumn(FieldsOf(o, g, g.columns[i]).value))
        && Generate(o, g).value
           == "/**\n * " + Trim(g.tableComment) + "\n */\nexport type " + g.typeName + " = {\n"
              + Join(codes, "\n") + "\n}\n"
  {
    var o := Options(None, None, None);
    ColumnCodesOk(o, g, g.columns);
    forall i | 0 <= i < |g.columns| {
      DefaultColumnCode(g, g.columns[i]);
    }
    var r := ColumnCodes(o, g, g.columns);
    if r.Ok? {
      var codes := r.value;
      var text := "/**\n * " + Trim(g.tableComment) + "\n */\nexport type " + g.typeName + " = {\n"
        + Join(codes, "\n") + "\n}\n";
      assert Generate(o, g) == Ok(text);
      assert forall i :: 0 <= i < |codes| ==>
        FieldsOf(o, g, g.columns[i]).Ok? && codes[i] == DefaultFormatColumn(FieldsOf(o, g, g.columns[i]).value);
    }
  }
}