/** The built-in column mapper: a comment enum when there is one, otherwise a fixed
    mapping from the MySQL `DATA_TYPE` keyword to a TypeScript type. */
module ColumnDataType {
  import opened Wrappers
  import opened Text
  import opened ColumnTypes
  import opened EnumComment

  const NullDataTypeMessage: string :=
    "The DATA_TYPE field in information_schema should never be null. This may be a bug"

  const NumberKeywords: seq<string> :=
    ["int", "smallint", "mediumint", "bigint", "float", "double", "numeric", "year"]
  const StringKeywords: seq<string> :=
    ["char", "varchar", "text", "mediumtext", "longtext", "decimal", "time", "set"]
  const DateKeywords: seq<string> := ["date", "datetime", "timestamp"]
  const BufferKeywords: seq<string> :=
    ["binary", "varbinary", "blob", "tinyblob", "mediumblob", "longblob", "bit"]

  /** Every keyword the switch names; any other one takes the default branch. */
  predicate Known(dataType: string) {
    dataType in NumberKeywords + StringKeywords + DateKeywords + BufferKeywords
    || dataType == "tinyint" || dataType == "json" || dataType == "enum"
  }

  /** The `enum` branch: `columnType.substring(5, length - 1).split(',').join(' | ')`. */
  function EnumColumnType(columnType: string): string {
    Join(Split(JsSubstring(columnType, 5, |columnType| - 1), ','), " | ")
  }

  /** The `switch (dataType)`, in the order of its cases. */
  function BuiltinType(dataType: string, columnType: string, tinyintIsBoolean: bool): string {
    match dataType
    case "int" => "number"
    case "smallint" => "number"
    case "mediumint" => "number"
    case "bigint" => "number"
    case "float" => "number"
    case "double" => "number"
    case "numeric" => "number"
    case "char" => "string"
    case "varchar" => "string"
    case "text" => "string"
    case "mediumtext" => "string"
    case "longtext" => "string"
    case "decimal" => "string"
    case "date" => "Date"
    case "datetime" => "Date"
    case "timestamp" => "Date"
    case "year" => "number"
    case "time" => "string"
    case "binary" => "Buffer"
    case "varbinary" => "Buffer"
    case "blob" => "Buffer"
    case "tinyblob" => "Buffer"
    case "mediumblob" => "Buffer"
    case "longblob" => "Buffer"
    case "bit" => "Buffer"
    case "tinyint" => if columnType == "tinyint(1)" && tinyintIsBoolean then "boolean" else "number"
    case "json" => "any"
    case "enum" => EnumColumnType(columnType)
    case "set" => "string"
    case _ => "any"
  }

  /** `getColumnDataType`: an error for a missing `DATA_TYPE`, the comment enum when
      it applies, the switch otherwise. */
  function GetColumnDataType(ctx: Ctx): (r: Result<TypeResult>)
    ensures r.Err? <==> ctx.dataType.None?
    ensures r.Err? ==> r.message == NullDataTypeMessage
    ensures r.Ok? && EnumFromComment(ctx).None? ==> r.value.Plain?
  {
    if ctx.dataType.None? then Err(NullDataTypeMessage)
    else match EnumFromComment(ctx)
      case Some(t) => Ok(t)
      case None => Ok(Plain(BuiltinType(ctx.dataType.value, ctx.columnType, ctx.tinyintIsBoolean)))
  }

  /** The diagnostic printed on the error stream: only when the switch is reached
      with a keyword it does not name. */
  function Warning(ctx: Ctx): (w: Option<string>)
    ensures w.Some? <==> ctx.dataType.Some? && EnumFromComment(ctx).None? && !Known(ctx.dataType.value)
  {
    if ctx.dataType.Some? && EnumFromComment(ctx).None? && !Known(ctx.dataType.value) then
      Some("WARNING: unknown data type: " + ctx.dataType.value)
    else None
  }

  /** The keywords the switch lists as numbers map to `number`, and those it
      lists as strings to `string`. */
  lemma NumberAndStringKeywords(d: string, columnType: string, tinyintIsBoolean: bool)
    ensures d in NumberKeywords ==> BuiltinType(d, columnType, tinyintIsBoolean) == "number"
    ensures d in StringKeywords ==> BuiltinType(d, columnType, tinyintIsBoolean) == "string"
  {
  }

  /** The date keywords map to `Date` and the binary ones to `Buffer`. */
  lemma DateAndBufferKeywords(d: string, columnType: string, tinyintIsBoolean: bool)
    ensures d in DateKeywords ==> BuiltinType(d, columnType, tinyintIsBoolean) == "Date"
    ensures d in BufferKeywords ==> BuiltinType(d, columnType, tinyintIsBoolean) == "Buffer"
  {
  }

  /** `json`, and every keyword the switch does not name, maps to `any`. */
  lemma OtherKeywords(d: string, columnType: string, tinyintIsBoolean: bool)
    ensures d == "json" || !Known(d) ==> BuiltinType(d, columnType, tinyintIsBoolean) == "any"
  {
  }

  /** `tinyint` becomes `boolean` exactly for the column type `tinyint(1)` with the
      option on, and `number` otherwise. */
  lemma TinyintBoolean(columnType: string, tinyintIsBoolean: bool)
    ensures BuiltinType("tinyint", columnType, tinyintIsBoolean) == "boolean"
      <==> columnType == "tinyint(1)" && tinyintIsBoolean
    ensures BuiltinType("tinyint", columnType, tinyintIsBoolean) != "boolean"
      ==> BuiltinType("tinyint", columnType, tinyintIsBoolean) == "number"
  {
  }

  /** The `enum` branch rewrites the text between `enum(` and the closing
      parenthesis, turning every comma into ` | `. */
  lemma EnumColumnReplace(columnType: string, body: string)
    requires columnType == "enum(" + body + ")"
    ensures BuiltinType("enum", columnType, false) == ReplaceAll(body, ',', " | ")
    ensures BuiltinType("enum", columnType, true) == ReplaceAll(body, ',', " | ")
  {
    assert JsSubstring(columnType, 5, |columnType| - 1) == body;
    JoinSplit(body, ',', " | ");
  }

  /** A comment enum that applies wins over the switch, even for `tinyint`. */
  lemma CommentEnumFirst(ctx: Ctx)
    requires EnumFromComment(ctx).Some?
    ensures GetColumnDataType(ctx) == Ok(EnumFromComment(ctx).value)
    ensures Warning(ctx).None?
  {
  }

  /** Without an applicable comment enum the column gets the switch's type, and
      the diagnostic is printed exactly for a keyword the switch does not name. */
  lemma SwitchWithoutCommentEnum(ctx: Ctx, d: string)
    requires ctx.dataType == Some(d)
    requires d !in EnumNumberTypes + EnumStringTypes || FirstMatchFrom(ctx.columnComment, 0).None?
    ensures GetColumnDataType(ctx) == Ok(Plain(BuiltinType(d, ctx.columnType, ctx.tinyintIsBoolean)))
    ensures Warning(ctx).Some? <==> !Known(d)
  {
  }

  lemma EnumNotCommentType()
    ensures "enum" !in EnumNumberTypes + EnumStringTypes
  {
  }

  lemma EnumBodyExample(a: string, b: string, c: string)
    requires a == "'value1'" && b == "'value2'" && c == "'value3'"
    ensures ReplaceAll(a + "," + b + "," + c, ',', " | ") == a + " | " + b + " | " + c
  {
    ReplaceAllAppend(a + "," + b + ",", c, ',', " | ");
    ReplaceAllAppend(a + "," + b, ",", ',', " | ");
    ReplaceAllAppend(a + ",", b, ',', " | ");
    ReplaceAllAppend(a, ",", ',', " | ");
    ReplaceAllAbsent(a, ',', " | ");
    ReplaceAllAbsent(b, ',', " | ");
    ReplaceAllAbsent(c, ',', " | ");
  }

  lemma EnumUnionExample(a: string, b: string, c: string)
    requires a == "'value1'" && b == "'value2'" && c == "'value3'"
    ensures a + " | " + b + " | " + c == "'value1' | 'value2' | 'value3'"
  {
  }

  lemma EnumTypeExample(columnType: string, tinyintIsBoolean: bool)
    requires columnType == "enum('value1','value2','value3')"
    ensures BuiltinType("enum", columnType, tinyintIsBoolean) == "'value1' | 'value2' | 'value3'"
  {
    var a, b, c := "'value1'", "'value2'", "'value3'";
    var body := a + "," + b + "," + c;
    assert columnType == "enum(" + body + ")";
    EnumColumnReplace(columnType, body);
    EnumBodyExample(a, b, c);
    EnumUnionExample(a, b, c);
  }

  /** `enum('value1','value2','value3')` becomes `'value1' | 'value2' | 'value3'`. */
  lemma EnumColumnExample(ctx: Ctx)
    requires ctx.dataType == Some("enum") && ctx.columnComment == ""
    requires ctx.columnType == "enum('value1','value2','value3')"
    ensures GetColumnDataType(ctx) == Ok(Plain("'value1' | 'value2' | 'value3'"))
    ensures Warning(ctx).None?
  {
    EnumTypeExample(ctx.columnType, ctx.tinyintIsBoolean);
    EnumNotCommentType();
    SwitchWithoutCommentEnum(ctx, "enum");
  }

  /** The comment `enum('1','2:ss','3')` makes an `int` column `1 | 2 | 3` and a
      `text` column `'1' | '2' | '3'`, whatever the column type says. */
  lemma CommentEnumExample(ctx: Ctx)
    requires ctx.dataType == Some("int") || ctx.dataType == Some("text")
    requires ctx.columnComment == "enum('1','2:ss','3')"
    ensures GetColumnDataType(ctx).Ok? && GetColumnDataType(ctx).value.Annotated?
    ensures GetColumnDataType(ctx).value.TypeText()
      == if ctx.dataType == Some("int") then "1 | 2 | 3" else "'1' | '2' | '3'"
    ensures Warning(ctx).None?
  {
    ExampleEnumFromComment(ctx);
    CommentEnumFirst(ctx);
  }
}
