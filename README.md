# types-generator, modelled in Dafny

`types-generator` reads the columns of a MySQL schema and writes TypeScript type
declarations for its tables: one `export type Name = { ... }` per table, each
column documented by its comment and typed from its MySQL `DATA_TYPE`. This
project models the part that turns column metadata into code and writes that
code out:

- `ColumnDataType` (`column_data_type.dfy`): the built-in column mapper,
  `getColumnDataType`. It is the `switch` over the `DATA_TYPE` keyword, with
  the `tinyint(1)` boolean option, the rewrite of `enum(...)` column types, the
  error for a missing `DATA_TYPE` and the warning for an unknown keyword.
- `EnumComment` (`enum_comment.dfy`): the enum micro-syntax in column comments,
  `enum('v1','v2:label',...)`. The regular expression is modelled as a scanner
  (`MatchAt`), proved sound and complete against a grammar (`ListText`) and
  taken at its leftmost match (`FirstMatchFrom`). Then come JavaScript's
  `split(/,\s*/)`, `split(':', 2)` and the union type built from the values.
- `Generator` (`generator.dfy`): `createGenerator`. It covers the custom mapper
  with fallback, the ` | null` suffix, the comment choice, the default column
  and type layouts, and the failure of a table when one of its columns fails.
- `Template` (`template.dfy`): the `{{name}}` template engine, `format` and
  `getFormat`.
- `Files` (`files.dfy`): the output side. File contents are a map from path to
  text and the stream is a sequence of chunks. The class `FileSystem` has the
  methods `WriteToFile`, `Output` and `EmptyOutputPath`. `EmitAll` is the
  specification of a sequence of writes.
- `TypeNames` (`type_names.dfy`): `defaultGetTypeName`, the `getTypeName`
  closure, and the three table filters of the table query.
- `Orchestrator` (`orchestrator.dfy`): `generateMysqlTypes` once the tables are
  fetched. It is the method `GenerateMysqlTypes` with its loop, proved equal to
  the function `Run`.
- `RunProperties` (`run_properties.dfy`): what a run leaves behind in each
  output mode, how a generator error stops it, and why a previous run's output
  does not matter.
- `Text` (`text.dfy`): the JavaScript string operations used above, namely
  `indexOf`, `split`, `join`, `substring`, `trim`, `includes` and
  `toUpperCase`.
- `Wrappers`: `Option` and `Result`.
- `ColumnTypes`: the mapper context and result.

Each JavaScript exception is an `Err` value of `Result`. A `throw` inside the
per-table loop ends the run with the writes made so far, as in the source.
JavaScript's `null`/`undefined` are `None`. Promises are not modelled: every
`await` is taken in program order.

## Model

| member | source | states |
|---|---|---|
| ColumnDataType.GetColumnDataType | src/getColumnDataType/index.ts:14-23 | fails exactly when `DATA_TYPE` is null, with the fixed message; without an applicable comment enum the result is a bare type |
| ColumnDataType.Warning | src/getColumnDataType/index.ts:79-81 | the diagnostic is printed exactly when the switch is reached with a keyword it does not name |
| ColumnDataType.NumberAndStringKeywords | src/getColumnDataType/index.ts:26-77 | each keyword listed with the numbers (including `year`) gives `number`; each listed with the strings (including `time` and `set`) gives `string` |
| ColumnDataType.DateAndBufferKeywords | src/getColumnDataType/index.ts:43-59 | `date`, `datetime`, `timestamp` give `Date`; the binary keywords and `bit` give `Buffer` |
| ColumnDataType.OtherKeywords | src/getColumnDataType/index.ts:67-81 | `json` and every keyword the switch does not name give `any` |
| ColumnDataType.TinyintBoolean | src/getColumnDataType/index.ts:61-65 | `tinyint` gives `boolean` if and only if the column type is `tinyint(1)` and the option is on; otherwise `number` |
| ColumnDataType.EnumColumnReplace | src/getColumnDataType/index.ts:70-74 | for `enum(body)` the type is `body` with every comma replaced by the union separator, quotes kept |
| ColumnDataType.CommentEnumFirst | src/getColumnDataType/index.ts:20-23 | an applicable comment enum wins over the switch, with no warning |
| ColumnDataType.SwitchWithoutCommentEnum | src/getColumnDataType/index.ts:20-25 | with no applicable comment enum the result is the switch's type; the warning appears exactly for an unknown keyword |
| ColumnDataType.EnumNotCommentType | src/getColumnDataType/getColumnDataType_EnumFromComment.ts:7-8 | `enum` columns never take the comment path |
| ColumnDataType.EnumTypeExample | tests/getColumnDataType.test.ts:4-18 | the switch turns `enum('value1','value2','value3')` into the union of `'value1'`, `'value2'` and `'value3'`, quoted, for either option value |
| ColumnDataType.EnumColumnExample | tests/getColumnDataType.test.ts:4-18 | the first test: that enum column type gives that union, with no warning |
| EnumComment.QuotedAtSpec | src/getColumnDataType/getColumnDataType_EnumFromComment.ts:5 | what the scanner reads as `'[^']+'` is a non-empty quote-free token, spelled exactly |
| EnumComment.GroupAtSound | src/getColumnDataType/getColumnDataType_EnumFromComment.ts:5 | what the scanner reads as `,\s*'[^']+'` is a comma, whitespace and a quoted token, spelled exactly |
| EnumComment.MatchAtSound | src/getColumnDataType/getColumnDataType_EnumFromComment.ts:5 | a match read at `p` is a list of two tokens or more whose grammar text is exactly the matched text |
| EnumComment.MatchAtComplete | src/getColumnDataType/getColumnDataType_EnumFromComment.ts:5 | every well-formed list spelled at `p` is found there, with its tokens and its end |
| EnumComment.FirstMatchFrom | src/getColumnDataType/getColumnDataType_EnumFromComment.ts:11 | the match reported starts at or after the search start and is a match there |
| EnumComment.FirstMatchLeftmost | src/getColumnDataType/getColumnDataType_EnumFromComment.ts:11-14 | no match starts before the reported one; when none is reported, no index starts one |
| EnumComment.SplitCommaSpacesLast | src/getColumnDataType/getColumnDataType_EnumFromComment.ts:18 | a comma-free text splits into itself alone |
| EnumComment.SplitCommaSpacesCons | src/getColumnDataType/getColumnDataType_EnumFromComment.ts:18 | a comma and the whitespace after it end one piece |
| EnumComment.SplitQuoted | src/getColumnDataType/getColumnDataType_EnumFromComment.ts:16-18 | with comma-free tokens, splitting the list body gives back each quoted token, in order |
| EnumComment.ListTextBody | src/getColumnDataType/getColumnDataType_EnumFromComment.ts:16-17 | `substring(5, length - 1)` of a list is its body without `enum(` and `)` |
| EnumComment.ItemOfQuoted | src/getColumnDataType/getColumnDataType_EnumFromComment.ts:19-24 | an entry's value is its token up to the first colon; its label is the text between the first and second colon, or empty |
| EnumComment.ParseEnumComment | src/getColumnDataType/getColumnDataType_EnumFromComment.ts:10-26 | entries are produced exactly when the comment holds a match |
| EnumComment.ParseEnumCommentItems | src/getColumnDataType/getColumnDataType_EnumFromComment.ts:10-26 | with comma-free tokens there is one entry per token of the leftmost match, at least two, in order |
| EnumComment.EnumFromComment | src/getColumnDataType/getColumnDataType_EnumFromComment.ts:28-42 | a result exactly for an enum-eligible base type whose comment holds a match; the result carries the whole comment |
| EnumComment.EnumFromCommentUnion | src/getColumnDataType/getColumnDataType_EnumFromComment.ts:31-40 | when no token contains a comma, the type is the tokens' values in order, joined by the union separator, bare for numeric and quoted for textual base types; labels are dropped |
| EnumComment.ExampleMatch | tests/getColumnDataType.test.ts:20-42 | the comment `enum('1','2:ss','3')` is one list of three tokens at index 0 |
| EnumComment.ExampleMembers | tests/getColumnDataType.test.ts:20-42 | the values of those tokens are `1`, `2`, `3` |
| ColumnDataType.CommentEnumExample | tests/getColumnDataType.test.ts:20-42 | the second test: with the comment `enum('1','2:ss','3')` the mapper gives an `int` column the union of `1`, `2`, `3` and a `text` column the union of `'1'`, `'2'`, `'3'`, with no warning |
| Generator.DefaultFormatColumnSpec | src/generator.ts:38-44 | every line break of the comment continues the doc comment with its margin; a single-line comment appears as it is |
| Generator.DefaultLayout | src/generator.ts:46-92 | with no options a table fails exactly when the fallback mapper fails on one of its columns; otherwise its code is the doc comment with the trimmed table comment, the `export type` line, the columns in the default column layout joined by line breaks, and `}` on its own line |
| Generator.ResolveSpec | src/generator.ts:72-76 | a custom answer is used whatever the fallback; a `null`/`undefined` answer gives the fallback's result, as with no custom mapper |
| Generator.NullableSuffix | src/generator.ts:78-79 | a column's type fails exactly when its mapper fails; a nullable column gets exactly one null member appended |
| Generator.CommentChoice | src/generator.ts:81-85 | the formatter gets the result's own comment when it has one, even empty, and the trimmed column comment otherwise |
| Generator.ColumnCodesOk | src/generator.ts:62-87 | the column codes succeed exactly when every column does; there is one code per column, in column order |
| Generator.ColumnCodesErr | src/generator.ts:62-87 | a failure carries the message of the first failing column |
| Generator.GenerateSpec | src/generator.ts:88-92 | a table fails exactly when a column does; otherwise the code is the type layout around the trimmed table comment, the type name and the column codes joined by line breaks |
| Template.LeadSound | src/utils.ts:2 | a placeholder the scanner takes at the front is `{{` + a non-empty word + `}}` |
| Template.LeadComplete | src/utils.ts:2 | a placeholder at the front is always taken, with its whole name |
| Template.FormatAppend | src/utils.ts:1-5 | text followed by a part starting with `{{` is filled part by part: no placeholder spans the seam |
| Template.FormatSubstitute | src/utils.ts:1-5 | each placeholder is replaced by its value, or `undefined` when missing; the text around it is filled independently and values are never rescanned |
| Template.FormatNoPlaceholder | src/utils.ts:1-5 | a template without placeholders is returned unchanged |
| Template.StripSpec | src/utils.ts:8 | exactly one leading and one trailing line break are removed |
| Template.GetFormatSpec | src/utils.ts:7-10 | the filler strips the template once and fills it with the context |
| Files.WriteFileSpec | src/writeToFile.ts:5-11 | an existing file is appended to; a missing one is created with header + text; no other file changes |
| Files.TwoWrites | src/writeToFile.ts:5-11 | two writes to a new file leave the first header and both texts |
| Files.EmitAllFile | src/generateMysqlTypes.ts:223-229 | after a sequence of writes a path holds its old content, or the header, followed by every text sent to it in order |
| Files.EmitAllStream | src/generateMysqlTypes.ts:223-229 | the stream receives the stream texts in order, without a header |
| Files.RemoveSpec | src/generateMysqlTypes.ts:210-214 | deleting a path removes it and everything inside it, and nothing else |
| Files.FileSystem.WriteToFile | src/writeToFile.ts:5-11 | the file map becomes the `WriteFile` of the old one, the default header used when none is given; the stream is unchanged |
| Files.FileSystem.Output | src/generateMysqlTypes.ts:223-229 | the store becomes the old one with the write emitted |
| Files.FileSystem.EmptyOutputPath | src/generateMysqlTypes.ts:210-214 | the files become `Remove` of the old ones; the stream is unchanged |
| TypeNames.CapitaliseKeeps | src/generateMysqlTypes.ts:62 | capitalising keeps the length and adds no `_` |
| TypeNames.DefaultNameNoUnderscore | src/generateMysqlTypes.ts:59-64 | a default type name never contains `_` |
| TypeNames.DefaultNameSingle | src/generateMysqlTypes.ts:59-64 | a name without `_` is just capitalised |
| TypeNames.DefaultNameParts | src/generateMysqlTypes.ts:59-64 | `a_b` is named `Capitalise(a)` followed by the name of `b` |
| TypeNames.GetTypeNameSpec | src/generateMysqlTypes.ts:69-74 | a supplied naming function is used as it is and the suffix is ignored; otherwise the name is the default name followed by the suffix, which defaults to empty |
| TypeNames.FilterTablesSpec | src/generateMysqlTypes.ts:133-136 | the kept tables are exactly the eligible ones, in their original order |
| TypeNames.FilterTablesCount | src/generateMysqlTypes.ts:133-136 | each eligible row is kept as many times as the schema lists it, and no other row is kept |
| Orchestrator.GenerateMysqlTypes | src/generateMysqlTypes.ts:78-118 | the result and the new store are those of the specification `Run` on the old store |
| RunProperties.RunNoTables | src/generateMysqlTypes.ts:79-81 | zero tables give the error, with nothing touched |
| RunProperties.RunTablesFile | src/generateMysqlTypes.ts:100-101 | in file mode every code goes to the file in table order, and nothing goes elsewhere |
| RunProperties.RunTablesStream | src/generateMysqlTypes.ts:102 | in stream mode every code goes to the stream in table order, and nothing goes to a file |
| RunProperties.RunTablesIndex | src/generateMysqlTypes.ts:115-117 | in directory mode, when every table generates and no type is named `index`, the index receives one line per table in table order |
| RunProperties.RunTablesTypeFile | src/generateMysqlTypes.ts:97-99 | when every table generates, the file of a type not named `index` receives the codes of the tables with that type name |
| RunProperties.TypeFileInjective | src/generateMysqlTypes.ts:97-99 | distinct type names give distinct files, and only the name `index` collides with the index |
| RunProperties.CodesNamedDistinct | src/generateMysqlTypes.ts:97-99 | with distinct names a table's file holds its own code only |
| RunProperties.RunTablesCount | src/generateMysqlTypes.ts:93-118 | one write per table, two in directory mode |
| RunProperties.RunTablesInsideDir | src/generateMysqlTypes.ts:97-117 | in directory mode every write lands on a path that starts with the directory and `/` |
| RunProperties.RunFileMode | src/generateMysqlTypes.ts:84-118 | file mode: the file holds the header and every code in table order; the stream and other files are untouched |
| RunProperties.RunStreamMode | src/generateMysqlTypes.ts:93-118 | stream mode: the stream gains every code in table order, without a header, and no file changes |
| RunProperties.RunDirMode | src/generateMysqlTypes.ts:86-118 | directory mode: each type file holds the header and its code, the index holds the header and one line per table, and nothing outside the directory changes |
| RunProperties.DirIndex | src/generateMysqlTypes.ts:115-117 | when every table generates and no type is named `index`, on an emptied directory the index is the header followed by the index lines |
| RunProperties.DirTypeFile | src/generateMysqlTypes.ts:97-112 | when every table generates and the type names are distinct and none is `index`, on an emptied directory a table's file is the header followed by its code |
| RunProperties.DirOutside | src/generateMysqlTypes.ts:210-214 | files outside the directory are left as they were |
| RunProperties.RunIndependent | src/generateMysqlTypes.ts:83-88 | what was at the output path before a run does not affect its result or final store |
| RunProperties.RunTablesError | src/generateMysqlTypes.ts:104-112 | an error at table `k` ends the loop with that error, after the writes of the tables before it |
| RunProperties.RunStopsAtError | src/generateMysqlTypes.ts:104-112 | when a table after the first fails and the ones before it generate, the run leaves the store of the run over the tables before the failing one, and reports the generator's error |
| RunProperties.RunFailsFirst | src/generateMysqlTypes.ts:84-112 | when the first table fails, the output location has been emptied, nothing is written, and the generator's error is reported |
| Text.JoinSplit | src/getColumnDataType/index.ts:73-74 | `split(c).join(r)` replaces every `c` by `r` |
| Text.SplitJoinRoundTrip | src/getColumnDataType/index.ts:73-74 | joining the pieces of a split with the separator gives back the string |
| Text.SplitPieces | src/generateMysqlTypes.ts:61 | no piece of a split contains the separator |
| Text.JsSubstring | src/getColumnDataType/index.ts:71-72 | the result is no longer than the string, and is the slice when both indices are in range |
| Text.JsSubstringSymmetric | src/getColumnDataType/index.ts:71-72 | the order of the two indices does not matter |
| Text.Trim | src/generator.ts:82 | the result is empty exactly for an all-whitespace string and otherwise starts and ends with non-whitespace |
| Text.TrimSlice | src/generator.ts:89 | the trimmed text is a slice of the string with only whitespace before and after it, so nothing inside it is removed |
| Text.SplitFirst | src/getColumnDataType/getColumnDataType_EnumFromComment.ts:20 | the first piece is the text before the first separator |
| Text.SplitSecond | src/getColumnDataType/getColumnDataType_EnumFromComment.ts:20 | a second piece exists exactly when the separator occurs |

## Left out

- Reading the schema is not part of this model: the database connection, `getTables`, `getTableNames`, `getColumnInfo`, the connection options and closing the connection. `GenerateMysqlTypes` takes the fetched tables as a parameter. `FilterTables` models only the three filters of the table query, with the glob matcher (`micromatch.isMatch`) as a parameter.
- `emptyOutputPath` creating the parent directory (`mkdirSync`) is not modelled; directories are implicit in paths. A file-system failure is not modelled either. `writeToFile`'s `fileExists` is membership in the file map.
- Asynchrony: every `await` is taken in program order. `Promise.all` over the columns is modelled in column order, so a failure reports the first failing column's message.
- `console.error` is modelled as the value of `ColumnDataType.Warning`, not as output.
- Text.ToUpper: only ASCII letters are upper-cased; JavaScript's full Unicode case mapping is left out.
- The content of the default warning header (`src/warningHeader.ts`) is not part of this model. It is the constant `FileSystem.defaultHeader`.
- `src/getTypeName/index.ts` (the `change-case` variants) is not used by `generateMysqlTypes`, so it is not modelled.
- Template.Lookup: a context is a map from names to strings. JavaScript's lookup through the prototype chain and non-string values are left out; a missing name gives the text `undefined`.
- Orchestrator.GeneratorOf: `generateMysqlTypes.ts` imports `getSimpleGenerator`, which `generator.ts` does not export. The default generator is modelled as `createGenerator({})`.
- A custom column mapper that throws is not modelled; its answer is an `Option`. The fallback mapper may fail.
- `typeResult.type += ...` mutates the object a custom mapper returned. The model builds a new value and does not capture that aliasing.
- `Column.dataType` is an `Option`, so the null-`DATA_TYPE` path of the mapper can be reached.
- RunProperties.RunDirMode: stated only for distinct type names other than `index`. With duplicate names the file holds the codes of every table of that name (`RunTablesTypeFile`).
- EnumComment.EnumFromCommentUnion: stated only for tokens without commas. With a comma inside a token, as in `enum('a,b','c')`, the pieces of `split(/,\s*/)` are not the tokens, and the union is built from those pieces (`EnumFromComment` computes it, no lemma describes it).
- RunProperties.RunTablesIndex: stated only when no type is named `index`. Such a type's file is the index file itself, so its code and the index lines are interleaved in it.
- RunProperties.RunTablesTypeFile: stated only for type names other than `index`, for the same reason.
- RunProperties.DirIndex: stated only when every table generates and no type is named `index`; a failing table is covered by `RunStopsAtError` and `RunFailsFirst`.
- RunProperties.DirTypeFile: stated only for distinct type names other than `index`; with duplicates the file holds every code of that name (`RunTablesTypeFile`).
- RunProperties.RunStopsAtError: stated for a failure after the first table; a failure at the first table is `RunFailsFirst`.
- The callbacks `config.getTypeName`, `formatColumn` and `formatType` are total functions in this model; one that throws is not modelled.
- EnumComment.ParseEnumCommentItems: stated only for tokens without commas. With a comma inside a token, `split(/,\s*/)` cuts the token, as `SplitCommaSpaces` models it (up to the string indexing noted below).
- Strings are sequences of Unicode code points, while JavaScript's `length`, `substring` and `charAt` count UTF-16 code units. For text outside the Basic Multilingual Plane the indices differ: `Text.JsSubstring` never yields half of a surrogate pair. This changes results only where a substring cuts through such a character, as in the comma-in-token case of an enum comment such as `enum('😀,x','y')`.
- Orchestrator.OutputConfig: the output is one of `Dir`, `File` or `Stream`. The source's `output` type is an untagged union, so a configuration carrying both `dir` and `file` is accepted there: the file is emptied (`'file'` is tested first when preparing) while every write goes into the directory (`'dir'` is tested first in the loop), and that directory is never emptied. Such a configuration is not modelled, and `RunIndependent` does not hold for it.
- RunProperties.RunTablesInsideDir: paths are compared as text (`Files.Within` is a string prefix test) and `.` and `..` are never resolved, so "inside the directory" is meant textually. A type name containing `../`, from a custom `getTypeName` or a table name, writes outside the directory on a real file system.
- RunProperties.DirOutside: "outside the directory" is textual in the same way; the lemma does not cover type names that climb out with `../`.
- RunProperties.RunDirMode: its "nothing outside the directory changes" is textual in the same way.
