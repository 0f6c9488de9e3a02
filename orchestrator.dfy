/** `generateMysqlTypes`: one run over the schema's tables, writing each table's
    code to its destination and, in directory mode, an index of the types. */
module Orchestrator {
  import opened Wrappers
  import opened Text
  import opened ColumnTypes
  import opened ColumnDataType
  import opened Generator
  import opened Files
  import opened TypeNames

  /** One table as the schema source returns it. */
  datatype Table = Table(table: string, tableComment: string, columns: seq<Column>)

  /** Where a run writes: a directory with one file per table, one file, or a stream. */
  datatype OutputConfig = Dir(dir: string) | File(file: string) | Stream

  /** The settings a run uses; every optional setting is an `Option`. */
  datatype Config = Config(
    output: OutputConfig,
    suffix: Option<string>,
    tinyintIsBoolean: Option<bool>,
    getTypeName: Option<string -> string>,
    generator: Option<GenCtx -> Result<string>>,
    warningHeader: Option<string>)

  const NoTablesMessage: string := "0 eligible tables found"

  /** The generator a run uses: the configured one, or the one built with no options. */
  function GeneratorOf(config: Config): GenCtx -> Result<string> {
    config.generator.GetOr(g => Generate(Options(None, None, None), g))
  }

  function TypeNameOf(config: Config, table: string): string {
    GetTypeName(config.getTypeName, config.suffix, table)
  }

  /** What the generator is called with for one table; the fallback mapper is
      always the built-in one. */
  function GenCtxOf(config: Config, t: Table): GenCtx {
    GenCtx(t.table, t.tableComment, t.columns, GetColumnDataType, TypeNameOf(config, t.table),
           config.tinyintIsBoolean.GetOr(false))
  }

  /** The file a table's code goes to in directory mode. */
  function TypeFile(dir: string, typeName: string): string {
    dir + "/" + typeName + ".ts"
  }

  function IndexPath(dir: string): string {
    dir + "/index.ts"
  }

  /** The index line re-exporting one type. */
  function IndexLine(typeName: string): string {
    "export type { " + typeName + " } from './" + typeName + "';\n"
  }

  /** Where a table's code is written. */
  function DestinationOf(output: OutputConfig, typeName: string): Destination {
    match output
    case Dir(d) => ToPath(TypeFile(d, typeName))
    case File(f) => ToPath(f)
    case Stream => ToStream
  }

  /** The writes for one table with code `code`: the code, then in directory mode
      the table's index line. */
  function TableWrites(config: Config, t: Table, code: string): seq<Write> {
    var name := TypeNameOf(config, t.table);
    [Write(DestinationOf(config.output, name), code)]
    + (if config.output.Dir? then [Write(ToPath(IndexPath(config.output.dir)), IndexLine(name))] else [])
  }

  /** The loop over the tables, in order: the writes it performs and how it ends.
      A generator error ends the run with nothing written for that table. */
  function RunTables(config: Config, tables: seq<Table>): (Result<()>, seq<Write>)
    decreases |tables|
  {
    if |tables| == 0 then (Ok(()), [])
    else match GeneratorOf(config)(GenCtxOf(config, tables[0]))
      case Err(m) => (Err(m), [])
      case Ok(code) =>
        var rest := RunTables(config, tables[1..]);
        (rest.0, TableWrites(config, tables[0], code) + rest.1)
  }

  /** The files left once the output location has been emptied. */
  function Prepare(output: OutputConfig, files: map<string, string>): map<string, string> {
    match output
    case Dir(d) => Remove(files, d)
    case File(f) => Remove(files, f)
    case Stream => files
  }

  /** A whole run from the output state `s`: the zero-table error with nothing
      touched, or the emptied output followed by the loop's writes. */
  function Run(config: Config, s: Store, tables: seq<Table>, defaultHeader: string): (Result<()>, Store) {
    if |tables| == 0 then (Err(NoTablesMessage), s)
    else
      var r := RunTables(config, tables);
      (r.0, EmitAll(Store(Prepare(config.output, s.files), s.stream), r.1, config.warningHeader.GetOr(defaultHeader)))
  }

  lemma {:induction false} EmitAllAppend(s: Store, a: seq<Write>, b: seq<Write>, header: string)
    ensures EmitAll(s, a + b, header) == EmitAll(EmitAll(s, a, header), b, header)
    decreases |a|
  {
    if |a| == 0 {
      assert a + b == b;
    } else {
      assert (a + b)[1..] == a[1..] + b;
      EmitAllAppend(Emit(s, a[0], header), a[1..], b, header);
    }
  }

  /** The loop over `tables[i..]` handles `tables[i]` first. */
  lemma RunTablesAt(config: Config, tables: seq<Table>, i: nat)
    requires i < |tables|
    ensures var g := GeneratorOf(config)(GenCtxOf(config, tables[i]));
      var rest := RunTables(config, tables[i + 1..]);
      RunTables(config, tables[i..])
        == if g.Err? then (Err(g.message), []) else (rest.0, TableWrites(config, tables[i], g.value) + rest.1)
  {
    assert tables[i..][0] == tables[i] && tables[i..][1..] == tables[i + 1..];
  }

  /** The writes for one table: its code, then in directory mode its index line. */
  lemma TableWritesEmit(s0: Store, config: Config, t: Table, code: string, header: string)
    ensures var name := TypeNameOf(config, t.table);
      var s1 := Emit(s0, Write(DestinationOf(config.output, name), code), header);
      EmitAll(s0, TableWrites(config, t, code), header)
        == if config.output.Dir? then Emit(s1, Write(ToPath(IndexPath(config.output.dir)), IndexLine(name)), header) else s1
  {
    var name := TypeNameOf(config, t.table);
    var ws := TableWrites(config, t, code);
    var s1 := Emit(s0, ws[0], header);
    assert EmitAll(s0, ws, header) == EmitAll(s1, ws[1..], header);
    if config.output.Dir? {
      assert ws[1..][1..] == [];
    } else {
      assert ws[1..] == [];
    }
  }

  /** The writes for one table, performed one after the other, then the rest. */
  lemma EmitTable(s0: Store, s1: Store, config: Config, t: Table, code: string, rest: seq<Write>, header: string)
    requires s1 == EmitAll(s0, TableWrites(config, t, code), header)
    ensures EmitAll(s0, TableWrites(config, t, code) + rest, header) == EmitAll(s1, rest, header)
  {
    EmitAllAppend(s0, TableWrites(config, t, code), rest, header);
  }

  /** `generateMysqlTypes` after the tables have been fetched: check that there
      is at least one, empty the output location, then generate and write each
      table in turn. */
  method GenerateMysqlTypes(fs: FileSystem, config: Config, tables: seq<Table>) returns (r: Result<()>)
    modifies fs
    ensures (r, fs.Snapshot()) == Run(config, old(fs.Snapshot()), tables, fs.defaultHeader)
  {
    if |tables| == 0 {
      return Err(NoTablesMessage);
    }
    match config.output {
      case File(f) => fs.EmptyOutputPath(f);
      case Dir(d) => fs.EmptyOutputPath(d);
      case Stream =>
    }
    var header := config.warningHeader.GetOr(fs.defaultHeader);
    var generator := GeneratorOf(config);
    ghost var final := Run(config, old(fs.Snapshot()), tables, fs.defaultHeader);
    var i := 0;
    while i < |tables|
      invariant 0 <= i <= |tables|
      invariant final.0 == RunTables(config, tables[i..]).0
      invariant final.1 == EmitAll(fs.Snapshot(), RunTables(config, tables[i..]).1, header)
    {
      var t := tables[i];
      var typeName := TypeNameOf(config, t.table);
      var code := generator(GenCtxOf(config, t));
      RunTablesAt(config, tables, i);
      if code.Err? {
        return Err(code.message);
      }
      ghost var s0 := fs.Snapshot();
      TableWritesEmit(s0, config, t, code.value, header);
      fs.Output(DestinationOf(config.output, typeName), code.value, config.warningHeader);
      if config.output.Dir? {
        fs.Output(ToPath(IndexPath(config.output.dir)), IndexLine(typeName), config.warningHeader);
      }
      EmitTable(s0, fs.Snapshot(), config, t, code.value, RunTables(config, tables[i + 1..]).1, header);
      i := i + 1;
    }
    assert tables[i..] == [];
    r := Ok(());
  }
}
