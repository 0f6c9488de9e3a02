/** What a run leaves behind, mode by mode: the files and stream contents after
    `generateMysqlTypes`, how a generator error stops it, and why a previous
    run's output does not matter. */
module RunProperties {
  import opened Wrappers
  import opened Text
  import opened Generator
  import opened Files
  import opened Orchestrator

  /** Every table's generator call succeeds. */
  predicate AllGenerate(config: Config, tables: seq<Table>) {
    forall i :: 0 <= i < |tables| ==> GeneratorOf(config)(GenCtxOf(config, tables[i])).Ok?
  }

  /** The code generated for each table, in table order. */
  function Codes(config: Config, tables: seq<Table>): (cs: seq<string>)
    requires AllGenerate(config, tables)
    ensures |cs| == |tables|
  {
    seq(|tables|, i requires 0 <= i < |tables| => GeneratorOf(config)(GenCtxOf(config, tables[i])).value)
  }

  /** The type name of each table, in table order. */
  function Names(config: Config, tables: seq<Table>): (ns: seq<string>)
    ensures |ns| == |tables|
  {
    seq(|tables|, i requires 0 <= i < |tables| => TypeNameOf(config, tables[i].table))
  }

  /** The codes of the tables whose type name is `n`, in table order. */
  function CodesNamed(config: Config, tables: seq<Table>, n: string): seq<string>
    requires AllGenerate(config, tables)
    decreases |tables|
  {
    if |tables| == 0 then []
    else
      assert AllGenerate(config, tables[1..]) by {
        forall i | 0 <= i < |tables[1..]| ensures GeneratorOf(config)(GenCtxOf(config, tables[1..][i])).Ok? {
          assert tables[1..][i] == tables[i + 1];
        }
      }
      (if TypeNameOf(config, tables[0].table) == n then [Codes(config, tables)[0]] else [])
      + CodesNamed(config, tables[1..], n)
  }

  lemma AllGenerateTail(config: Config, tables: seq<Table>)
    requires |tables| > 0 && AllGenerate(config, tables)
    ensures AllGenerate(config, tables[1..])
    ensures Codes(config, tables) == [Codes(config, tables)[0]] + Codes(config, tables[1..])
    ensures Names(config, tables) == [Names(config, tables)[0]] + Names(config, tables[1..])
  {
    assert forall i :: 0 <= i < |tables[1..]| ==> tables[1..][i] == tables[i + 1];
  }

  lemma {:induction false} TextsToAppend(a: seq<Write>, b: seq<Write>, p: string)
    ensures TextsTo(a + b, p) == TextsTo(a, p) + TextsTo(b, p)
    decreases |a|
  {
    if |a| == 0 {
      assert a + b == b;
    } else {
      assert (a + b)[1..] == a[1..] + b;
      TextsToAppend(a[1..], b, p);
      var x := if a[0].dest == ToPath(p) then [a[0].text] else [];
      assert TextsTo(a + b, p) == x + TextsTo(a[1..] + b, p);
      AppendAssoc(x, TextsTo(a[1..], p), TextsTo(b, p));
    }
  }

  lemma {:induction false} StreamTextsAppend(a: seq<Write>, b: seq<Write>)
    ensures StreamTexts(a + b) == StreamTexts(a) + StreamTexts(b)
    decreases |a|
  {
    if |a| == 0 {
      assert a + b == b;
    } else {
      assert (a + b)[1..] == a[1..] + b;
      StreamTextsAppend(a[1..], b);
      var x := if a[0].dest == ToStream then [a[0].text] else [];
      assert StreamTexts(a + b) == x + StreamTexts(a[1..] + b);
      AppendAssoc(x, StreamTexts(a[1..]), StreamTexts(b));
    }
  }

  /** The first step of a run where the first table's generator succeeds. */
  lemma RunTablesStep(config: Config, tables: seq<Table>)
    requires |tables| > 0 && AllGenerate(config, tables)
    ensures AllGenerate(config, tables[1..])
    ensures var ws := RunTables(config, tables).1;
      RunTables(config, tables).0 == RunTables(config, tables[1..]).0
      && ws == TableWrites(config, tables[0], Codes(config, tables)[0]) + RunTables(config, tables[1..]).1
  {
    AllGenerateTail(config, tables);
  }

  /** In file mode every code goes to the file, in table order, and nothing to the stream. */
  lemma {:induction false} RunTablesFile(config: Config, tables: seq<Table>, f: string)
    requires config.output == File(f) && AllGenerate(config, tables)
    ensures RunTables(config, tables).0 == Ok(())
    ensures TextsTo(RunTables(config, tables).1, f) == Codes(config, tables)
    ensures forall p :: p != f ==> TextsTo(RunTables(config, tables).1, p) == []
    ensures StreamTexts(RunTables(config, tables).1) == []
    decreases |tables|
  {
    if |tables| > 0 {
      RunTablesStep(config, tables);
      RunTablesFile(config, tables[1..], f);
      var tw := TableWrites(config, tables[0], Codes(config, tables)[0]);
      var rest := RunTables(config, tables[1..]).1;
      forall p ensures TextsTo(tw + rest, p) == TextsTo(tw, p) + TextsTo(rest, p) {
        TextsToAppend(tw, rest, p);
      }
      StreamTextsAppend(tw, rest);
      AllGenerateTail(config, tables);
    }
  }

  /** In stream mode every code goes to the stream, in table order, and nothing to a file. */
  lemma {:induction false} RunTablesStream(config: Config, tables: seq<Table>)
    requires config.output == Stream && AllGenerate(config, tables)
    ensures RunTables(config, tables).0 == Ok(())
    ensures StreamTexts(RunTables(config, tables).1) == Codes(config, tables)
    ensures forall p :: TextsTo(RunTables(config, tables).1, p) == []
    decreases |tables|
  {
    if |tables| > 0 {
      RunTablesStep(config, tables);
      RunTablesStream(config, tables[1..]);
      var tw := TableWrites(config, tables[0], Codes(config, tables)[0]);
      var rest := RunTables(config, tables[1..]).1;
      forall p ensures TextsTo(tw + rest, p) == TextsTo(tw, p) + TextsTo(rest, p) {
        TextsToAppend(tw, rest, p);
      }
      StreamTextsAppend(tw, rest);
      AllGenerateTail(config, tables);
    }
  }

  /** Type files are told apart by their type names. */
  lemma TypeFileInjective(d: string, a: string, b: string)
    ensures TypeFile(d, a) == TypeFile(d, b) <==> a == b
    ensures TypeFile(d, a) == IndexPath(d) <==> a == "index"
  {
    var pa, pb := TypeFile(d, a), TypeFile(d, b);
    if pa == pb {
      assert pa[|d| + 1..|pa| - 3] == a;
      assert pb[|d| + 1..|pb| - 3] == b;
    }
    if pa == IndexPath(d) {
      assert pa[|d| + 1..|pa| - 3] == a;
      assert IndexPath(d)[|d| + 1..|IndexPath(d)| - 3] == "index";
    }
  }

  /** The index line of each name, in order. */
  function IndexLines(names: seq<string>): (ls: seq<string>)
    ensures |ls| == |names|
  {
    seq(|names|, i requires 0 <= i < |names| => IndexLine(names[i]))
  }

  lemma IndexLinesCons(names: seq<string>)
    requires |names| > 0
    ensures IndexLines(names) == [IndexLine(names[0])] + IndexLines(names[1..])
  {
  }

  lemma NamesTail(config: Config, tables: seq<Table>)
    requires |tables| > 0
    ensures Names(config, tables[1..]) == Names(config, tables)[1..]
  {
  }

  /** In directory mode the index receives one line per table, in table order. */
  lemma {:induction false} RunTablesIndex(config: Config, tables: seq<Table>, d: string)
    requires config.output == Dir(d) && AllGenerate(config, tables)
    requires forall i :: 0 <= i < |tables| ==> Names(config, tables)[i] != "index"
    ensures RunTables(config, tables).0 == Ok(())
    ensures TextsTo(RunTables(config, tables).1, IndexPath(d)) == IndexLines(Names(config, tables))
    ensures StreamTexts(RunTables(config, tables).1) == []
    decreases |tables|
  {
    if |tables| > 0 {
      RunTablesStep(config, tables);
      var ns := Names(config, tables);
      NamesTail(config, tables);
      IndexLinesCons(ns);
      RunTablesIndex(config, tables[1..], d);
      var tw := TableWrites(config, tables[0], Codes(config, tables)[0]);
      var rest := RunTables(config, tables[1..]).1;
      TextsToAppend(tw, rest, IndexPath(d));
      StreamTextsAppend(tw, rest);
      TypeFileInjective(d, ns[0], ns[0]);
      assert TextsTo(tw, IndexPath(d)) == [IndexLine(ns[0])];
    }
  }

  /** In directory mode the file of type `n` receives the codes of the tables
      named `n`, in table order. */
  lemma {:induction false} RunTablesTypeFile(config: Config, tables: seq<Table>, d: string, n: string)
    requires config.output == Dir(d) && AllGenerate(config, tables) && n != "index"
    ensures TextsTo(RunTables(config, tables).1, TypeFile(d, n)) == CodesNamed(config, tables, n)
    decreases |tables|
  {
    if |tables| > 0 {
      RunTablesStep(config, tables);
      RunTablesTypeFile(config, tables[1..], d, n);
      var name := TypeNameOf(config, tables[0].table);
      var tw := TableWrites(config, tables[0], Codes(config, tables)[0]);
      var rest := RunTables(config, tables[1..]).1;
      TextsToAppend(tw, rest, TypeFile(d, n));
      TypeFileInjective(d, name, n);
      TypeFileInjective(d, n, n);
      assert TextsTo(tw, TypeFile(d, n)) == if name == n then [Codes(config, tables)[0]] else [];
    }
  }

  /** With distinct type names each table has its own file holding its code only. */
  lemma {:induction false} CodesNamedDistinct(config: Config, tables: seq<Table>, j: nat)
    requires AllGenerate(config, tables) && j < |tables|
    requires forall a, b :: 0 <= a < b < |tables| ==> Names(config, tables)[a] != Names(config, tables)[b]
    ensures CodesNamed(config, tables, Names(config, tables)[j]) == [Codes(config, tables)[j]]
    decreases |tables|
  {
    var ns, cs := Names(config, tables), Codes(config, tables);
    AllGenerateTail(config, tables);
    var rest := CodesNamed(config, tables[1..], ns[j]);
    assert CodesNamed(config, tables, ns[j]) == (if ns[0] == ns[j] then [cs[0]] else []) + rest;
    NamesTail(config, tables);
    if j == 0 {
      CodesNamedAbsent(config, tables[1..], ns[0]);
      assert [cs[0]] + [] == [cs[0]];
    } else {
      assert Codes(config, tables[1..])[j - 1] == cs[j];
      CodesNamedDistinct(config, tables[1..], j - 1);
      assert [] + [cs[j]] == [cs[j]];
    }
  }

  lemma {:induction false} CodesNamedAbsent(config: Config, tables: seq<Table>, n: string)
    requires AllGenerate(config, tables)
    requires forall i :: 0 <= i < |tables| ==> Names(config, tables)[i] != n
    ensures CodesNamed(config, tables, n) == []
    decreases |tables|
  {
    if |tables| > 0 {
      AllGenerateTail(config, tables);
      assert Names(config, tables)[0] != n;
      NamesTail(config, tables);
      CodesNamedAbsent(config, tables[1..], n);
    }
  }

  lemma {:induction false} RunTablesCount(config: Config, tables: seq<Table>)
    requires AllGenerate(config, tables)
    ensures |RunTables(config, tables).1| == |tables| * (if config.output.Dir? then 2 else 1)
    decreases |tables|
  {
    if |tables| > 0 {
      RunTablesStep(config, tables);
      RunTablesCount(config, tables[1..]);
    }
  }

  /** In directory mode every write lands inside the directory. */
  lemma {:induction false} RunTablesInsideDir(config: Config, tables: seq<Table>, d: string)
    requires config.output == Dir(d) && AllGenerate(config, tables)
    ensures forall p :: !Within(p, d) ==> TextsTo(RunTables(config, tables).1, p) == []
    decreases |tables|
  {
    if |tables| > 0 {
      RunTablesStep(config, tables);
      RunTablesInsideDir(config, tables[1..], d);
      var name := TypeNameOf(config, tables[0].table);
      var tw := TableWrites(config, tables[0], Codes(config, tables)[0]);
      var rest := RunTables(config, tables[1..]).1;
      assert TypeFile(d, name)[..|d| + 1] == d + "/";
      assert IndexPath(d)[..|d| + 1] == d + "/";
      forall p | !Within(p, d) ensures TextsTo(tw + rest, p) == [] {
        TextsToAppend(tw, rest, p);
      }
    }
  }

  lemma NothingWritten(s: Store, ws: seq<Write>, header: string, k: string)
    requires TextsTo(ws, k) == []
    ensures var out := EmitAll(s, ws, header);
      (k in out.files <==> k in s.files) && (k in s.files ==> out.files[k] == s.files[k])
  {
    EmitAllFile(s, ws, header, k);
    assert Concat([]) == "";
    assert Base(s.files, k, header) + "" == Base(s.files, k, header);
  }

  lemma FreshWrites(s: Store, ws: seq<Write>, header: string, k: string)
    requires k !in s.files && |TextsTo(ws, k)| > 0
    ensures k in EmitAll(s, ws, header).files
    ensures EmitAll(s, ws, header).files[k] == header + Concat(TextsTo(ws, k))
  {
    EmitAllFile(s, ws, header, k);
  }

  /** Zero tables: the run fails before it touches anything. */
  lemma RunNoTables(config: Config, s: Store, defaultHeader: string)
    ensures Run(config, s, [], defaultHeader) == (Err(NoTablesMessage), s)
  {
  }

  /** File mode: the file holds the header and every table's code in table order;
      the stream and every file elsewhere are untouched. */
  lemma RunFileMode(config: Config, s: Store, tables: seq<Table>, defaultHeader: string, f: string)
    requires config.output == File(f) && |tables| > 0 && AllGenerate(config, tables)
    ensures var run := Run(config, s, tables, defaultHeader);
      var out := run.1;
      run.0 == Ok(())
      && f in out.files
      && out.files[f] == config.warningHeader.GetOr(defaultHeader) + Concat(Codes(config, tables))
      && out.stream == s.stream
      && forall k :: !Within(k, f) ==> (k in out.files <==> k in s.files) && (k in s.files ==> out.files[k] == s.files[k])
  {
    var header := config.warningHeader.GetOr(defaultHeader);
    var ws := RunTables(config, tables).1;
    var prepared := Store(Prepare(config.output, s.files), s.stream);
    RunTablesFile(config, tables, f);
    RemoveSpec(s.files, f);
    FreshWrites(prepared, ws, header, f);
    EmitAllStream(prepared, ws, header);
    assert s.stream + [] == s.stream;
    forall k | !Within(k, f)
      ensures var out := EmitAll(prepared, ws, header);
        (k in out.files <==> k in s.files) && (k in s.files ==> out.files[k] == s.files[k])
    {
      NothingWritten(prepared, ws, header, k);
    }
  }

  /** Stream mode: the stream receives every table's code in table order, with no
      header, and no file changes. */
  lemma RunStreamMode(config: Config, s: Store, tables: seq<Table>, defaultHeader: string)
    requires config.output == Stream && |tables| > 0 && AllGenerate(config, tables)
    ensures Run(config, s, tables, defaultHeader) == (Ok(()), Store(s.files, s.stream + Codes(config, tables)))
  {
    var header := config.warningHeader.GetOr(defaultHeader);
    var ws := RunTables(config, tables).1;
    RunTablesStream(config, tables);
    EmitAllStream(s, ws, header);
    var out := EmitAll(s, ws, header);
    forall k ensures (k in out.files <==> k in s.files) && (k in s.files ==> out.files[k] == s.files[k]) {
      NothingWritten(s, ws, header, k);
    }
    assert out.files == s.files;
  }

  /** Directory mode: with distinct type names other than `index`, each table's
      file holds the header and its code, the index holds the header and one line
      per table in table order, and nothing outside the directory changes. */
  lemma RunDirMode(config: Config, s: Store, tables: seq<Table>, defaultHeader: string, d: string)
    requires config.output == Dir(d) && |tables| > 0 && AllGenerate(config, tables)
    requires forall i :: 0 <= i < |tables| ==> Names(config, tables)[i] != "index"
    requires forall a, b :: 0 <= a < b < |tables| ==> Names(config, tables)[a] != Names(config, tables)[b]
    ensures var run := Run(config, s, tables, defaultHeader);
      var out := run.1;
      var header := config.warningHeader.GetOr(defaultHeader);
      run.0 == Ok(())
      && IndexPath(d) in out.files
      && out.files[IndexPath(d)] == header
        + Concat(IndexLines(Names(config, tables)))
      && (forall j :: 0 <= j < |tables| ==>
            TypeFile(d, Names(config, tables)[j]) in out.files
            && out.files[TypeFile(d, Names(config, tables)[j])] == header + Codes(config, tables)[j])
      && out.stream == s.stream
      && forall k :: !Within(k, d) ==> (k in out.files <==> k in s.files) && (k in s.files ==> out.files[k] == s.files[k])
  {
    var header := config.warningHeader.GetOr(defaultHeader);
    var ws := RunTables(config, tables).1;
    var prepared := Store(Prepare(config.output, s.files), s.stream);
    RemoveSpec(s.files, d);
    assert prepared.files == Remove(s.files, d);
    assert Run(config, s, tables, defaultHeader) == (RunTables(config, tables).0, EmitAll(prepared, ws, header));
    RunTablesIndex(config, tables, d);
    DirIndex(config, tables, d, prepared, header);
    forall j | 0 <= j < |tables|
      ensures TypeFile(d, Names(config, tables)[j]) in EmitAll(prepared, ws, header).files
      ensures EmitAll(prepared, ws, header).files[TypeFile(d, Names(config, tables)[j])]
        == header + Codes(config, tables)[j]
    {
      DirTypeFile(config, tables, d, prepared, header, j);
    }
    EmitAllStream(prepared, ws, header);
    assert s.stream + [] == s.stream;
    DirOutside(config, tables, d, s, header);
  }

  /** Directory mode: every file outside the directory is untouched. */
  lemma DirOutside(config: Config, tables: seq<Table>, d: string, s: Store, header: string)
    requires config.output == Dir(d) && AllGenerate(config, tables)
    ensures var out := EmitAll(Store(Remove(s.files, d), s.stream), RunTables(config, tables).1, header);
      forall k :: !Within(k, d) ==> (k in out.files <==> k in s.files) && (k in s.files ==> out.files[k] == s.files[k])
  {
    var ws := RunTables(config, tables).1;
    var prepared := Store(Remove(s.files, d), s.stream);
    RemoveSpec(s.files, d);
    RunTablesInsideDir(config, tables, d);
    forall k | !Within(k, d)
      ensures var out := EmitAll(prepared, ws, header);
        (k in out.files <==> k in s.files) && (k in s.files ==> out.files[k] == s.files[k])
    {
      NothingWritten(prepared, ws, header, k);
    }
  }

  /** Directory mode, on an emptied directory: the index gets one line per table. */
  lemma DirIndex(config: Config, tables: seq<Table>, d: string, prepared: Store, header: string)
    requires config.output == Dir(d) && |tables| > 0 && AllGenerate(config, tables)
    requires forall i :: 0 <= i < |tables| ==> Names(config, tables)[i] != "index"
    requires forall k :: k in prepared.files ==> !Within(k, d)
    ensures var out := EmitAll(prepared, RunTables(config, tables).1, header);
      IndexPath(d) in out.files && out.files[IndexPath(d)] == header + Concat(IndexLines(Names(config, tables)))
  {
    RunTablesIndex(config, tables, d);
    assert IndexPath(d)[..|d| + 1] == d + "/";
    assert Within(IndexPath(d), d);
    FreshWrites(prepared, RunTables(config, tables).1, header, IndexPath(d));
  }

  /** Directory mode, on an emptied directory: a table's file gets exactly its
      code when no other table has the same type name. */
  lemma DirTypeFile(config: Config, tables: seq<Table>, d: string, prepared: Store, header: string, j: nat)
    requires config.output == Dir(d) && j < |tables| && AllGenerate(config, tables)
    requires forall i :: 0 <= i < |tables| ==> Names(config, tables)[i] != "index"
    requires forall a, b :: 0 <= a < b < |tables| ==> Names(config, tables)[a] != Names(config, tables)[b]
    requires forall k :: k in prepared.files ==> !Within(k, d)
    ensures var out := EmitAll(prepared, RunTables(config, tables).1, header);
      var n := Names(config, tables)[j];
      TypeFile(d, n) in out.files && out.files[TypeFile(d, n)] == header + Codes(config, tables)[j]
  {
    var n := Names(config, tables)[j];
    RunTablesTypeFile(config, tables, d, n);
    CodesNamedDistinct(config, tables, j);
    assert TypeFile(d, n)[..|d| + 1] == d + "/";
    assert Within(TypeFile(d, n), d);
    FreshWrites(prepared, RunTables(config, tables).1, header, TypeFile(d, n));
    assert Concat([Codes(config, tables)[j]]) == Codes(config, tables)[j] + "";
  }

  /** The path a run empties first, in the modes that have one. */
  function OutputPath(output: OutputConfig): string
    requires !output.Stream?
  {
    if output.Dir? then output.dir else output.file
  }

  /** A run's outcome does not depend on what was at its output path before:
      two stores that differ only there lead to the same result and the same
      final store. */
  lemma RunIndependent(config: Config, s1: Store, s2: Store, tables: seq<Table>, defaultHeader: string)
    requires !config.output.Stream? && |tables| > 0 && s1.stream == s2.stream
    requires forall k :: !Within(k, OutputPath(config.output)) ==>
      (k in s1.files <==> k in s2.files) && (k in s1.files ==> s1.files[k] == s2.files[k])
    ensures Run(config, s1, tables, defaultHeader) == Run(config, s2, tables, defaultHeader)
  {
    var p := OutputPath(config.output);
    RemoveSpec(s1.files, p);
    RemoveSpec(s2.files, p);
    assert Prepare(config.output, s1.files) == Prepare(config.output, s2.files);
  }

  /** A generator error at table `k` ends the loop with that error; the tables
      before it have been written and nothing after it is. */
  lemma {:induction false} RunTablesError(config: Config, tables: seq<Table>, k: nat)
    requires k < |tables| && AllGenerate(config, tables[..k])
    requires GeneratorOf(config)(GenCtxOf(config, tables[k])).Err?
    ensures RunTables(config, tables[..k]).0 == Ok(())
    ensures RunTables(config, tables)
      == (Err(GeneratorOf(config)(GenCtxOf(config, tables[k])).message), RunTables(config, tables[..k]).1)
    decreases k
  {
    if k > 0 {
      assert tables[..k][0] == tables[0];
      assert tables[..k][1..] == tables[1..][..k - 1];
      assert tables[1..][k - 1] == tables[k];
      var before := tables[1..][..k - 1];
      assert AllGenerate(config, before) by {
        forall i | 0 <= i < |before|
          ensures GeneratorOf(config)(GenCtxOf(config, before[i])).Ok?
        {
          assert before[i] == tables[..k][i + 1];
        }
      }
      RunTablesError(config, tables[1..], k - 1);
    }
  }

  /** A failing run writes exactly what the run of the tables before the failing
      one writes, and reports the generator's error. */
  lemma RunStopsAtError(config: Config, s: Store, tables: seq<Table>, defaultHeader: string, k: nat)
    requires 0 < k < |tables| && AllGenerate(config, tables[..k])
    requires GeneratorOf(config)(GenCtxOf(config, tables[k])).Err?
    ensures Run(config, s, tables, defaultHeader)
      == (Err(GeneratorOf(config)(GenCtxOf(config, tables[k])).message), Run(config, s, tables[..k], defaultHeader).1)
    ensures Run(config, s, tables[..k], defaultHeader).0 == Ok(())
  {
    RunTablesError(config, tables, k);
  }

  /** A failure at the first table leaves the output location emptied and
      nothing written: the stream and every file outside that location are as
      they were, and the generator's error is reported. */
  lemma RunFailsFirst(config: Config, s: Store, tables: seq<Table>, defaultHeader: string)
    requires |tables| > 0 && GeneratorOf(config)(GenCtxOf(config, tables[0])).Err?
    ensures Run(config, s, tables, defaultHeader)
      == (Err(GeneratorOf(config)(GenCtxOf(config, tables[0])).message), Store(Prepare(config.output, s.files), s.stream))
  {
    RunTablesError(config, tables, 0);
  }
}
