/** The output side of a run: files held as a map from path to content, and an
    output stream holding the chunks written to it. */
module Files {
  import opened Wrappers
  import opened Text

  /** Where one piece of generated text goes. */
  datatype Destination = ToPath(path: string) | ToStream

  /** One write of a run. */
  datatype Write = Write(dest: Destination, text: string)

  /** The observable output state: file contents by path and the stream's chunks. */
  datatype Store = Store(files: map<string, string>, stream: seq<string>)

  /** `writeToFile` on a file map: an existing file is appended to; a missing one
      is created holding the header followed by the text. */
  function WriteFile(files: map<string, string>, path: string, text: string, header: string): map<string, string> {
    if path in files then files[path := files[path] + text] else files[path := header + text]
  }

  /** `output`: text for a path goes through `writeToFile`, text for the stream is
      written to it as it is, with no header. */
  function Emit(s: Store, w: Write, header: string): Store {
    match w.dest
    case ToPath(p) => Store(WriteFile(s.files, p, w.text, header), s.stream)
    case ToStream => Store(s.files, s.stream + [w.text])
  }

  /** The writes `ws` performed in order. */
  function EmitAll(s: Store, ws: seq<Write>, header: string): Store
    decreases |ws|
  {
    if |ws| == 0 then s else EmitAll(Emit(s, ws[0], header), ws[1..], header)
  }

  /** The texts written to path `p`, in order. */
  function TextsTo(ws: seq<Write>, p: string): seq<string>
    decreases |ws|
  {
    if |ws| == 0 then []
    else (if ws[0].dest == ToPath(p) then [ws[0].text] else []) + TextsTo(ws[1..], p)
  }

  /** The texts written to the stream, in order. */
  function StreamTexts(ws: seq<Write>): seq<string>
    decreases |ws|
  {
    if |ws| == 0 then [] else (if ws[0].dest == ToStream then [ws[0].text] else []) + StreamTexts(ws[1..])
  }

  /** The strings of `ts` one after the other. */
  function Concat(ts: seq<string>): string
    decreases |ts|
  {
    if |ts| == 0 then "" else ts[0] + Concat(ts[1..])
  }

  /** `k` is `dir` itself or lies inside it. */
  predicate Within(k: string, dir: string) {
    k == dir || (|dir| + 1 <= |k| && k[..|dir| + 1] == dir + "/")
  }

  /** The files left after recursively deleting `path`, whether a file or a directory. */
  function Remove(files: map<string, string>, path: string): map<string, string> {
    map k | k in files && !Within(k, path) :: files[k]
  }

  /** A write touches only its own path: an existing file keeps its content
      and gets the text after it, a new one starts with the header, and every
      other file is left as it was. */
  lemma WriteFileSpec(files: map<string, string>, path: string, text: string, header: string)
    ensures var r := WriteFile(files, path, text, header);
      r.Keys == files.Keys + {path}
      && (path in files ==> r[path] == files[path] + text)
      && (path !in files ==> r[path] == header + text)
      && forall k :: k in files && k != path ==> r[k] == files[k]
  {
  }

  /** Two writes to a fresh path leave the header and both texts; the second
      write's header is never used. */
  lemma TwoWrites(files: map<string, string>, path: string, t1: string, t2: string, h1: string, h2: string)
    requires path !in files
    ensures WriteFile(WriteFile(files, path, t1, h1), path, t2, h2)[path] == h1 + t1 + t2
  {
  }

  lemma ConcatCons(t: string, ts: seq<string>)
    ensures Concat([t] + ts) == t + Concat(ts)
  {
    assert ([t] + ts)[1..] == ts;
  }

  /** What path `p` holds, or the header a first write would put there. */
  function Base(files: map<string, string>, p: string, header: string): string {
    if p in files then files[p] else header
  }

  lemma EmitFile(s: Store, w: Write, header: string, p: string)
    ensures var r := Emit(s, w, header);
      var mine := if w.dest == ToPath(p) then [w.text] else [];
      (p in r.files <==> p in s.files || |mine| > 0)
      && Base(r.files, p, header) == Base(s.files, p, header) + Concat(mine)
  {
    if w.dest != ToPath(p) {
      assert Concat([]) == "";
      assert Base(s.files, p, header) + "" == Base(s.files, p, header);
    } else {
      ConcatCons(w.text, []);
      assert Concat([w.text]) == w.text + "";
      assert w.text + "" == w.text;
    }
  }

  /** After a sequence of writes a path holds what it held before, or the header
      when it was missing, followed by every text written to it in order, and it
      exists exactly when it existed or something was written to it. */
  lemma {:induction false} EmitAllFile(s: Store, ws: seq<Write>, header: string, p: string)
    ensures var r := EmitAll(s, ws, header);
      (p in r.files <==> p in s.files || |TextsTo(ws, p)| > 0)
      && Base(r.files, p, header) == Base(s.files, p, header) + Concat(TextsTo(ws, p))
    decreases |ws|
  {
    if |ws| > 0 {
      var s1 := Emit(s, ws[0], header);
      EmitFile(s, ws[0], header, p);
      EmitAllFile(s1, ws[1..], header, p);
      var mine := if ws[0].dest == ToPath(p) then [ws[0].text] else [];
      var rest := TextsTo(ws[1..], p);
      assert TextsTo(ws, p) == mine + rest;
      ConcatAppend(mine, rest);
      AppendAssoc(Base(s.files, p, header), Concat(mine), Concat(rest));
    } else {
      assert Base(s.files, p, header) + "" == Base(s.files, p, header);
    }
  }

  lemma {:induction false} ConcatAppend(a: seq<string>, b: seq<string>)
    ensures Concat(a + b) == Concat(a) + Concat(b)
    decreases |a|
  {
    if |a| == 0 {
      assert a + b == b;
    } else {
      assert (a + b)[1..] == a[1..] + b;
      ConcatAppend(a[1..], b);
    }
  }

  /** The stream receives the stream writes, in order and without any header. */
  lemma {:induction false} EmitAllStream(s: Store, ws: seq<Write>, header: string)
    ensures EmitAll(s, ws, header).stream == s.stream + StreamTexts(ws)
    decreases |ws|
  {
    if |ws| > 0 {
      var s1 := Emit(s, ws[0], header);
      EmitAllStream(s1, ws[1..], header);
      var smine := if ws[0].dest == ToStream then [ws[0].text] else [];
      assert StreamTexts(ws) == smine + StreamTexts(ws[1..]);
      assert s1.stream == s.stream + smine;
    } else {
      assert s.stream + [] == s.stream;
    }
  }

  /** Deleting `path` removes it and everything inside it, and nothing else. */
  lemma RemoveSpec(files: map<string, string>, path: string)
    ensures var r := Remove(files, path);
      path !in r
      && (forall k :: k in r ==> !Within(k, path))
      && (forall k :: k in files && !Within(k, path) ==> k in r && r[k] == files[k])
  {
  }

  /** The file system and output stream a run writes to; `defaultHeader` is the
      header `writeToFile` uses when its caller gives none. */
  class FileSystem {
    var files: map<string, string>
    var stream: seq<string>
    const defaultHeader: string

    constructor(files0: map<string, string>, stream0: seq<string>, defaultHeader: string)
      ensures files == files0 && stream == stream0 && this.defaultHeader == defaultHeader
    {
      files := files0;
      stream := stream0;
      this.defaultHeader := defaultHeader;
    }

    function Snapshot(): Store
      reads this
    {
      Store(files, stream)
    }

    /** `writeToFile(filePath, text, warningHeader)`; an omitted header is the default one. */
    method WriteToFile(path: string, text: string, header: Option<string>)
      modifies this
      ensures files == WriteFile(old(files), path, text, header.GetOr(defaultHeader))
      ensures stream == old(stream)
    {
      if path in files {
        files := files[path := files[path] + text];
      } else {
        files := files[path := header.GetOr(defaultHeader) + text];
      }
    }

    /** `output(destination, content, warningHeader)`. */
    method Output(dest: Destination, text: string, header: Option<string>)
      modifies this
      ensures Snapshot() == Emit(old(Snapshot()), Write(dest, text), header.GetOr(defaultHeader))
    {
      match dest
      case ToPath(p) =>
        WriteToFile(p, text, header);
      case ToStream =>
        stream := stream + [text];
    }

    /** `emptyOutputPath`: whatever is at `path` is deleted, recursively. */
    method EmptyOutputPath(path: string)
      modifies this
      ensures files == Remove(old(files), path)
      ensures stream == old(stream)
    {
      if exists k :: k in files && Within(k, path) {
        files := Remove(files, path);
      }
    }
  }
}
