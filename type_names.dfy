/** Naming a table's type and choosing which tables take part in a run. */
module TypeNames {
  import opened Wrappers
  import opened Text

  /** A word with its first character upper-cased: `charAt(0).toUpperCase() + slice(1)`. */
  function Capitalise(w: string): string {
    if |w| == 0 then "" else [ToUpper(w[0])] + w[1..]
  }

  /** `defaultGetTypeName`: the table name cut at every `_`, each piece capitalised,
      and the pieces put back together with nothing between them. */
  function DefaultGetTypeName(table: string): string {
    var pieces := Split(table, '_');
    Join(seq(|pieces|, i requires 0 <= i < |pieces| => Capitalise(pieces[i])), "")
  }

  /** The `getTypeName` closure: a supplied naming function is used as it is;
      otherwise the default name followed by the suffix, which defaults to empty. */
  function GetTypeName(custom: Option<string -> string>, suffix: Option<string>, table: string): string {
    if custom.Some? then custom.value(table) else DefaultGetTypeName(table) + suffix.GetOr("")
  }

  lemma CapitaliseKeeps(w: string, c: char)
    requires c != '_' || c !in w
    ensures |Capitalise(w)| == |w|
    ensures c == '_' ==> c !in Capitalise(w)
  {
    if |w| > 0 {
      assert Capitalise(w)[1..] == w[1..];
      assert w[0] in w;
    }
  }

  lemma {:induction false} JoinNoChar(parts: seq<string>, c: char)
    requires forall i :: 0 <= i < |parts| ==> c !in parts[i]
    ensures c !in Join(parts, "")
    decreases |parts|
  {
    if |parts| > 1 {
      JoinNoChar(parts[1..], c);
      assert Join(parts, "") == parts[0] + "" + Join(parts[1..], "");
    }
  }

  /** A default type name never contains `_`. */
  lemma DefaultNameNoUnderscore(table: string)
    ensures '_' !in DefaultGetTypeName(table)
  {
    var pieces := Split(table, '_');
    var caps := seq(|pieces|, i requires 0 <= i < |pieces| => Capitalise(pieces[i]));
    SplitPieces(table, '_');
    forall i | 0 <= i < |caps|
      ensures '_' !in caps[i]
    {
      CapitaliseKeeps(pieces[i], '_');
    }
    JoinNoChar(caps, '_');
  }

  /** A name without `_` is just capitalised. */
  lemma DefaultNameSingle(a: string)
    requires '_' !in a
    ensures DefaultGetTypeName(a) == Capitalise(a)
  {
    IndexOfIs(a, '_', |a|);
  }

  /** Each `_` splits the name into parts named independently: `a_b` is named
      `A` + `B`. */
  lemma DefaultNameParts(a: string, b: string)
    requires '_' !in a
    ensures DefaultGetTypeName(a + "_" + b) == Capitalise(a) + DefaultGetTypeName(b)
  {
    var t := a + "_" + b;
    assert t[..|a|] == a;
    assert t[|a|] == '_';
    IndexOfIs(t, '_', |a|);
    assert t[|a| + 1..] == b;
    SplitCons(t, '_', |a|);
    var pb := Split(b, '_');
    var capsB := seq(|pb|, i requires 0 <= i < |pb| => Capitalise(pb[i]));
    var pt := Split(t, '_');
    var capsT := seq(|pt|, i requires 0 <= i < |pt| => Capitalise(pt[i]));
    assert capsT == [Capitalise(a)] + capsB;
    JoinCons(Capitalise(a), capsB, "");
    assert Capitalise(a) + "" == Capitalise(a);
  }

  /** A supplied naming function is used verbatim and the suffix is ignored;
      without one the name is the default name with the suffix after it. */
  lemma GetTypeNameSpec(custom: Option<string -> string>, s1: Option<string>, s2: Option<string>, table: string)
    ensures custom.Some? ==> GetTypeName(custom, s1, table) == GetTypeName(custom, s2, table) == custom.value(table)
    ensures custom.None? ==>
      var n := GetTypeName(custom, s1, table);
      var d := DefaultGetTypeName(table);
      |d| <= |n| && n[..|d|] == d && n[|d|..] == s1.GetOr("")
    ensures custom.None? && s1.None? ==> GetTypeName(custom, s1, table) == DefaultGetTypeName(table)
  {
    if custom.None? {
      var d := DefaultGetTypeName(table);
      var n := d + s1.GetOr("");
      assert n[..|d|] == d;
      assert n[|d|..] == s1.GetOr("");
      assert d + "" == d;
    }
  }

  /** One row of the schema's table list. */
  datatype TableRow = TableRow(name: string, comment: string)

  /** `xs` with only the elements `keep` accepts, in order. */
  function Filter<T>(xs: seq<T>, keep: T -> bool): seq<T>
    decreases |xs|
  {
    if |xs| == 0 then [] else (if keep(xs[0]) then [xs[0]] else []) + Filter(xs[1..], keep)
  }

  /** `a` is `b` with some elements left out and the rest in the same order. */
  predicate IsSubsequence<T(==)>(a: seq<T>, b: seq<T>)
    decreases |b|
  {
    |a| == 0 || (|b| > 0 && ((a[0] == b[0] && IsSubsequence(a[1..], b[1..])) || IsSubsequence(a, b[1..])))
  }

  /** A table is used when its name does not contain `knex_`, matches no ignored
      pattern and, when included patterns are given, matches one of them. */
  predicate Eligible(name: string, ignored: seq<string>, included: seq<string>, matches: (string, string) -> bool) {
    !Contains(name, "knex_")
    && (forall i :: 0 <= i < |ignored| ==> !matches(name, ignored[i]))
    && (|included| == 0 || exists i :: 0 <= i < |included| && matches(name, included[i]))
  }

  /** The three filters of the table query, applied one after another; the glob
      matcher is a parameter. */
  function FilterTables(rows: seq<TableRow>, ignored: seq<string>, included: seq<string>,
                        matches: (string, string) -> bool): seq<TableRow>
  {
    var r1 := Filter(rows, (r: TableRow) => !Contains(r.name, "knex_"));
    var r2 := Filter(r1, (r: TableRow) => !(exists i :: 0 <= i < |ignored| && matches(r.name, ignored[i])));
    Filter(r2, (r: TableRow) => |included| == 0 || exists i :: 0 <= i < |included| && matches(r.name, included[i]))
  }

  lemma {:induction false} FilterMembers<T>(xs: seq<T>, keep: T -> bool)
    ensures forall x :: x in Filter(xs, keep) <==> x in xs && keep(x)
    decreases |xs|
  {
    if |xs| > 0 {
      FilterMembers(xs[1..], keep);
      assert xs == [xs[0]] + xs[1..];
    }
  }

  /** Filtering keeps every copy of an accepted element and no copy of a rejected one. */
  lemma {:induction false} FilterCount<T>(xs: seq<T>, keep: T -> bool)
    ensures forall x :: multiset(Filter(xs, keep))[x] == if keep(x) then multiset(xs)[x] else 0
    decreases |xs|
  {
    if |xs| > 0 {
      FilterCount(xs[1..], keep);
      assert xs == [xs[0]] + xs[1..];
      assert multiset(xs) == multiset([xs[0]]) + multiset(xs[1..]);
      assert multiset(Filter(xs, keep))
        == multiset(if keep(xs[0]) then [xs[0]] else []) + multiset(Filter(xs[1..], keep));
    }
  }

  lemma {:induction false} FilterSubsequence<T>(xs: seq<T>, keep: T -> bool)
    ensures IsSubsequence(Filter(xs, keep), xs)
    decreases |xs|
  {
    if |xs| > 0 {
      FilterSubsequence(xs[1..], keep);
      var rest := Filter(xs[1..], keep);
      if keep(xs[0]) {
        assert Filter(xs, keep) == [xs[0]] + rest;
        assert Filter(xs, keep)[1..] == rest;
      } else {
        assert Filter(xs, keep) == rest;
      }
    }
  }

  lemma {:induction false} SubsequenceTrans<T>(a: seq<T>, b: seq<T>, c: seq<T>)
    requires IsSubsequence(a, b) && IsSubsequence(b, c)
    ensures IsSubsequence(a, c)
    decreases |c|
  {
    if |a| > 0 {
      if b[0] == c[0] && IsSubsequence(b[1..], c[1..]) {
        if a[0] == b[0] && IsSubsequence(a[1..], b[1..]) {
          SubsequenceTrans(a[1..], b[1..], c[1..]);
        } else {
          SubsequenceTrans(a, b[1..], c[1..]);
        }
      } else {
        SubsequenceTrans(a, b, c[1..]);
      }
    }
  }

  /** The tables kept are exactly the eligible ones, in their original order. */
  lemma FilterTablesSpec(rows: seq<TableRow>, ignored: seq<string>, included: seq<string>,
                         matches: (string, string) -> bool)
    ensures IsSubsequence(FilterTables(rows, ignored, included, matches), rows)
    ensures forall r ::
      (r in FilterTables(rows, ignored, included, matches) <==> r in rows && Eligible(r.name, ignored, included, matches))
  {
    var k1 := (r: TableRow) => !Contains(r.name, "knex_");
    var k2 := (r: TableRow) => !(exists i :: 0 <= i < |ignored| && matches(r.name, ignored[i]));
    var k3 := (r: TableRow) => |included| == 0 || exists i :: 0 <= i < |included| && matches(r.name, included[i]);
    var r1 := Filter(rows, k1);
    var r2 := Filter(r1, k2);
    FilterSubsequence(rows, k1);
    FilterSubsequence(r1, k2);
    FilterSubsequence(r2, k3);
    SubsequenceTrans(r2, r1, rows);
    SubsequenceTrans(Filter(r2, k3), r2, rows);
    FilterMembers(rows, k1);
    FilterMembers(r1, k2);
    FilterMembers(r2, k3);
  }

  /** Every eligible row is kept as often as the schema lists it, and no other row is kept. */
  lemma FilterTablesCount(rows: seq<TableRow>, ignored: seq<string>, included: seq<string>,
                          matches: (string, string) -> bool)
    ensures forall r ::
      multiset(FilterTables(rows, ignored, included, matches))[r]
      == if Eligible(r.name, ignored, included, matches) then multiset(rows)[r] else 0
  {
    var k1 := (r: TableRow) => !Contains(r.name, "knex_");
    var k2 := (r: TableRow) => !(exists i :: 0 <= i < |ignored| && matches(r.name, ignored[i]));
    var k3 := (r: TableRow) => |included| == 0 || exists i :: 0 <= i < |included| && matches(r.name, included[i]);
    var r1 := Filter(rows, k1);
    var r2 := Filter(r1, k2);
    var out := Filter(r2, k3);
    assert out == FilterTables(rows, ignored, included, matches);
    FilterCount(rows, k1);
    FilterCount(r1, k2);
    FilterCount(r2, k3);
    forall r: TableRow
      ensures multiset(out)[r]
        == if Eligible(r.name, ignored, included, matches) then multiset(rows)[r] else 0
    {
      assert Eligible(r.name, ignored, included, matches) <==> k1(r) && k2(r) && k3(r);
    }
  }
}
