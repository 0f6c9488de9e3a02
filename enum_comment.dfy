/** The enum micro-syntax inside a column comment: `enum('v1','v2:label',...)`.

    The pattern is `enum\('[^']+'(,\s*'[^']+')+\)`, taken at its leftmost match.
    At any start position it can match in at most one way (each `[^']+` must run
    to the next quote, each `\s*` to the next non-space), so it is modelled by a
    scanner, `MatchAt`, proved equivalent to the grammar `ListText`. */
module EnumComment {
  import opened Wrappers
  import opened Text
  import opened ColumnTypes

  /** Base types whose comment enum becomes a bare union (`1 | 2`). */
  const EnumNumberTypes: seq<string> :=
    ["int", "smallint", "mediumint", "bigint", "float", "double", "numeric", "tinyint"]
  /** Base types whose comment enum becomes a union of quoted strings (`'1' | '2'`). */
  const EnumStringTypes: seq<string> :=
    ["char", "varchar", "text", "mediumtext", "longtext", "decimal"]

  /** One repetition `,\s*'token'`: the whitespace after the comma and the token. */
  datatype Group = Group(space: string, token: string)

  /** A match: the first token, the repetitions after it, and the index just past `)`. */
  datatype Match = Match(first: string, groups: seq<Group>, end: nat)

  /** One parsed entry: the text before the first colon and the label after it. */
  datatype EnumItem = EnumItem(value: string, labelText: string)

  function Quote(t: string): string { "'" + t + "'" }

  lemma QuoteFacts(t: string)
    ensures |Quote(t)| == |t| + 2 && Quote(t)[0] == '\''
  {
  }

  /** `[^']+`: non-empty and free of single quotes. */
  predicate ValidToken(t: string) { |t| >= 1 && '\'' !in t }

  predicate ValidGroups(gs: seq<Group>) {
    forall j :: 0 <= j < |gs| ==> AllSpaces(gs[j].space) && ValidToken(gs[j].token)
  }

  /** A well-formed list: two tokens or more. */
  predicate ValidList(first: string, gs: seq<Group>) {
    ValidToken(first) && |gs| >= 1 && ValidGroups(gs)
  }

  function GroupsText(gs: seq<Group>): string {
    if |gs| == 0 then "" else "," + gs[0].space + Quote(gs[0].token) + GroupsText(gs[1..])
  }

  /** The grammar: the text that `first` and `gs` spell. */
  function ListText(first: string, gs: seq<Group>): string {
    "enum(" + Quote(first) + GroupsText(gs) + ")"
  }

  function GroupTokens(gs: seq<Group>): (ts: seq<string>)
    ensures |ts| == |gs|
  {
    if |gs| == 0 then [] else [gs[0].token] + GroupTokens(gs[1..])
  }

  /** The tokens of a match, in order. */
  function Tokens(m: Match): seq<string> { [m.first] + GroupTokens(m.groups) }

  /** The index of the first single quote at or after `j`, or `|s|`. */
  function NextQuote(s: string, j: nat): (k: nat)
    requires j <= |s|
    ensures j <= k <= |s|
    decreases |s| - j
  {
    if j < |s| && s[j] != '\'' then NextQuote(s, j + 1) else j
  }

  lemma {:induction false} NextQuoteSpec(s: string, j: nat)
    requires j <= |s|
    ensures var k := NextQuote(s, j); '\'' !in s[j..k] && (k < |s| ==> s[k] == '\'')
    decreases |s| - j
  {
    if j < |s| && s[j] != '\'' {
      NextQuoteSpec(s, j + 1);
      var k := NextQuote(s, j + 1);
      assert s[j..k] == [s[j]] + s[j + 1..k];
    }
  }

  /** `'[^']+'` at index `i`: the token and the index just past the closing quote. */
  function QuotedAt(s: string, i: nat): (r: Option<(string, nat)>)
    requires i <= |s|
    ensures r.Some? ==> i < r.value.1 <= |s|
  {
    if i < |s| && s[i] == '\'' then
      var k := NextQuote(s, i + 1);
      if i + 1 < k < |s| then Some((s[i + 1..k], k + 1)) else None
    else None
  }

  /** What `QuotedAt` reads is a quoted token, spelled exactly. */
  lemma QuotedAtSpec(s: string, i: nat)
    requires i <= |s| && QuotedAt(s, i).Some?
    ensures var (t, e) := QuotedAt(s, i).value;
      ValidToken(t) && e == i + |t| + 2 && s[i..e] == Quote(t)
  {
    var k := NextQuote(s, i + 1);
    NextQuoteSpec(s, i + 1);
    SliceCons(s, i, k + 1);
    assert s[i + 1..k + 1] == s[i + 1..k] + [s[k]];
  }

  /** One repetition `,\s*'[^']+'` at index `i`, and the index just past it. */
  function GroupAt(s: string, i: nat): (r: Option<(Group, nat)>)
    requires i <= |s|
    ensures r.Some? ==> i < |s| && s[i] == ',' && i < r.value.1 <= |s|
  {
    if i < |s| && s[i] == ',' then
      var k := SkipSpaces(s, i + 1);
      match QuotedAt(s, k)
      case None => None
      case Some((t, e)) => Some((Group(s[i + 1..k], t), e))
    else None
  }

  /** The repetitions from index `i`, after the first token and the groups `acc`:
      another repetition while one is there, then the closing `)`. */
  function GroupsFrom(s: string, i: nat, first: string, acc: seq<Group>): (r: Option<Match>)
    requires i <= |s|
    ensures r.Some? ==> i < r.value.end <= |s|
    decreases |s| - i
  {
    if i < |s| && s[i] == ')' then
      if |acc| >= 1 then Some(Match(first, acc, i + 1)) else None
    else
      match GroupAt(s, i)
      case None => None
      case Some((g, e)) => GroupsFrom(s, e, first, acc + [g])
  }

  /** The match of the pattern that starts at `p`, if any. */
  function MatchAt(s: string, p: nat): (r: Option<Match>)
    requires p <= |s|
    ensures r.Some? ==> p < r.value.end <= |s|
  {
    if OccursAt(s, p, "enum(") then
      match QuotedAt(s, p + 5)
      case None => None
      case Some((t, e)) => GroupsFrom(s, e, t, [])
    else None
  }

  /** What `GroupAt` reads is one repetition, spelled exactly. */
  lemma GroupAtSound(s: string, i: nat)
    requires i <= |s| && GroupAt(s, i).Some?
    ensures var (g, e) := GroupAt(s, i).value;
      AllSpaces(g.space) && ValidToken(g.token) && s[i..e] == "," + g.space + Quote(g.token)
  {
    var k := SkipSpaces(s, i + 1);
    var (t, e) := QuotedAt(s, k).value;
    SkipSpacesSpec(s, i + 1);
    QuotedAtSpec(s, k);
    assert GroupAt(s, i) == Some((Group(s[i + 1..k], t), e));
    SliceCons(s, i, e);
    SliceSplit(s, i + 1, k, e);
    assert [s[i]] == ",";
    assert s[i..e] == "," + (s[i + 1..k] + s[k..e]);
  }

  lemma GroupsTextCons(g: Group, gs: seq<Group>)
    ensures GroupsText([g] + gs) == "," + g.space + Quote(g.token) + GroupsText(gs)
  {
    assert ([g] + gs)[1..] == gs;
  }

  lemma ValidGroupsSnoc(acc: seq<Group>, g: Group)
    requires ValidGroups(acc) && AllSpaces(g.space) && ValidToken(g.token)
    ensures ValidGroups(acc + [g])
  {
  }

  lemma {:induction false} GroupsFromSound(s: string, i: nat, first: string, acc: seq<Group>, m: Match)
    requires i <= |s| && GroupsFrom(s, i, first, acc) == Some(m)
    requires ValidGroups(acc)
    ensures m.first == first && |m.groups| >= 1 && ValidGroups(m.groups)
    ensures |acc| <= |m.groups| && m.groups[..|acc|] == acc
    ensures i < m.end <= |s| && s[i..m.end] == GroupsText(m.groups[|acc|..]) + ")"
    decreases |s| - i
  {
    if i < |s| && s[i] == ')' {
      assert m == Match(first, acc, i + 1);
      assert m.groups[|acc|..] == [];
      assert s[i..i + 1] == [s[i]];
    } else {
      var (g, e) := GroupAt(s, i).value;
      GroupAtSound(s, i);
      ValidGroupsSnoc(acc, g);
      GroupsFromSound(s, e, first, acc + [g], m);
      PrefixStep(m.groups, acc, g);
      var tail := m.groups[|acc| + 1..];
      GroupsTextCons(g, tail);
      SliceSplit(s, i, e, m.end);
      assert s[i..m.end] == ("," + g.space + Quote(g.token)) + (GroupsText(tail) + ")");
    }
  }

  /** Soundness: what the scanner matches is a well-formed list spelled by the grammar. */
  lemma MatchAtSound(s: string, p: nat)
    requires p <= |s| && MatchAt(s, p).Some?
    ensures var m := MatchAt(s, p).value;
      ValidList(m.first, m.groups) && s[p..m.end] == ListText(m.first, m.groups)
  {
    var m := MatchAt(s, p).value;
    var t, e := QuotedAt(s, p + 5).value.0, QuotedAt(s, p + 5).value.1;
    QuotedAtSpec(s, p + 5);
    GroupsFromSound(s, e, t, [], m);
    assert m.groups[0..] == m.groups;
    OccursAtSlice(s, p, "enum(");
    SliceSplit(s, p, p + 5, m.end);
    SliceSplit(s, p + 5, e, m.end);
  }

  /** The first quote at or after `j` is the one at `m` when none comes between. */
  lemma NextQuoteIs(s: string, j: nat, m: nat)
    requires j <= m < |s| && s[m] == '\'' && '\'' !in s[j..m]
    ensures NextQuote(s, j) == m
  {
    var k := NextQuote(s, j);
    NextQuoteSpec(s, j);
    NotInSlice(s, j, m, '\'');
    NotInSlice(s, j, k, '\'');
  }

  lemma QuotedAtComplete(s: string, i: nat, t: string)
    requires ValidToken(t) && i + |t| + 2 <= |s| && s[i..i + |t| + 2] == Quote(t)
    ensures QuotedAt(s, i) == Some((t, i + |t| + 2))
  {
    var m := i + 1 + |t|;
    assert s[i] == '\'' && s[i + 1..m] == t && s[m] == '\'' by {
      assert Quote(t) == "'" + (t + "'");
      SliceParts(s, i, "'", t + "'");
      SliceFirst(s, i, i + 1, "'");
      SliceParts(s, i + 1, t, "'");
      SliceFirst(s, m, m + 1, "'");
    }
    NextQuoteIs(s, i + 1, m);
  }

  lemma GroupAtIs(s: string, i: nat, k: nat, t: string, e: nat)
    requires i < |s| && s[i] == ',' && SkipSpaces(s, i + 1) == k && QuotedAt(s, k) == Some((t, e))
    ensures GroupAt(s, i) == Some((Group(s[i + 1..k], t), e))
  {
  }

  /** The parts of a repetition `,\s*'token'` spelled at `i`. */
  lemma GroupParts(s: string, i: nat, g: Group, rest: string)
    requires i + 1 + |g.space| + |Quote(g.token)| + |rest| <= |s|
    requires s[i..i + 1 + |g.space| + |Quote(g.token)| + |rest|] == "," + g.space + Quote(g.token) + rest
    ensures var k := i + 1 + |g.space|; var e := k + |g.token| + 2;
      s[i] == ',' && s[i + 1..k] == g.space && s[k..e] == Quote(g.token) && s[e..e + |rest|] == rest
  {
    var k := i + 1 + |g.space|;
    var q := Quote(g.token);
    assert s[i] == ',' && s[i + 1..k] == g.space && s[k..k + |q| + |rest|] == q + rest by {
      AppendAssoc("," + g.space, q, rest);
      SliceParts(s, i, "," + g.space, q + rest);
      SliceParts(s, i, ",", g.space);
      SliceFirst(s, i, i + 1, ",");
    }
    QuoteFacts(g.token);
    SliceParts(s, k, q, rest);
  }

  /** One repetition `,\s*'token'` spelled at `i` is what `GroupAt` reads there. */
  lemma GroupAtComplete(s: string, i: nat, g: Group, rest: string)
    requires AllSpaces(g.space) && ValidToken(g.token)
    requires i + 1 + |g.space| + |Quote(g.token)| + |rest| <= |s|
    requires s[i..i + 1 + |g.space| + |Quote(g.token)| + |rest|] == "," + g.space + Quote(g.token) + rest
    ensures var e := i + 1 + |g.space| + |g.token| + 2;
      s[e..e + |rest|] == rest && GroupAt(s, i) == Some((g, e))
  {
    var k := i + 1 + |g.space|;
    var e := k + |g.token| + 2;
    GroupParts(s, i, g, rest);
    SkipSpacesIs(s, i + 1, k);
    QuotedAtComplete(s, k, g.token);
    GroupAtIs(s, i, k, g.token, e);
  }

  /** A `)` after at least one repetition closes the match. */
  lemma GroupsFromClose(s: string, i: nat, first: string, acc: seq<Group>)
    requires |acc| >= 1 && i + 1 <= |s| && s[i..i + 1] == "" + ")"
    ensures GroupsFrom(s, i, first, acc) == Some(Match(first, acc, i + 1))
  {
    assert s[i] == s[i..i + 1][0];
  }

  /** The first repetition spelled at `i` is read, leaving the others spelled after it. */
  lemma GroupsFromStep(s: string, i: nat, first: string, acc: seq<Group>, gs: seq<Group>) returns (e: nat)
    requires ValidGroups(gs) && |gs| >= 1
    requires i + |GroupsText(gs)| + 1 <= |s| && s[i..i + |GroupsText(gs)| + 1] == GroupsText(gs) + ")"
    ensures e + |GroupsText(gs[1..])| == i + |GroupsText(gs)|
    ensures s[e..e + |GroupsText(gs[1..])| + 1] == GroupsText(gs[1..]) + ")"
    ensures GroupsFrom(s, i, first, acc) == GroupsFrom(s, e, first, acc + [gs[0]])
  {
    var g := gs[0];
    var rest := GroupsText(gs[1..]) + ")";
    ValidGroupsTail(gs);
    GroupsTextHead(gs);
    GroupAtComplete(s, i, g, rest);
    e := i + 1 + |g.space| + |g.token| + 2;
    GroupsFromAt(s, i, first, acc, g, e);
  }

  lemma GroupsTextHead(gs: seq<Group>)
    requires |gs| >= 1
    ensures GroupsText(gs) + ")" == "," + gs[0].space + Quote(gs[0].token) + (GroupsText(gs[1..]) + ")")
  {
    AppendAssoc("," + gs[0].space + Quote(gs[0].token), GroupsText(gs[1..]), ")");
  }

  /** A repetition read at `i` moves the scan past it. */
  lemma GroupsFromAt(s: string, i: nat, first: string, acc: seq<Group>, g: Group, e: nat)
    requires i <= |s| && GroupAt(s, i) == Some((g, e))
    ensures GroupsFrom(s, i, first, acc) == GroupsFrom(s, e, first, acc + [g])
  {
  }

  lemma {:induction false} GroupsFromComplete(s: string, i: nat, first: string, acc: seq<Group>, gs: seq<Group>, all: seq<Group>, end: nat)
    requires ValidGroups(gs) && |acc| + |gs| >= 1 && all == acc + gs
    requires end == i + |GroupsText(gs)| + 1 <= |s| && s[i..end] == GroupsText(gs) + ")"
    ensures GroupsFrom(s, i, first, acc) == Some(Match(first, all, end))
    decreases |gs|
  {
    if |gs| == 0 {
      assert gs == [];
      AppendEmptyRight(acc);
      assert GroupsText(gs) == "";
      GroupsFromClose(s, i, first, acc);
    } else {
      var e := GroupsFromStep(s, i, first, acc, gs);
      AppendHead(acc, gs);
      GroupsFromComplete(s, e, first, acc + [gs[0]], gs[1..], all, end);
    }
  }

  /** The repetitions spelled after `enum('first'` complete the match `MatchAt` reads. */
  lemma MatchAtFinish(s: string, p: nat, first: string, gs: seq<Group>, e: nat)
    requires ValidGroups(gs) && |gs| >= 1 && e == p + 5 + |first| + 2
    requires p + 5 <= |s| && OccursAt(s, p, "enum(") && QuotedAt(s, p + 5) == Some((first, e))
    requires e + |GroupsText(gs) + ")"| <= |s| && s[e..e + |GroupsText(gs) + ")"|] == GroupsText(gs) + ")"
    ensures MatchAt(s, p) == Some(Match(first, gs, p + |ListText(first, gs)|))
  {
    AppendEmpty(gs);
    ListTextLength(first, gs);
    GroupsFromComplete(s, e, first, [], gs, gs, p + |ListText(first, gs)|);
  }

  lemma ListTextLength(first: string, gs: seq<Group>)
    ensures |ListText(first, gs)| == 5 + |first| + 2 + |GroupsText(gs)| + 1
  {
  }

  /** `enum('first'` spelled at `p` is what `MatchAt` reads before the repetitions. */
  lemma HeadComplete(s: string, p: nat, first: string, tail: string)
    requires ValidToken(first)
    requires p + 5 + |Quote(first) + tail| <= |s| && s[p..p + 5 + |Quote(first) + tail|] == "enum(" + (Quote(first) + tail)
    ensures var e := p + 5 + |first| + 2;
      OccursAt(s, p, "enum(") && QuotedAt(s, p + 5) == Some((first, e)) && s[e..e + |tail|] == tail
  {
    SliceParts(s, p, "enum(", Quote(first) + tail);
    OccursAtSlice(s, p, "enum(");
    SliceParts(s, p + 5, Quote(first), tail);
    QuotedAtComplete(s, p + 5, first);
  }

  /** Completeness: a well-formed list spelled at `p` is what the scanner finds there. */
  lemma MatchAtComplete(s: string, p: nat, first: string, gs: seq<Group>)
    requires ValidList(first, gs)
    requires p + |ListText(first, gs)| <= |s| && s[p..p + |ListText(first, gs)|] == ListText(first, gs)
    ensures MatchAt(s, p) == Some(Match(first, gs, p + |ListText(first, gs)|))
  {
    var tail := GroupsText(gs) + ")";
    assert ListText(first, gs) == "enum(" + (Quote(first) + tail);
    HeadComplete(s, p, first, tail);
    MatchAtFinish(s, p, first, gs, p + 5 + |first| + 2);
  }

  /** The leftmost match at or after `p`, as the `g`-flagged `match` reports first. */
  function FirstMatchFrom(s: string, p: nat): (r: Option<(nat, Match)>)
    requires p <= |s|
    ensures r.Some? ==> p <= r.value.0 <= |s| && MatchAt(s, r.value.0) == Some(r.value.1)
    decreases |s| - p
  {
    match MatchAt(s, p)
    case Some(m) => Some((p, m))
    case None => if p == |s| then None else FirstMatchFrom(s, p + 1)
  }

  /** The match found is the leftmost one: no match starts between `p` and it,
      and when none is found no index at or after `p` starts one. */
  lemma {:induction false} FirstMatchLeftmost(s: string, p: nat)
    requires p <= |s|
    ensures var r := FirstMatchFrom(s, p);
      (r.Some? ==> forall q :: p <= q < r.value.0 ==> MatchAt(s, q).None?)
      && (r.None? ==> forall q :: p <= q <= |s| ==> MatchAt(s, q).None?)
    decreases |s| - p
  {
    if MatchAt(s, p).None? && p < |s| {
      FirstMatchLeftmost(s, p + 1);
      var r := FirstMatchFrom(s, p + 1);
      assert FirstMatchFrom(s, p) == r;
      var bound := if r.Some? then r.value.0 else |s| + 1;
      forall q | p <= q < bound
        ensures MatchAt(s, q).None?
      {
        if q == p {
        }
      }
    }
  }

  /** `split(/,\s*\/)`: the pieces between commas, each comma taking the
      whitespace after it. */
  function SplitCommaSpaces(s: string): (r: seq<string>)
    ensures |r| >= 1
    decreases |s|
  {
    var k := IndexOf(s, ',');
    if k == |s| then [s] else [s[..k]] + SplitCommaSpaces(s[SkipSpaces(s, k + 1)..])
  }

  /** A comma-free piece is the last one. */
  lemma SplitCommaSpacesLast(x: string)
    requires ',' !in x
    ensures SplitCommaSpaces(x) == [x]
  {
    assert x[..|x|] == x;
    IndexOfIs(x, ',', |x|);
  }

  /** A comma and the whitespace after it end a comma-free piece. */
  lemma SplitCommaSpacesCons(x: string, sp: string, y: string)
    requires ',' !in x && AllSpaces(sp) && (|y| > 0 ==> !IsSpace(y[0]))
    ensures SplitCommaSpaces(x + "," + sp + y) == [x] + SplitCommaSpaces(y)
  {
    var s := x + "," + sp + y;
    var k := |x|;
    assert s[..k] == x;
    assert s[k] == ',';
    IndexOfIs(s, ',', k);
    var m := k + 1 + |sp|;
    assert s[k + 1..m] == sp;
    assert s[m..] == y;
    assert m < |s| ==> s[m] == y[0];
    SkipSpacesIs(s, k + 1, m);
  }

  /** Each token quoted. */
  function QuoteAll(ts: seq<string>): (r: seq<string>)
    ensures |r| == |ts|
  {
    if |ts| == 0 then [] else [Quote(ts[0])] + QuoteAll(ts[1..])
  }

  lemma {:induction false} QuoteAllAt(ts: seq<string>, i: nat)
    requires i < |ts|
    ensures QuoteAll(ts)[i] == Quote(ts[i])
    decreases i
  {
    if i > 0 {
      QuoteAllAt(ts[1..], i - 1);
    }
  }

  lemma QuoteAllCons(t: string, ts: seq<string>)
    ensures QuoteAll([t] + ts) == [Quote(t)] + QuoteAll(ts)
  {
    assert ([t] + ts)[1..] == ts;
  }

  /** No token holds a comma. */
  predicate CommaFree(ts: seq<string>) {
    forall i :: 0 <= i < |ts| ==> ',' !in ts[i]
  }

  lemma CommaFreeCons(t: string, ts: seq<string>)
    requires CommaFree([t] + ts)
    ensures ',' !in t && CommaFree(ts)
  {
    assert ([t] + ts)[0] == t;
    forall i | 0 <= i < |ts|
      ensures ',' !in ts[i]
    {
      assert ([t] + ts)[i + 1] == ts[i];
    }
  }

  lemma ValidGroupsTail(gs: seq<Group>)
    requires |gs| >= 1 && ValidGroups(gs)
    ensures AllSpaces(gs[0].space) && ValidToken(gs[0].token) && ValidGroups(gs[1..])
  {
    forall j | 0 <= j < |gs| - 1
      ensures AllSpaces(gs[1..][j].space) && ValidToken(gs[1..][j].token)
    {
      assert gs[1..][j] == gs[j + 1];
    }
  }

  lemma GroupTokensCons(gs: seq<Group>)
    requires |gs| >= 1
    ensures GroupTokens(gs) == [gs[0].token] + GroupTokens(gs[1..])
  {
  }

  /** When no token holds a comma, `split(/,\s*\/)` of the list body gives back the
      quoted tokens, one piece per token, in order. */
  lemma {:induction false} SplitQuoted(t: string, gs: seq<Group>)
    requires ValidGroups(gs) && CommaFree([t] + GroupTokens(gs))
    ensures SplitCommaSpaces(Quote(t) + GroupsText(gs)) == QuoteAll([t] + GroupTokens(gs))
    decreases |gs|
  {
    CommaFreeCons(t, GroupTokens(gs));
    assert ',' !in Quote(t);
    if |gs| == 0 {
      assert Quote(t) + GroupsText(gs) == Quote(t);
      SplitCommaSpacesLast(Quote(t));
      assert [t] + GroupTokens(gs) == [t];
    } else {
      var g, rest := gs[0], gs[1..];
      ValidGroupsTail(gs);
      GroupTokensCons(gs);
      var tail := Quote(g.token) + GroupsText(rest);
      AppendAssoc4(Quote(t), ",", g.space, Quote(g.token), GroupsText(rest));
      QuoteFacts(g.token);
      SplitCommaSpacesCons(Quote(t), g.space, tail);
      SplitQuoted(g.token, rest);
      QuoteAllCons(t, [g.token] + GroupTokens(rest));
    }
  }

  /** The body of a list: `enum(` and the closing `)` dropped. */
  lemma ListTextBody(first: string, gs: seq<Group>)
    ensures var l := ListText(first, gs);
      JsSubstring(l, 5, |l| - 1) == Quote(first) + GroupsText(gs)
  {
    var l := ListText(first, gs);
    assert l == "enum(" + (Quote(first) + GroupsText(gs)) + ")";
    assert l[5..|l| - 1] == Quote(first) + GroupsText(gs);
  }

  /** The value of a token: the text before its first colon. */
  function ValueOf(t: string): (v: string)
    ensures ':' !in v
  {
    t[..IndexOf(t, ':')]
  }

  /** `it.substring(1, it.length - 1).split(':', 2)` read into a value and a label. */
  function ItemOf(piece: string): EnumItem {
    var parts := Split(JsSubstring(piece, 1, |piece| - 1), ':');
    EnumItem(parts[0], if |parts| >= 2 then parts[1] else "")
  }

  /** `parseEnumComment`: the entries of the leftmost match, or `None` when there is none. */
  function ParseEnumComment(comment: string): (r: Option<seq<EnumItem>>)
    ensures r.Some? <==> FirstMatchFrom(comment, 0).Some?
  {
    match FirstMatchFrom(comment, 0)
    case None => None
    case Some((p, m)) =>
      var str := comment[p..m.end];
      var pieces := SplitCommaSpaces(JsSubstring(str, 5, |str| - 1));
      Some(seq(|pieces|, i requires 0 <= i < |pieces| => ItemOf(pieces[i])))
  }

  lemma QuoteBody(t: string)
    ensures JsSubstring(Quote(t), 1, |Quote(t)| - 1) == t
  {
    assert Quote(t)[1..|Quote(t)| - 1] == t;
  }

  /** A quoted token reads as its text before the first colon, and as label the text
      between the first colon and the next one (empty when there is no colon). */
  lemma ItemOfQuoted(t: string)
    ensures ItemOf(Quote(t)).value == ValueOf(t)
    ensures var k := IndexOf(t, ':');
      ItemOf(Quote(t)).labelText == if k < |t| then ValueOf(t[k + 1..]) else ""
  {
    QuoteBody(t);
    ItemOfBody(Quote(t), t);
    SplitFirst(t, ':');
    SplitSecond(t, ':');
    var k := IndexOf(t, ':');
    if k < |t| {
      SplitFirst(t[k + 1..], ':');
    }
  }

  lemma ItemOfBody(piece: string, t: string)
    requires JsSubstring(piece, 1, |piece| - 1) == t
    ensures var parts := Split(t, ':');
      ItemOf(piece) == EnumItem(parts[0], if |parts| >= 2 then parts[1] else "")
  {
  }

  /** With comma-free tokens, the entries are the leftmost match's tokens, one each,
      in order. */
  lemma ParseEnumCommentItems(comment: string)
    requires FirstMatchFrom(comment, 0).Some?
    requires CommaFree(Tokens(FirstMatchFrom(comment, 0).value.1))
    ensures var ts := Tokens(FirstMatchFrom(comment, 0).value.1);
      var items := ParseEnumComment(comment).value;
      |items| == |ts| >= 2 && forall i :: 0 <= i < |ts| ==> items[i] == ItemOf(Quote(ts[i]))
  {
    var (p, m) := FirstMatchFrom(comment, 0).value;
    MatchAtSound(comment, p);
    ListTextBody(m.first, m.groups);
    SplitQuoted(m.first, m.groups);
    QuoteAllEach(Tokens(m));
  }

  lemma QuoteAllEach(ts: seq<string>)
    ensures forall i :: 0 <= i < |ts| ==> QuoteAll(ts)[i] == Quote(ts[i])
  {
    forall i | 0 <= i < |ts|
      ensures QuoteAll(ts)[i] == Quote(ts[i])
    {
      QuoteAllAt(ts, i);
    }
  }

  /** One union member: the value itself for numeric columns, quoted for textual ones. */
  function Member(value: string, isNumber: bool): string {
    if isNumber then value else Quote(value)
  }

  function Members(items: seq<EnumItem>, isNumber: bool): (r: seq<string>)
    ensures |r| == |items|
  {
    seq(|items|, i requires 0 <= i < |items| => Member(items[i].value, isNumber))
  }

  /** `getColumnDataType_EnumFromComment`: a union type built from the comment's
      enum list, for the enum-eligible base types only. */
  function EnumFromComment(ctx: Ctx): (r: Option<TypeResult>)
    ensures r.Some? <==>
      ctx.dataType.Some? && ctx.dataType.value in EnumNumberTypes + EnumStringTypes
      && FirstMatchFrom(ctx.columnComment, 0).Some?
    ensures r.Some? ==> r.value.Annotated? && r.value.comment == Some(ctx.columnComment)
  {
    if ctx.dataType.Some? && ctx.dataType.value in EnumNumberTypes + EnumStringTypes then
      var isNumber := ctx.dataType.value in EnumNumberTypes;
      match ParseEnumComment(ctx.columnComment)
      case None => None
      case Some(items) => Some(Annotated(Join(Members(items, isNumber), " | "), Some(ctx.columnComment)))
    else None
  }

  /** The union members spelled from the tokens themselves: each token's value,
      bare or quoted. */
  function UnionMembers(ts: seq<string>, isNumber: bool): (r: seq<string>)
    ensures |r| == |ts|
  {
    seq(|ts|, i requires 0 <= i < |ts| => Member(ValueOf(ts[i]), isNumber))
  }

  /** With comma-free tokens the type is the values of the leftmost match's tokens,
      in order, joined by ` | `: bare for numeric base types, quoted for textual
      ones. The labels never reach the type. */
  lemma EnumFromCommentUnion(ctx: Ctx)
    requires ctx.dataType.Some? && ctx.dataType.value in EnumNumberTypes + EnumStringTypes
    requires FirstMatchFrom(ctx.columnComment, 0).Some?
    requires CommaFree(Tokens(FirstMatchFrom(ctx.columnComment, 0).value.1))
    ensures var ts := Tokens(FirstMatchFrom(ctx.columnComment, 0).value.1);
      var isNumber := ctx.dataType.value in EnumNumberTypes;
      EnumFromComment(ctx) == Some(Annotated(Join(UnionMembers(ts, isNumber), " | "), Some(ctx.columnComment)))
  {
    var ts := Tokens(FirstMatchFrom(ctx.columnComment, 0).value.1);
    var isNumber := ctx.dataType.value in EnumNumberTypes;
    ParseEnumCommentItems(ctx.columnComment);
    var items := ParseEnumComment(ctx.columnComment).value;
    forall i | 0 <= i < |ts|
      ensures Members(items, isNumber)[i] == UnionMembers(ts, isNumber)[i]
    {
      ItemOfQuoted(ts[i]);
    }
    assert Members(items, isNumber) == UnionMembers(ts, isNumber);
  }

  /** The comment `enum('1','2:ss','3')` is one list of three tokens starting at 0. */
  lemma ExampleMatch()
    ensures FirstMatchFrom("enum('1','2:ss','3')", 0)
      == Some((0, Match("1", [Group("", "2:ss"), Group("", "3")], 20)))
  {
    var s := "enum('1','2:ss','3')";
    var gs := [Group("", "2:ss"), Group("", "3")];
    ExampleList(s, gs);
    MatchAtComplete(s, 0, "1", gs);
  }

  lemma ExampleList(s: string, gs: seq<Group>)
    requires s == "enum('1','2:ss','3')" && gs == [Group("", "2:ss"), Group("", "3")]
    ensures ListText("1", gs) == s && |s| == 20 && ValidList("1", gs)
  {
    GroupsTextCons(gs[1], []);
    assert [gs[1]] + [] == gs[1..];
    GroupsTextCons(gs[0], gs[1..]);
    assert [gs[0]] + gs[1..] == gs;
    assert GroupsText(gs) == ",'2:ss','3'";
  }

  lemma ExampleValue(t: string, v: string)
    requires (t == "1" && v == "1") || (t == "2:ss" && v == "2") || (t == "3" && v == "3")
    ensures ValueOf(t) == v
  {
    assert t[..1] == v;
    IndexOfIs(t, ':', 1);
  }

  /** The tokens of that comment and the union members they give. */
  lemma ExampleMembers(ts: seq<string>, isNumber: bool)
    requires ts == ["1", "2:ss", "3"]
    ensures CommaFree(ts)
    ensures UnionMembers(ts, isNumber) == [Member("1", isNumber), Member("2", isNumber), Member("3", isNumber)]
  {
    ExampleValue("1", "1");
    ExampleValue("2:ss", "2");
    ExampleValue("3", "3");
    var u := UnionMembers(ts, isNumber);
    assert u[0] == Member("1", isNumber) && u[1] == Member("2", isNumber) && u[2] == Member("3", isNumber);
  }

  lemma ExampleJoin(isNumber: bool)
    ensures Join([Member("1", isNumber), Member("2", isNumber), Member("3", isNumber)], " | ")
      == if isNumber then "1 | 2 | 3" else "'1' | '2' | '3'"
  {
    JoinThree(Member("1", isNumber), Member("2", isNumber), Member("3", isNumber), " | ");
  }

  lemma ExampleTypes()
    ensures "int" in EnumNumberTypes && "text" !in EnumNumberTypes
    ensures "int" in EnumNumberTypes + EnumStringTypes && "text" in EnumNumberTypes + EnumStringTypes
  {
    assert EnumNumberTypes[0] == "int";
    assert (EnumNumberTypes + EnumStringTypes)[10] == "text";
  }

  /** The comment `enum('1','2:ss','3')` types a numeric column as `1 | 2 | 3` and a
      textual one as `'1' | '2' | '3'`, the label `ss` left out. */
  lemma ExampleEnumFromComment(ctx: Ctx)
    requires ctx.dataType == Some("int") || ctx.dataType == Some("text")
    requires ctx.columnComment == "enum('1','2:ss','3')"
    ensures EnumFromComment(ctx) == Some(Annotated(
      if ctx.dataType == Some("int") then "1 | 2 | 3" else "'1' | '2' | '3'", Some(ctx.columnComment)))
  {
    ExampleMatch();
    var m := FirstMatchFrom(ctx.columnComment, 0).value.1;
    assert m == Match("1", [Group("", "2:ss"), Group("", "3")], 20);
    var ts := Tokens(m);
    assert ts == ["1", "2:ss", "3"];
    ExampleTypes();
    var isNumber := ctx.dataType == Some("int");
    ExampleMembers(ts, isNumber);
    ExampleJoin(isNumber);
    EnumFromCommentUnion(ctx);
  }
}
