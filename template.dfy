/** The `{{name}}` template engine: one left-to-right pass replacing each
    placeholder by the context's value, and the template constructor that drops
    one leading and one trailing line break. */
module Template {
  import opened Wrappers
  import opened Text

  /** The values a template is filled with, by name. */
  type Context = map<string, string>

  /** A context value as the replacement callback hands it back: a missing name
      gives JavaScript's string form of `undefined`. */
  function Lookup(ctx: Context, name: string): string {
    if name in ctx then ctx[name] else "undefined"
  }

  predicate AllWord(s: string) {
    forall i :: 0 <= i < |s| ==> IsWordChar(s[i])
  }

  /** The placeholder for `name`. */
  function Placeholder(name: string): string {
    "{{" + name + "}}"
  }

  /** `name` is a valid placeholder name, and `t` spells its placeholder at `i`. */
  predicate OccursAt(t: string, i: nat, name: string) {
    |name| > 0 && AllWord(name) && i + |name| + 4 <= |t| && t[i..i + |name| + 4] == Placeholder(name)
  }

  /** No placeholder is spelled anywhere in `t`. */
  ghost predicate NoPlaceholder(t: string) {
    forall i: nat, name: string :: !OccursAt(t, i, name)
  }

  /** The end of the run of word characters starting at `j`. */
  function WordEnd(t: string, j: nat): (e: nat)
    requires j <= |t|
    ensures j <= e <= |t|
    decreases |t| - j
  {
    if j < |t| && IsWordChar(t[j]) then WordEnd(t, j + 1) else j
  }

  /** The placeholder `t` starts with, as its name and its length: `{{`, the
      longest run of word characters, which must be non-empty, then `}}`. */
  function Lead(t: string): (r: Option<(string, nat)>)
    ensures r.Some? ==> 4 < r.value.1 <= |t|
  {
    if |t| >= 2 && t[0] == '{' && t[1] == '{' then
      var e := WordEnd(t, 2);
      if e > 2 && e + 2 <= |t| && t[e] == '}' && t[e + 1] == '}' then Some((t[2..e], e + 2))
      else None
    else None
  }

  /** `format`: the template with every placeholder replaced, scanning once from
      the left and resuming after each replacement. */
  function Format(t: string, ctx: Context): string
    decreases |t|
  {
    if |t| == 0 then ""
    else match Lead(t)
      case Some((name, k)) => Lookup(ctx, name) + Format(t[k..], ctx)
      case None => [t[0]] + Format(t[1..], ctx)
  }

  /** The template with one leading line break and then one trailing line break
      removed, when present. */
  function Strip(t: string): string {
    var t1 := if |t| > 0 && t[0] == '\n' then t[1..] else t;
    if |t1| > 0 && t1[|t1| - 1] == '\n' then t1[..|t1| - 1] else t1
  }

  /** `getFormat`: the template is stripped once, and the result fills it. */
  function GetFormat(t: string): Context -> string {
    var s := Strip(t);
    ctx => Format(s, ctx)
  }

  lemma {:induction false} WordEndSpec(t: string, j: nat)
    requires j <= |t|
    ensures forall m :: j <= m < WordEnd(t, j) ==> IsWordChar(t[m])
    ensures WordEnd(t, j) < |t| ==> !IsWordChar(t[WordEnd(t, j)])
    decreases |t| - j
  {
    if j < |t| && IsWordChar(t[j]) {
      WordEndSpec(t, j + 1);
    }
  }

  lemma {:induction false} WordEndIs(t: string, j: nat, m: nat)
    requires j <= m <= |t|
    requires forall k :: j <= k < m ==> IsWordChar(t[k])
    requires m < |t| ==> !IsWordChar(t[m])
    ensures WordEnd(t, j) == m
    decreases m - j
  {
    if j < m {
      WordEndIs(t, j + 1, m);
    }
  }

  /** A run of word characters inside `p` ends at the same place when `p` is
      followed by a non-word character. */
  lemma {:induction false} WordEndAppend(p: string, s: string, j: nat)
    requires j <= |p| && |s| > 0 && !IsWordChar(s[0])
    ensures WordEnd(p + s, j) == WordEnd(p, j)
    decreases |p| - j
  {
    if j < |p| {
      WordEndAppend(p, s, j + 1);
    }
  }

  /** What the scanner takes for a leading placeholder is one. */
  lemma LeadSound(t: string)
    ensures Lead(t).Some? ==> Lead(t).value.1 == |Lead(t).value.0| + 4 && OccursAt(t, 0, Lead(t).value.0)
  {
    if Lead(t).Some? {
      WordEndSpec(t, 2);
    }
  }

  /** A leading placeholder is always found, with its whole name. */
  lemma LeadComplete(t: string, name: string)
    requires OccursAt(t, 0, name)
    ensures Lead(t) == Some((name, |name| + 4))
  {
    var m := |name| + 2;
    assert t[..m + 2] == Placeholder(name);
    assert t[2..m] == name;
    assert t[m] == '}' && t[m + 1] == '}';
    WordEndIs(t, 2, m);
  }

  /** A text followed by something that starts with `{{` has the same leading
      placeholder as the text alone: no placeholder spans the seam. */
  lemma LeadAppend(p: string, s: string)
    requires |p| > 0 && |s| >= 2 && s[0] == '{' && s[1] == '{'
    ensures Lead(p + s) == Lead(p)
  {
    var t := p + s;
    if |p| >= 2 {
      WordEndAppend(p, s, 2);
      var e := WordEnd(p, 2);
      if e + 2 <= |p| {
        assert t[2..e] == p[2..e] && t[e] == p[e] && t[e + 1] == p[e + 1];
      } else if e == |p| {
        assert t[e] == '{';
      } else {
        assert t[e + 1] == '{';
      }
    } else if t[0] == '{' && t[1] == '{' {
      WordEndIs(t, 2, 2);
    }
  }

  /** Filling a text followed by something that starts with `{{` fills the two
      parts separately. */
  lemma {:induction false} FormatAppend(p: string, s: string, ctx: Context)
    requires |s| >= 2 && s[0] == '{' && s[1] == '{'
    ensures Format(p + s, ctx) == Format(p, ctx) + Format(s, ctx)
    decreases |p|
  {
    if |p| == 0 {
      AppendEmpty(s);
    } else {
      LeadAppend(p, s);
      match Lead(p)
      case Some((name, k)) =>
        assert (p + s)[k..] == p[k..] + s;
        FormatAppend(p[k..], s, ctx);
        AppendAssoc(Lookup(ctx, name), Format(p[k..], ctx), Format(s, ctx));
      case None =>
        assert (p + s)[1..] == p[1..] + s;
        FormatAppend(p[1..], s, ctx);
        AppendAssoc([p[0]], Format(p[1..], ctx), Format(s, ctx));
    }
  }

  /** A leading placeholder becomes its value, inserted as it is. */
  lemma FormatLead(name: string, q: string, ctx: Context)
    requires |name| > 0 && AllWord(name)
    ensures Format(Placeholder(name) + q, ctx) == Lookup(ctx, name) + Format(q, ctx)
  {
    var t := Placeholder(name) + q;
    assert t[..|name| + 4] == Placeholder(name);
    LeadComplete(t, name);
    assert t[|name| + 4..] == q;
  }

  /** Each placeholder is replaced by its value wherever it stands, and the text
      around it is filled independently: a value is never scanned again, even
      when it spells a placeholder itself. */
  lemma FormatSubstitute(p: string, name: string, q: string, ctx: Context)
    requires |name| > 0 && AllWord(name)
    ensures Format(p + Placeholder(name) + q, ctx) == Format(p, ctx) + Lookup(ctx, name) + Format(q, ctx)
    ensures Format(Placeholder(name), ctx) == Lookup(ctx, name)
  {
    AppendAssoc(p, Placeholder(name), q);
    FormatAppend(p, Placeholder(name) + q, ctx);
    FormatLead(name, q, ctx);
    AppendAssoc(Format(p, ctx), Lookup(ctx, name), Format(q, ctx));
    FormatLead(name, "", ctx);
    AppendEmptyRight(Placeholder(name));
    AppendEmptyRight(Lookup(ctx, name));
  }

  lemma OccursShift(t: string, i: nat, name: string)
    requires |t| > 0
    ensures OccursAt(t[1..], i, name) ==> OccursAt(t, i + 1, name)
  {
    if OccursAt(t[1..], i, name) {
      assert t[1..][i..i + |name| + 4] == t[i + 1..i + 1 + |name| + 4];
    }
  }

  /** A template that spells no placeholder is returned unchanged. */
  lemma {:induction false} FormatNoPlaceholder(t: string, ctx: Context)
    requires NoPlaceholder(t)
    ensures Format(t, ctx) == t
    decreases |t|
  {
    if |t| > 0 {
      LeadSound(t);
      assert Lead(t).None?;
      assert NoPlaceholder(t[1..]) by {
        forall i: nat, name: string
          ensures !OccursAt(t[1..], i, name)
        {
          OccursShift(t, i, name);
        }
      }
      FormatNoPlaceholder(t[1..], ctx);
    }
  }

  /** Exactly one line break is removed at each end, even when more follow. */
  lemma StripSpec(s: string)
    ensures Strip("\n" + s + "\n") == s
    ensures Strip("\n") == ""
    ensures |s| == 0 || (s[0] != '\n' && s[|s| - 1] != '\n') ==> Strip(s) == s
    ensures |s| == 0 || s[|s| - 1] != '\n' ==> Strip("\n" + s) == s
    ensures |s| == 0 || s[0] != '\n' ==> Strip(s + "\n") == s
  {
    assert ("\n" + s + "\n")[1..] == s + "\n";
    assert ("\n" + s)[1..] == s;
  }

  /** The filler `getFormat` returns strips the template once and fills it. */
  lemma GetFormatSpec(t: string, ctx: Context)
    ensures GetFormat(t)(ctx) == Format(Strip(t), ctx)
    ensures NoPlaceholder(Strip(t)) ==> GetFormat(t)(ctx) == Strip(t)
  {
    if NoPlaceholder(Strip(t)) {
      FormatNoPlaceholder(Strip(t), ctx);
    }
  }
}
