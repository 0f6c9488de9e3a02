/** The JavaScript string operations the generator relies on (`indexOf`, `split`,
    `join`, `substring`, `trim`, `includes`, `toUpperCase`), as functions on
    `seq<char>` with the behaviour JavaScript gives them. */
module Text {

  /** JavaScript's `\s` class and the set `String.prototype.trim` removes: the
      WhiteSpace characters (tab, vertical tab, form feed, space, no-break space,
      byte-order mark and the Unicode `Zs` category) and the LineTerminators
      (line feed, carriage return, line and paragraph separator). */
  predicate IsSpace(c: char) {
    || c == '\t' || c == '\n' || c == '\U{B}' || c == '\U{C}' || c == '\r' || c == ' '
    || c == '\U{A0}' || c == '\U{1680}' || ('\U{2000}' <= c <= '\U{200A}')
    || c == '\U{2028}' || c == '\U{2029}' || c == '\U{202F}' || c == '\U{205F}'
    || c == '\U{3000}' || c == '\U{FEFF}'
  }

  /** JavaScript's `\w` class without the `u` flag. */
  predicate IsWordChar(c: char) {
    ('a' <= c <= 'z') || ('A' <= c <= 'Z') || ('0' <= c <= '9') || c == '_'
  }

  predicate AllSpaces(s: string) {
    forall i :: 0 <= i < |s| ==> IsSpace(s[i])
  }

  /** `s.indexOf(c)`, except that an absent character gives `|s|` instead of -1. */
  function IndexOf(s: string, c: char): (k: nat)
    ensures k <= |s|
    ensures c !in s[..k]
    ensures k < |s| ==> s[k] == c
  {
    if |s| == 0 then 0
    else if s[0] == c then 0
    else 1 + IndexOf(s[1..], c)
  }

  /** The first occurrence is the only index that is preceded by no occurrence. */
  lemma IndexOfIs(s: string, c: char, m: nat)
    requires m <= |s| && c !in s[..m]
    requires m < |s| ==> s[m] == c
    ensures IndexOf(s, c) == m
  {
  }

  /** The index of the first character at or after `i` that is not `\s`. */
  function SkipSpaces(s: string, i: nat): (k: nat)
    requires i <= |s|
    ensures i <= k <= |s|
    decreases |s| - i
  {
    if i < |s| && IsSpace(s[i]) then SkipSpaces(s, i + 1) else i
  }

  /** What `SkipSpaces` skips is whitespace, and it stops at a non-space. */
  lemma {:induction false} SkipSpacesSpec(s: string, i: nat)
    requires i <= |s|
    ensures var k := SkipSpaces(s, i); AllSpaces(s[i..k]) && (k < |s| ==> !IsSpace(s[k]))
    decreases |s| - i
  {
    if i < |s| && IsSpace(s[i]) {
      SkipSpacesSpec(s, i + 1);
      var k := SkipSpaces(s, i + 1);
      assert s[i..k] == [s[i]] + s[i + 1..k];
    }
  }

  lemma AllSpacesEach(s: string, i: nat, m: nat)
    requires i <= m <= |s| && AllSpaces(s[i..m])
    ensures forall k :: i <= k < m ==> IsSpace(s[k])
  {
    forall k | i <= k < m
      ensures IsSpace(s[k])
    {
      assert s[i..m][k - i] == s[k];
    }
  }

  lemma NotInSlice<T>(s: seq<T>, j: nat, k: nat, c: T)
    requires j <= k <= |s| && c !in s[j..k]
    ensures forall x :: j <= x < k ==> s[x] != c
  {
    forall x | j <= x < k
      ensures s[x] != c
    {
      assert s[j..k][x - j] == s[x];
    }
  }

  /** A run of whitespace followed by a non-space is skipped exactly. */
  lemma SkipSpacesIs(s: string, i: nat, m: nat)
    requires i <= m <= |s|
    requires AllSpaces(s[i..m])
    requires m < |s| ==> !IsSpace(s[m])
    ensures SkipSpaces(s, i) == m
  {
    var k := SkipSpaces(s, i);
    SkipSpacesSpec(s, i);
    AllSpacesEach(s, i, m);
    AllSpacesEach(s, i, k);
  }

  /** `parts.join(sep)`. */
  function Join(parts: seq<string>, sep: string): string
  {
    if |parts| == 0 then ""
    else if |parts| == 1 then parts[0]
    else parts[0] + sep + Join(parts[1..], sep)
  }

  lemma JoinThree(a: string, b: string, c: string, sep: string)
    ensures Join([a, b, c], sep) == a + sep + b + sep + c
  {
    assert [a, b, c][1..] == [b, c] && [b, c][1..] == [c];
    assert Join([c], sep) == c;
    assert Join([b, c], sep) == b + sep + c;
    AppendAssoc(a + sep, b + sep, c);
  }

  /** `s.split(c)` for a one-character separator: the pieces between occurrences
      of `c`, always at least one (the empty string splits into `[""]`). */
  function Split(s: string, c: char): (r: seq<string>)
    ensures |r| >= 1
    decreases |s|
  {
    var k := IndexOf(s, c);
    if k == |s| then [s] else [s[..k]] + Split(s[k + 1..], c)
  }

  /** No piece of a split holds the separator. */
  lemma {:induction false} SplitPieces(s: string, c: char)
    ensures forall i :: 0 <= i < |Split(s, c)| ==> c !in Split(s, c)[i]
    decreases |s|
  {
    var k := IndexOf(s, c);
    if k < |s| {
      SplitPieces(s[k + 1..], c);
    }
  }

  /** Every occurrence of `c` in `s` replaced by `rep`, character by character:
      the reference meaning of the `split(c).join(rep)` idiom. */
  function ReplaceAll(s: string, c: char, rep: string): string
  {
    if |s| == 0 then ""
    else (if s[0] == c then rep else [s[0]]) + ReplaceAll(s[1..], c, rep)
  }

  lemma {:induction false} ReplaceAllAppend(a: string, b: string, c: char, rep: string)
    ensures ReplaceAll(a + b, c, rep) == ReplaceAll(a, c, rep) + ReplaceAll(b, c, rep)
  {
    if |a| > 0 {
      assert (a + b)[1..] == a[1..] + b;
      ReplaceAllAppend(a[1..], b, c, rep);
    } else {
      assert a + b == b;
    }
  }

  lemma {:induction false} ReplaceAllAbsent(s: string, c: char, rep: string)
    requires c !in s
    ensures ReplaceAll(s, c, rep) == s
  {
    if |s| > 0 {
      ReplaceAllAbsent(s[1..], c, rep);
    }
  }

  lemma JoinCons(p: string, parts: seq<string>, sep: string)
    requires |parts| >= 1
    ensures Join([p] + parts, sep) == p + sep + Join(parts, sep)
  {
    assert ([p] + parts)[1..] == parts;
  }

  lemma SplitCons(s: string, c: char, k: nat)
    requires k < |s| && IndexOf(s, c) == k
    ensures Split(s, c) == [s[..k]] + Split(s[k + 1..], c)
  {
  }

  /** Replacing in a string whose first `c` is at `k`: the part before it is kept. */
  lemma ReplaceAllAt(s: string, c: char, rep: string, k: nat)
    requires k < |s| && s[k] == c && c !in s[..k]
    ensures ReplaceAll(s, c, rep) == s[..k] + (rep + ReplaceAll(s[k + 1..], c, rep))
  {
    var head, rest := s[..k], s[k + 1..];
    var tail := [c] + rest;
    assert s == head + tail;
    ReplaceAllAppend(head, tail, c, rep);
    ReplaceAllAbsent(head, c, rep);
    assert tail[1..] == rest;
  }

  /** `s.split(c).join(rep)` replaces every `c` by `rep`. */
  lemma {:induction false} JoinSplit(s: string, c: char, rep: string)
    ensures Join(Split(s, c), rep) == ReplaceAll(s, c, rep)
    decreases |s|
  {
    var k := IndexOf(s, c);
    if k == |s| {
      assert s[..k] == s;
      ReplaceAllAbsent(s, c, rep);
    } else {
      var head, rest := s[..k], s[k + 1..];
      ReplaceAllAt(s, c, rep, k);
      JoinSplit(rest, c, rep);
      SplitCons(s, c, k);
      JoinCons(head, Split(rest, c), rep);
      AppendAssoc(head, rep, ReplaceAll(rest, c, rep));
    }
  }

  /** Replacing every `c` by itself changes nothing. */
  lemma {:induction false} ReplaceAllSelf(s: string, c: char)
    ensures ReplaceAll(s, c, [c]) == s
  {
    if |s| > 0 {
      ReplaceAllSelf(s[1..], c);
      assert s == [s[0]] + s[1..];
    }
  }

  /** The first piece of a split is the text before the first separator. */
  lemma SplitFirst(s: string, c: char)
    ensures Split(s, c)[0] == s[..IndexOf(s, c)]
  {
  }

  /** There is a second piece exactly when the separator occurs, and it is the
      first piece of the rest. */
  lemma SplitSecond(s: string, c: char)
    ensures var k := IndexOf(s, c);
      (k < |s| ==> |Split(s, c)| >= 2 && Split(s, c)[1] == Split(s[k + 1..], c)[0])
      && (k == |s| ==> |Split(s, c)| == 1)
  {
  }

  /** Joining the pieces with the separator gives back the string: `split` loses nothing. */
  lemma SplitJoinRoundTrip(s: string, c: char)
    ensures Join(Split(s, c), [c]) == s
  {
    JoinSplit(s, c, [c]);
    ReplaceAllSelf(s, c);
  }

  function Min(a: int, b: int): int { if a <= b then a else b }
  function Max(a: int, b: int): int { if a <= b then b else a }

  /** `s.substring(start, end)`: both indices are clamped to `[0, |s|]` and swapped
      when the start is past the end. */
  function JsSubstring(s: string, start: int, end: int): (r: string)
    ensures |r| <= |s|
    ensures 0 <= start <= end <= |s| ==> r == s[start..end]
  {
    var a := Min(Max(start, 0), |s|);
    var b := Min(Max(end, 0), |s|);
    s[Min(a, b)..Max(a, b)]
  }

  /** The swap rule: the order of the two indices does not matter. */
  lemma JsSubstringSymmetric(s: string, i: int, j: int)
    ensures JsSubstring(s, i, j) == JsSubstring(s, j, i)
  {
  }

  /** The index just past the last non-space character before `j`. */
  function TrimEndIndex(s: string, j: nat): (k: nat)
    requires j <= |s|
    ensures k <= j
    ensures forall m :: k <= m < j ==> IsSpace(s[m])
    ensures k > 0 ==> !IsSpace(s[k - 1])
  {
    if j > 0 && IsSpace(s[j - 1]) then TrimEndIndex(s, j - 1) else j
  }

  /** `s.trim()`: the leading and trailing `\s` characters removed. */
  function Trim(s: string): (r: string)
    ensures |r| <= |s|
    ensures r == "" <==> AllSpaces(s)
    ensures r != "" ==> !IsSpace(r[0]) && !IsSpace(r[|r| - 1])
  {
    var i := SkipSpaces(s, 0);
    SkipSpacesSpec(s, 0);
    var j := TrimEndIndex(s, |s|);
    if j <= i then
      assert AllSpaces(s) by {
        forall m | 0 <= m < |s| ensures IsSpace(s[m]) {
          if m < i { assert s[0..i][m] == s[m]; }
        }
      }
      ""
    else
      s[i..j]
  }

  /** `trim` removes whitespace only at the ends: the result is a slice of `s`
      with nothing but whitespace before it and after it. With the non-space
      ends `Trim` ensures, this slice is the widest one. */
  lemma TrimSlice(s: string)
    ensures exists i, j :: 0 <= i <= j <= |s| && Trim(s) == s[i..j] && AllSpaces(s[..i]) && AllSpaces(s[j..])
  {
    var i := SkipSpaces(s, 0);
    SkipSpacesSpec(s, 0);
    var j := TrimEndIndex(s, |s|);
    assert AllSpaces(s[j..]) by {
      forall m | 0 <= m < |s[j..]| ensures IsSpace(s[j..][m]) {
        assert s[j..][m] == s[j + m];
      }
    }
    if j <= i {
      assert AllSpaces(s[..|s|]) by {
        assert s[..|s|] == s;
      }
      assert Trim(s) == s[|s|..|s|];
      assert AllSpaces(s[|s|..]);
    } else {
      assert s[..i] == s[0..i];
      assert Trim(s) == s[i..j];
    }
  }

  /** A string that neither starts nor ends with whitespace is its own trim; in
      particular trimming twice is trimming once. */
  lemma TrimIdempotent(s: string)
    ensures s == "" || (!IsSpace(s[0]) && !IsSpace(s[|s| - 1])) ==> Trim(s) == s
    ensures Trim(Trim(s)) == Trim(s)
  {
    if s != "" && !IsSpace(s[0]) && !IsSpace(s[|s| - 1]) {
      SkipSpacesIs(s, 0, 0);
      assert TrimEndIndex(s, |s|) == |s|;
    }
    var t := Trim(s);
    if t != "" {
      SkipSpacesIs(t, 0, 0);
      assert TrimEndIndex(t, |t|) == |t|;
    }
  }

  /** Moving the head of `b` to the end of `a` keeps the concatenation. */
  lemma AppendHead<T>(a: seq<T>, b: seq<T>)
    requires |b| > 0
    ensures a + [b[0]] + b[1..] == a + b
  {
    assert b == [b[0]] + b[1..];
  }

  lemma AppendAssoc<T>(a: seq<T>, b: seq<T>, c: seq<T>)
    ensures a + b + c == a + (b + c)
  {
  }

  lemma AppendAssoc4<T>(a: seq<T>, b: seq<T>, c: seq<T>, d: seq<T>, e: seq<T>)
    ensures a + (b + c + d + e) == a + b + c + (d + e)
  {
  }

  lemma AppendEmpty<T>(b: seq<T>)
    ensures [] + b == b
  {
  }

  lemma AppendEmptyRight<T>(a: seq<T>)
    ensures a + [] == a
  {
  }

  /** A sequence that starts with `acc + [g]` starts with `acc`, and `g` heads the rest. */
  lemma PrefixStep<T>(xs: seq<T>, acc: seq<T>, g: T)
    requires |acc| + 1 <= |xs| && xs[..|acc| + 1] == acc + [g]
    ensures xs[..|acc|] == acc
    ensures xs[|acc|..] == [g] + xs[|acc| + 1..]
  {
    assert xs[..|acc|] == xs[..|acc| + 1][..|acc|];
    assert xs[|acc|] == xs[..|acc| + 1][|acc|];
  }

  /** A slice splits at any index in between. */
  lemma SliceSplit(s: string, a: nat, b: nat, c: nat)
    requires a <= b <= c <= |s|
    ensures s[a..c] == s[a..b] + s[b..c]
  {
  }

  lemma SliceCons(s: string, a: nat, b: nat)
    requires a < b <= |s|
    ensures s[a..b] == [s[a]] + s[a + 1..b]
  {
  }

  lemma SliceFirst(s: string, i: nat, j: nat, x: string)
    requires i < j <= |s| && s[i..j] == x
    ensures s[i] == x[0]
  {
    assert s[i..j][0] == s[i];
  }

  /** A slice spelling `x + y` spells `x` and then `y`. */
  lemma SliceParts(s: string, i: nat, x: string, y: string)
    requires i + |x| + |y| <= |s| && s[i..i + |x| + |y|] == x + y
    ensures s[i..i + |x|] == x && s[i + |x|..i + |x| + |y|] == y
  {
    var w := s[i..i + |x| + |y|];
    assert s[i..i + |x|] == w[..|x|] == (x + y)[..|x|] == x;
    assert s[i + |x|..i + |x| + |y|] == w[|x|..] == (x + y)[|x|..] == y;
  }

  /** `w` occurs in `s` at index `p`, compared character by character. */
  predicate OccursAt(s: string, p: nat, w: string)
    decreases |w|
  {
    p <= |s| && (|w| == 0 || (p < |s| && s[p] == w[0] && OccursAt(s, p + 1, w[1..])))
  }

  /** Character-by-character occurrence is equality of the slice. */
  lemma {:induction false} OccursAtSlice(s: string, p: nat, w: string)
    ensures OccursAt(s, p, w) <==> p + |w| <= |s| && s[p..p + |w|] == w
    decreases |w|
  {
    if |w| > 0 {
      OccursAtSlice(s, p + 1, w[1..]);
      if p + |w| <= |s| {
        var v := s[p..p + |w|];
        assert v[0] == s[p] && v[1..] == s[p + 1..p + |w|];
        if v == w {
          assert s[p] == w[0] && s[p + 1..p + |w|] == w[1..];
        }
      } else {
        assert !OccursAt(s, p + 1, w[1..]);
      }
    }
  }

  /** `s.includes(w)`. */
  predicate Contains(s: string, w: string) {
    exists p :: 0 <= p <= |s| && OccursAt(s, p, w)
  }

  /** `String.prototype.toUpperCase` on one character, for ASCII letters. */
  function ToUpper(c: char): (u: char)
    ensures 'a' <= c <= 'z' ==> 'A' <= u <= 'Z' && u as int == c as int - 32
    ensures !('a' <= c <= 'z') ==> u == c
  {
    if 'a' <= c <= 'z' then (c as int - 32) as char else c
  }
}
