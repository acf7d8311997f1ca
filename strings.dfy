/** The parts of Go's `strings` and `unicode` packages that the core relies on:
    `unicode.IsSpace`, `strings.TrimLeftFunc(_, unicode.IsSpace)`,
    `strings.TrimSpace`, `strings.Index`, `strings.SplitN(_, sep, 2)`,
    `strings.HasPrefix` and a one-character `strings.Split`. */
module Strings {
  import opened Wrappers

  /** unicode.IsSpace: the Latin-1 white space characters and the other
      characters with the Unicode White_Space property. */
  predicate IsSpace(c: char) {
    c == '\t' || c == '\n' || c == '\U{000B}' || c == '\U{000C}' || c == '\r' || c == ' '
    || c == '\U{0085}' || c == '\U{00A0}' || c == '\U{1680}'
    || ('\U{2000}' <= c <= '\U{200A}')
    || c == '\U{2028}' || c == '\U{2029}' || c == '\U{202F}' || c == '\U{205F}' || c == '\U{3000}'
  }

  /** strings.TrimLeftFunc(s, unicode.IsSpace): leading white space
      removed. */
  function TrimLeftSpace(s: string): (r: string)
    ensures |r| <= |s|
  {
    if |s| > 0 && IsSpace(s[0]) then TrimLeftSpace(s[1..]) else s
  }

  /** TrimLeftFunc keeps the longest suffix that does not start with white
      space. */
  lemma {:induction false} TrimLeftSpaceSpec(s: string)
    ensures var r := TrimLeftSpace(s);
            && r == s[|s| - |r|..]
            && (forall i :: 0 <= i < |s| - |r| ==> IsSpace(s[i]))
            && (r == [] || !IsSpace(r[0]))
  {
    if |s| > 0 && IsSpace(s[0]) {
      TrimLeftSpaceSpec(s[1..]);
    }
  }

  /** Trailing white space removed. */
  function TrimRightSpace(s: string): (r: string)
    ensures |r| <= |s|
  {
    if |s| > 0 && IsSpace(s[|s| - 1]) then TrimRightSpace(s[..|s| - 1]) else s
  }

  /** The longest prefix that does not end with white space. */
  lemma {:induction false} TrimRightSpaceSpec(s: string)
    ensures var r := TrimRightSpace(s);
            && r == s[..|r|]
            && (forall i :: |r| <= i < |s| ==> IsSpace(s[i]))
            && (r == [] || !IsSpace(r[|r| - 1]))
  {
    if |s| > 0 && IsSpace(s[|s| - 1]) {
      TrimRightSpaceSpec(s[..|s| - 1]);
    }
  }

  /** strings.TrimSpace: leading and trailing white space removed. */
  function TrimSpace(s: string): (r: string)
    ensures |r| <= |s|
  {
    TrimRightSpace(TrimLeftSpace(s))
  }

  /** TrimSpace keeps a contiguous part of its input and drops only white
      space on either side of it. */
  lemma TrimSpaceInfix(s: string)
    ensures var k := |s| - |TrimLeftSpace(s)|;
            var r := TrimSpace(s);
            && k + |r| <= |s| && r == s[k..k + |r|]
            && (forall i :: 0 <= i < k ==> IsSpace(s[i]))
            && (forall i :: k + |r| <= i < |s| ==> IsSpace(s[i]))
  {
    var l := TrimLeftSpace(s);
    var r := TrimRightSpace(l);
    var k := |s| - |l|;
    TrimLeftSpaceSpec(s);
    TrimRightSpaceSpec(l);
    assert l == s[k..];
    assert r == l[..|r|];
    forall i | k + |r| <= i < |s|
      ensures IsSpace(s[i])
    {
      assert s[i] == l[i - k];
    }
  }

  /** The result of TrimSpace has no white space at either end. */
  lemma TrimSpaceIsTrimmed(s: string)
    ensures Trimmed(TrimSpace(s))
  {
    var l := TrimLeftSpace(s);
    var r := TrimRightSpace(l);
    TrimLeftSpaceSpec(s);
    TrimRightSpaceSpec(l);
    if r != [] {
      assert r[0] == l[0];
    }
  }

  /** `sep` occurs in `s` starting at position `i`, compared character by
      character. */
  predicate OccursAt(s: string, sep: string, i: nat)
    decreases |sep|
  {
    i + |sep| <= |s| && (sep == [] || (s[i] == sep[0] && OccursAt(s, sep[1..], i + 1)))
  }

  lemma {:induction false} OccursAtSlice(s: string, sep: string, i: nat)
    ensures OccursAt(s, sep, i) <==> i + |sep| <= |s| && s[i..i + |sep|] == sep
    decreases |sep|
  {
    if sep != [] && i + |sep| <= |s| {
      OccursAtSlice(s, sep[1..], i + 1);
      assert s[i..i + |sep|] == [s[i]] + s[i + 1..i + 1 + |sep[1..]|];
      assert sep == [sep[0]] + sep[1..];
    }
  }

  function IndexFrom(s: string, sep: string, from: nat): (r: Option<nat>)
    requires from <= |s|
    decreases |s| - from
    ensures r.Some? ==> from <= r.value && r.value + |sep| <= |s|
  {
    if OccursAt(s, sep, from) then Some(from)
    else if from == |s| then None
    else IndexFrom(s, sep, from + 1)
  }

  lemma {:induction false} IndexFromSpec(s: string, sep: string, from: nat)
    requires from <= |s|
    decreases |s| - from
    ensures var r := IndexFrom(s, sep, from);
            && (r.Some? ==> OccursAt(s, sep, r.value)
                            && forall j :: from <= j < r.value ==> !OccursAt(s, sep, j))
            && (r.None? ==> forall j :: from <= j <= |s| ==> !OccursAt(s, sep, j))
  {
    if !OccursAt(s, sep, from) && from < |s| {
      IndexFromSpec(s, sep, from + 1);
    }
  }

  /** strings.Index: the first position at which `sep` occurs in `s`. */
  function Index(s: string, sep: string): (r: Option<nat>)
    ensures r.Some? ==> r.value + |sep| <= |s|
  {
    IndexFrom(s, sep, 0)
  }

  lemma IndexSpec(s: string, sep: string)
    ensures var r := Index(s, sep);
            && (r.Some? ==> OccursAt(s, sep, r.value)
                            && forall j :: 0 <= j < r.value ==> !OccursAt(s, sep, j))
            && (r.None? ==> forall j :: 0 <= j <= |s| ==> !OccursAt(s, sep, j))
  {
    IndexFromSpec(s, sep, 0);
  }

  /** strings.SplitN(s, sep, 2) for a non-empty `sep` (every caller passes
      ":", "<text>" or "</text>"): `[s]` when `sep` does not occur,
      otherwise the text before the first occurrence and the text after
      it. Go splits at the first UTF-8 character when `sep` is empty; that
      case is not modelled. */
  function SplitN2(s: string, sep: string): (r: seq<string>)
    ensures |r| == 1 || |r| == 2
    ensures |r| == 1 <==> Index(s, sep).None?
  {
    match Index(s, sep)
    case None => [s]
    case Some(i) => [s[..i], s[i + |sep|..]]
  }

  lemma SplitN2Spec(s: string, sep: string)
    ensures var r := SplitN2(s, sep);
            && (|r| == 1 ==> r[0] == s)
            && (|r| == 2 ==> s == r[0] + sep + r[1]
                             && forall j :: 0 <= j < |r[0]| ==> !OccursAt(s, sep, j))
  {
    IndexSpec(s, sep);
    if Index(s, sep).Some? {
      var i := Index(s, sep).value;
      OccursAtSlice(s, sep, i);
      assert s == s[..i] + s[i..i + |sep|] + s[i + |sep|..];
    }
  }

  predicate HasPrefix(s: string, prefix: string) {
    OccursAt(s, prefix, 0)
  }

  /** strings.Split(s, [sep]) for a one-character separator: the maximal
      pieces of `s` between occurrences of `sep`; never empty. */
  function SplitOn(s: string, sep: char): (r: seq<string>)
    ensures |r| >= 1
    ensures forall i :: 0 <= i < |r| ==> sep !in r[i]
  {
    if s == [] then [""]
    else
      var rest := SplitOn(s[1..], sep);
      if s[0] == sep then [""] + rest
      else [[s[0]] + rest[0]] + rest[1..]
  }

  lemma {:induction false} SplitOnNoSep(s: string, sep: char)
    requires sep !in s
    ensures SplitOn(s, sep) == [s]
  {
    if s != [] {
      SplitOnNoSep(s[1..], sep);
      assert [s[0]] + s[1..] == s;
    }
  }

  /** Splitting distributes over a separator placed between two strings. */
  lemma {:induction false} SplitOnConcat(x: string, sep: char, y: string)
    ensures SplitOn(x + [sep] + y, sep) == SplitOn(x, sep) + SplitOn(y, sep)
  {
    if x == [] {
      assert x + [sep] + y == [sep] + y;
      assert ([sep] + y)[1..] == y;
    } else {
      assert (x + [sep] + y)[1..] == x[1..] + [sep] + y;
      SplitOnConcat(x[1..], sep, y);
    }
  }

  /** Text, a separator and a piece without separators split into the
      text's pieces followed by that piece. */
  lemma SplitBefore(x: string, sep: char, y: string)
    requires sep !in y
    ensures SplitOn(x + [sep] + y, sep) == SplitOn(x, sep) + [y]
  {
    SplitOnNoSep(y, sep);
    SplitOnConcat(x, sep, y);
  }

  /** Equal strings with an equal prefix have equal rests. */
  lemma CancelPrefix(p: string, m: string, m': string)
    requires p + m == p + m'
    ensures m == m'
  {
    assert (p + m)[|p|..] == m;
    assert (p + m')[|p|..] == m';
  }
  /** A first occurrence is the one Index reports. */
  lemma IndexIsFirst(s: string, sep: string, i: nat)
    requires OccursAt(s, sep, i)
    requires forall j :: 0 <= j < i ==> !OccursAt(s, sep, j)
    ensures Index(s, sep) == Some(i)
  {
    IndexSpec(s, sep);
  }

  /** Prepending a character that cannot start `sep` moves every
      occurrence one place right and adds none. */
  lemma IndexAfterChar(c: char, w: string, sep: string)
    requires |sep| > 0 && c != sep[0]
    ensures Index([c] + w, sep) == (if Index(w, sep).Some? then Some(Index(w, sep).value + 1) else None)
  {
    var s := [c] + w;
    forall j | 0 <= j <= |w|
      ensures OccursAt(s, sep, j + 1) <==> OccursAt(w, sep, j)
    {
      OccursAtSlice(s, sep, j + 1);
      OccursAtSlice(w, sep, j);
      if j + 1 + |sep| <= |s| {
        assert s[j + 1..j + 1 + |sep|] == w[j..j + |sep|];
      }
    }
    assert !OccursAt(s, sep, 0);
    IndexSpec(w, sep);
    IndexSpec(s, sep);
    match Index(w, sep)
    case None =>
      forall j | 0 <= j <= |s|
        ensures !OccursAt(s, sep, j)
      {
        if j > 0 {
          assert !OccursAt(w, sep, j - 1);
        }
      }
    case Some(k) =>
      forall j | 0 <= j < k + 1
        ensures !OccursAt(s, sep, j)
      {
        if j > 0 {
          assert !OccursAt(w, sep, j - 1);
        }
      }
      IndexIsFirst(s, sep, k + 1);
  }

  /** A one-character separator is found at its first occurrence. */
  lemma IndexOfChar(a: string, c: char, b: string)
    requires c !in a
    ensures Index(a + [c] + b, [c]) == Some(|a|)
  {
    var s := a + [c] + b;
    assert s[|a|] == c;
    forall j | 0 <= j < |a|
      ensures !OccursAt(s, [c], j)
    {
      assert s[j] == a[j];
    }
    IndexIsFirst(s, [c], |a|);
  }

  /** A one-character separator that does not occur is not found. */
  lemma IndexOfAbsentChar(s: string, c: char)
    requires c !in s
    ensures Index(s, [c]).None?
  {
    IndexSpec(s, [c]);
  }

  /** A marker whose first character does not recur in it is found right
      after a prefix that does not contain it; no occurrence can straddle
      the boundary. */
  lemma IndexOfMarker(v: string, sep: string, t: string)
    requires |sep| > 0 && sep[0] !in sep[1..]
    requires Index(v, sep).None?
    ensures Index(v + sep + t, sep) == Some(|v|)
  {
    var s := v + sep + t;
    IndexSpec(v, sep);
    assert s[|v|..|v| + |sep|] == sep;
    OccursAtSlice(s, sep, |v|);
    forall j | 0 <= j < |v|
      ensures !OccursAt(s, sep, j)
    {
      OccursAtSlice(s, sep, j);
      if j + |sep| <= |v| {
        OccursAtSlice(v, sep, j);
        assert s[j..j + |sep|] == v[j..j + |sep|];
      } else {
        var d := |v| - j;
        assert s[j..j + |sep|][d] == sep[0];
        assert sep[1..][d - 1] == sep[d];
      }
    }
    IndexIsFirst(s, sep, |v|);
  }

  /** Text with no white space at either end. */
  predicate Trimmed(s: string) {
    s == [] || (!IsSpace(s[0]) && !IsSpace(s[|s| - 1]))
  }

  lemma TrimSpaceOfTrimmed(s: string)
    requires Trimmed(s)
    ensures TrimLeftSpace(s) == s && TrimSpace(s) == s
  {
  }

  /** Leading white space makes no difference to TrimSpace. */
  lemma TrimSpaceAfterSpace(c: char, s: string)
    requires IsSpace(c)
    ensures TrimLeftSpace([c] + s) == TrimLeftSpace(s) && TrimSpace([c] + s) == TrimSpace(s)
  {
    assert ([c] + s)[1..] == s;
  }

  /** Text that starts with something other than white space is left as it
      is by TrimLeftFunc. */
  lemma TrimLeftOfNonSpace(s: string)
    requires s != [] && !IsSpace(s[0])
    ensures TrimLeftSpace(s) == s
  {
  }

  /** SplitN at a one-character separator that the first part does not
      contain. */
  lemma SplitAtChar(a: string, c: char, b: string)
    requires c !in a
    ensures SplitN2(a + [c] + b, [c]) == [a, b]
  {
    IndexOfChar(a, c, b);
    var s := a + [c] + b;
    assert s[..|a|] == a;
    assert s[|a| + 1..] == b;
  }

  /** SplitN at a marker of the kind IndexOfMarker describes. */
  lemma SplitAtMarker(v: string, sep: string, t: string)
    requires |sep| > 0 && sep[0] !in sep[1..]
    requires Index(v, sep).None?
    ensures SplitN2(v + sep + t, sep) == [v, t]
  {
    IndexOfMarker(v, sep, t);
    var s := v + sep + t;
    assert s[..|v|] == v;
    assert s[|v| + |sep|..] == t;
  }

  /** A one-character strings.Split gives a single piece exactly when the
      separator does not occur. */
  lemma {:induction false} SplitOnSingle(s: string, c: char)
    ensures |SplitOn(s, c)| == 1 <==> c !in s
  {
    if s != [] {
      SplitOnSingle(s[1..], c);
      assert s == [s[0]] + s[1..];
    }
  }

  /** Splitting once at a one-character separator: one piece exactly when
      the separator is absent, otherwise the text before its first
      occurrence, which does not contain it, and the rest. */
  lemma SplitN2AtChar(s: string, c: char)
    ensures var r := SplitN2(s, [c]);
            && (|r| == 1 <==> c !in s)
            && (|r| == 1 ==> r[0] == s)
            && (|r| == 2 ==> s == r[0] + [c] + r[1] && c !in r[0])
  {
    SplitN2Spec(s, [c]);
    IndexSpec(s, [c]);
    var r := SplitN2(s, [c]);
    if c in s {
      var j :| 0 <= j < |s| && s[j] == c;
      assert OccursAt(s, [c], j);
    }
    if |r| == 2 {
      forall j | 0 <= j < |r[0]|
        ensures r[0][j] != c
      {
        assert !OccursAt(s, [c], j);
        assert s[j] == r[0][j];
      }
    }
  }

  /** Splitting at the first occurrence is splitting at every occurrence
      when there are at most two pieces. */
  lemma SplitN2AsSplitOn(s: string, c: char)
    ensures var r := SplitN2(s, [c]);
            |r| == 2 ==> SplitOn(s, c) == [r[0]] + SplitOn(r[1], c)
  {
    SplitN2AtChar(s, c);
    var r := SplitN2(s, [c]);
    if |r| == 2 {
      SplitOnConcat(r[0], c, r[1]);
      SplitOnNoSep(r[0], c);
    }
  }
}
