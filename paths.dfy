/** The parts of Go's `path/filepath` the core uses, `Dir` and `Join`, on
    slash-separated paths. Both are written for paths that need no
    cleaning (no empty, "." or ".." element inside the path); on such paths
    they agree with the Go functions, which clean their result. */
module Paths {
  import opened Wrappers
  import opened Strings

  /** The last position of `c` in `s`. */
  function LastIndexOf(s: string, c: char): (r: Option<nat>)
    ensures r.None? <==> c !in s
    ensures r.Some? ==> r.value < |s| && s[r.value] == c && c !in s[r.value + 1..]
  {
    if s == [] then None
    else if s[|s| - 1] == c then Some(|s| - 1)
    else
      var r := LastIndexOf(s[..|s| - 1], c);
      assert s == s[..|s| - 1] + [s[|s| - 1]];
      if r.Some? then
        assert s[r.value + 1..] == s[..|s| - 1][r.value + 1..] + [s[|s| - 1]];
        r
      else r
  }

  /** The two paths at which the directory walk stops. */
  predicate IsTop(p: string) {
    p == "." || p == "/"
  }

  /** A measure that every Dir step below the top lowers. */
  function Height(p: string): nat {
    if IsTop(p) then 0 else |p| + 1
  }

  /** filepath.Dir: everything before the last slash; "." when there is no
      slash and "/" when the only one is the first character. */
  function Dir(p: string): (r: string)
    ensures r == "." || r == "/" || (0 < |r| < |p| && r == p[..|r|] && p[|r|] == '/')
    ensures !IsTop(p) ==> Height(r) < Height(p)
  {
    match LastIndexOf(p, '/')
    case None => "."
    case Some(i) => if i == 0 then "/" else p[..i]
  }

  /** A path without a slash is a name in the current directory. */
  lemma DirOfName(p: string)
    requires '/' !in p
    ensures Dir(p) == "."
  {
  }

  /** The parent of `d/e`, for a single name `e`, is `d`. */
  lemma DirOfChild(d: string, e: string)
    requires d != [] && e != [] && '/' !in e
    ensures Dir(d + "/" + e) == d
  {
    var p := d + "/" + e;
    assert p[|d| + 1..] == e;
    assert p[|d|] == '/';
    assert LastIndexOf(p, '/') == Some(|d|);
    assert p[..|d|] == d;
  }

  /** filepath.Join without the final cleaning: the non-empty elements,
      in order, separated by single slashes; "" when all are empty. */
  function Join(elems: seq<string>): (r: string)
    ensures r == "" <==> forall i :: 0 <= i < |elems| ==> elems[i] == ""
  {
    if elems == [] then ""
    else
      var init := Join(elems[..|elems| - 1]);
      var last := elems[|elems| - 1];
      assert forall i :: 0 <= i < |elems| - 1 ==> elems[..|elems| - 1][i] == elems[i];
      if last == "" then init
      else if init == "" then last
      else init + "/" + last
  }

  /** Join of names that are neither empty nor hold a slash splits back
      into those names. */
  lemma {:induction false} SplitJoin(elems: seq<string>)
    requires elems != []
    requires forall i :: 0 <= i < |elems| ==> elems[i] != "" && '/' !in elems[i]
    ensures SplitOn(Join(elems), '/') == elems
  {
    var init := elems[..|elems| - 1];
    var last := elems[|elems| - 1];
    SplitOnNoSep(last, '/');
    if init == [] {
      assert elems == [last];
    } else {
      SplitJoin(init);
      assert Join(init) != "" by {
        assert init[0] == elems[0];
      }
      assert Join(elems) == Join(init) + "/" + last;
      assert Join(init) + "/" + last == Join(init) + ['/'] + last;
      SplitOnConcat(Join(init), '/', last);
      assert elems == init + [last];
    }
  }

  /** The parent of a joined path whose last element is a single name is
      the join of the elements before it. */
  lemma DirOfJoin(elems: seq<string>, e: string)
    requires Join(elems) != "" && e != "" && '/' !in e
    ensures Join(elems + [e]) == Join(elems) + "/" + e
    ensures Dir(Join(elems + [e])) == Join(elems)
  {
    assert (elems + [e])[..|elems|] == elems;
    DirOfChild(Join(elems), e);
  }
}
