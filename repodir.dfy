/** The directory list of a repository: every directory above the given
    file paths, once each, in Go's string order. */
module RepoDirs {
  import opened Paths

  /** Go's string order: byte-wise lexicographic, which on UTF-8 text is
      the order of the code points. */
  predicate Less(a: string, b: string)
    decreases |a|
  {
    (a == [] && b != []) || (a != [] && b != [] && (a[0] < b[0] || (a[0] == b[0] && Less(a[1..], b[1..]))))
  }

  predicate LessEq(a: string, b: string) {
    a == b || Less(a, b)
  }

  lemma {:induction false} LessIrreflexive(a: string)
    ensures !Less(a, a)
    decreases |a|
  {
    if a != [] {
      LessIrreflexive(a[1..]);
    }
  }

  lemma {:induction false} LessTotal(a: string, b: string)
    ensures a == b || Less(a, b) || Less(b, a)
    decreases |a|
  {
    if a != [] && b != [] && a[0] == b[0] {
      LessTotal(a[1..], b[1..]);
      if a[1..] == b[1..] {
        assert a == [a[0]] + a[1..] && b == [b[0]] + b[1..];
      }
    }
  }

  lemma {:induction false} LessTransitive(a: string, b: string, c: string)
    requires Less(a, b) && Less(b, c)
    ensures Less(a, c)
    decreases |a|
  {
    if a != [] && a[0] == b[0] && b[0] == c[0] {
      LessTransitive(a[1..], b[1..], c[1..]);
    }
  }

  lemma LessEqTransitive(a: string, b: string, c: string)
    requires LessEq(a, b) && LessEq(b, c)
    ensures LessEq(a, c)
  {
    if a != b && b != c {
      LessTransitive(a, b, c);
    }
  }

  predicate Sorted(s: seq<string>) {
    forall i, j :: 0 <= i < j < |s| ==> LessEq(s[i], s[j])
  }

  predicate StrictlySorted(s: seq<string>) {
    forall i, j :: 0 <= i < j < |s| ==> Less(s[i], s[j])
  }

  /** `x` placed before the first element it does not follow. */
  function Insert(x: string, s: seq<string>): (r: seq<string>)
    ensures multiset(r) == multiset(s) + multiset{x}
  {
    if s == [] then [x]
    else if LessEq(x, s[0]) then [x] + s
    else
      assert s == [s[0]] + s[1..];
      [s[0]] + Insert(x, s[1..])
  }

  /** A lower bound of a sorted sequence can go in front of it. */
  lemma SortedCons(a: string, t: seq<string>)
    requires Sorted(t)
    requires forall k :: 0 <= k < |t| ==> LessEq(a, t[k])
    ensures Sorted([a] + t)
  {
    var r := [a] + t;
    forall i, j | 0 <= i < j < |r|
      ensures LessEq(r[i], r[j])
    {
      assert r[j] == t[j - 1];
      if i > 0 {
        assert r[i] == t[i - 1];
      }
    }
  }

  lemma SortedTail(s: seq<string>)
    requires Sorted(s) && s != []
    ensures Sorted(s[1..])
  {
    forall i, j | 0 <= i < j < |s[1..]|
      ensures LessEq(s[1..][i], s[1..][j])
    {
      assert s[1..][i] == s[i + 1] && s[1..][j] == s[j + 1];
    }
  }

  /** A lower bound of `s` and of `x` bounds everything in Insert(x, s). */
  lemma InsertLowerBound(y: string, x: string, s: seq<string>)
    requires LessEq(y, x)
    requires forall k :: 0 <= k < |s| ==> LessEq(y, s[k])
    ensures forall k :: 0 <= k < |Insert(x, s)| ==> LessEq(y, Insert(x, s)[k])
  {
    var t := Insert(x, s);
    forall k | 0 <= k < |t|
      ensures LessEq(y, t[k])
    {
      assert t[k] in multiset(t);
      if t[k] != x {
        assert t[k] in multiset(s);
        var m :| 0 <= m < |s| && s[m] == t[k];
      }
    }
  }

  lemma {:induction false} InsertSorted(x: string, s: seq<string>)
    requires Sorted(s)
    ensures Sorted(Insert(x, s))
  {
    if s == [] {
    } else if LessEq(x, s[0]) {
      forall j | 0 <= j < |s|
        ensures LessEq(x, s[j])
      {
        if j > 0 {
          LessEqTransitive(x, s[0], s[j]);
        }
      }
      SortedCons(x, s);
    } else {
      SortedTail(s);
      InsertSorted(x, s[1..]);
      LessTotal(x, s[0]);
      assert forall k :: 0 <= k < |s[1..]| ==> LessEq(s[0], s[1..][k]);
      InsertLowerBound(s[0], x, s[1..]);
      SortedCons(s[0], Insert(x, s[1..]));
    }
  }

  /** sort.Strings, as the insertion sort it is equivalent to. */
  function SortStrings(s: seq<string>): (r: seq<string>)
    ensures multiset(r) == multiset(s)
  {
    if s == [] then []
    else
      assert s == s[..|s| - 1] + [s[|s| - 1]];
      Insert(s[|s| - 1], SortStrings(s[..|s| - 1]))
  }

  lemma {:induction false} SortStringsSorted(s: seq<string>)
    ensures Sorted(SortStrings(s))
  {
    if s != [] {
      SortStringsSorted(s[..|s| - 1]);
      InsertSorted(s[|s| - 1], SortStrings(s[..|s| - 1]));
    }
  }

  /** No element occurs twice. */
  predicate Distinct(s: seq<string>) {
    forall i, j :: 0 <= i < j < |s| ==> s[i] != s[j]
  }

  lemma {:induction false} DistinctCounts(s: seq<string>)
    requires Distinct(s)
    ensures forall x :: multiset(s)[x] <= 1
  {
    if s != [] {
      var t := s[..|s| - 1];
      assert Distinct(t) by {
        forall i, j | 0 <= i < j < |t|
          ensures t[i] != t[j]
        {
          assert t[i] == s[i] && t[j] == s[j];
        }
      }
      DistinctCounts(t);
      assert s == t + [s[|s| - 1]];
      assert s[|s| - 1] !in t by {
        forall i | 0 <= i < |t|
          ensures t[i] != s[|s| - 1]
        {
          assert t[i] == s[i];
        }
      }
    }
  }

  lemma CountsDistinct(s: seq<string>)
    requires forall x :: multiset(s)[x] <= 1
    ensures Distinct(s)
  {
    forall i, j | 0 <= i < j < |s|
      ensures s[i] != s[j]
    {
      var a, b, c := s[..i], s[i + 1..j], s[j + 1..];
      assert s == a + [s[i]] + b + [s[j]] + c;
      assert multiset(s) == multiset(a) + multiset{s[i]} + multiset(b) + multiset{s[j]} + multiset(c);
      assert multiset(s)[s[i]] >= 1 + (if s[j] == s[i] then 1 else 0);
    }
  }

  /** Sorting a list without duplicates gives a strictly increasing one. */
  lemma SortDistinct(s: seq<string>)
    requires Distinct(s)
    ensures StrictlySorted(SortStrings(s))
  {
    var r := SortStrings(s);
    SortStringsSorted(s);
    DistinctCounts(s);
    CountsDistinct(r);
  }

  /** The directories the inner loop of ExtractDirsFromPaths visits from
      `p`: Dir(p), Dir(Dir(p)), … down to and including "." or "/". */
  function Ancestors(p: string): set<string>
    decreases Height(p)
  {
    if IsTop(p) then {} else {Dir(p)} + Ancestors(Dir(p))
  }

  /** The directories collected for the first paths of the list. */
  function DirsOf(paths: seq<string>): set<string> {
    if paths == [] then {} else DirsOf(paths[..|paths| - 1]) + Ancestors(paths[|paths| - 1])
  }

  lemma AncestorsStep(p: string)
    requires !IsTop(p)
    ensures Ancestors(p) == {Dir(p)} + Ancestors(Dir(p))
  {
  }

  lemma DirsOfStep(paths: seq<string>, n: nat)
    requires n < |paths|
    ensures DirsOf(paths[..n + 1]) == DirsOf(paths[..n]) + Ancestors(paths[n])
  {
    assert paths[..n + 1][..n] == paths[..n];
  }

  /** The first loop of ExtractDirsFromPaths: walk up from every path to
      the top, adding each directory passed to the set. */
  method CollectDirs(paths: seq<string>) returns (dirs: set<string>)
    ensures dirs == DirsOf(paths)
  {
    dirs := {};
    var n := 0;
    while n < |paths|
      invariant 0 <= n <= |paths|
      invariant dirs == DirsOf(paths[..n])
    {
      var path := paths[n];
      var i := path;
      while i != "." && i != "/"
        invariant dirs + Ancestors(i) == DirsOf(paths[..n]) + Ancestors(path)
        decreases Height(i)
      {
        AncestorsStep(i);
        i := Dir(i);
        dirs := dirs + {i};
      }
      DirsOfStep(paths, n);
      n := n + 1;
    }
    assert paths[..n] == paths;
  }

  /** The second loop: a slice as long as the set, filled with its keys
      in some order, as Go's map iteration does. */
  method ListKeys(dirs: set<string>) returns (listed: array<string>)
    ensures fresh(listed)
    ensures listed.Length == |dirs|
    ensures Distinct(listed[..])
    ensures forall x :: x in listed[..] <==> x in dirs
  {
    listed := new string[|dirs|];
    var rest := dirs;
    var k := 0;
    while k < listed.Length
      invariant 0 <= k <= listed.Length
      invariant rest <= dirs && |rest| == listed.Length - k
      invariant forall x :: x in listed[..k] <==> x in dirs && x !in rest
      invariant Distinct(listed[..k])
    {
      var dirPath :| dirPath in rest;
      listed[k] := dirPath;
      assert listed[..k + 1] == listed[..k] + [dirPath];
      rest := rest - {dirPath};
      k := k + 1;
    }
    assert rest == {};
    assert listed[..k] == listed[..];
  }

  /** ExtractDirsFromPaths: every directory above some input path, once
      each, in sorted order. */
  method ExtractDirsFromPaths(paths: seq<string>) returns (dirPaths: seq<string>)
    ensures StrictlySorted(dirPaths)
    ensures forall x :: x in dirPaths <==> x in DirsOf(paths)
  {
    var dirs := CollectDirs(paths);
    var listed := ListKeys(dirs);
    dirPaths := SortStrings(listed[..]);
    SortDistinct(listed[..]);
    SameElements(dirPaths, listed[..]);
  }

  /** Lists with the same multiset have the same elements. */
  lemma SameElements(a: seq<string>, b: seq<string>)
    requires multiset(a) == multiset(b)
    ensures forall x :: x in a <==> x in b
  {
    forall x
      ensures x in a <==> x in b
    {
      assert x in a <==> x in multiset(a);
      assert x in b <==> x in multiset(b);
    }
  }

  /** Every directory above an input path is collected. */
  lemma {:induction false} AncestorsCollected(paths: seq<string>, i: nat, x: string)
    requires i < |paths| && x in Ancestors(paths[i])
    ensures x in DirsOf(paths)
  {
    var init := paths[..|paths| - 1];
    if i < |init| {
      assert paths[i] == init[i];
      AncestorsCollected(init, i, x);
    }
  }

  /** Only directories above an input path are collected. */
  lemma {:induction false} CollectedAreAncestors(paths: seq<string>, x: string)
    requires x in DirsOf(paths)
    ensures exists i :: 0 <= i < |paths| && x in Ancestors(paths[i])
  {
    var init := paths[..|paths| - 1];
    if x in DirsOf(init) {
      CollectedAreAncestors(init, x);
      var i :| 0 <= i < |init| && x in Ancestors(init[i]);
      assert paths[i] == init[i];
    } else {
      assert x in Ancestors(paths[|paths| - 1]);
    }
  }

  /** The directories collected are exactly those above some input path. */
  lemma DirsOfSpec(paths: seq<string>, x: string)
    ensures x in DirsOf(paths) <==> exists i :: 0 <= i < |paths| && x in Ancestors(paths[i])
  {
    if x in DirsOf(paths) {
      CollectedAreAncestors(paths, x);
    }
    if exists i :: 0 <= i < |paths| && x in Ancestors(paths[i]) {
      var i :| 0 <= i < |paths| && x in Ancestors(paths[i]);
      AncestorsCollected(paths, i, x);
    }
  }

  /** k steps up from p. */
  function DirPow(p: string, k: nat): string
    decreases k
  {
    if k == 0 then p else DirPow(Dir(p), k - 1)
  }

  /** The number of steps from p to the top. */
  function Steps(p: string): nat
    decreases Height(p)
  {
    if IsTop(p) then 0 else 1 + Steps(Dir(p))
  }

  /** The walk visits every directory 1 to Steps(p) steps up ... */
  lemma {:induction false} DirPowVisited(p: string, k: nat)
    requires 1 <= k <= Steps(p)
    ensures DirPow(p, k) in Ancestors(p)
    decreases Height(p)
  {
    assert DirPow(p, k) == DirPow(Dir(p), k - 1);
    if k > 1 {
      DirPowVisited(Dir(p), k - 1);
    }
  }

  /** ... and nothing else ... */
  lemma {:induction false} VisitedIsDirPow(p: string, x: string)
    requires x in Ancestors(p)
    ensures exists k :: 1 <= k <= Steps(p) && x == DirPow(p, k)
    decreases Height(p)
  {
    if x == Dir(p) {
      assert x == DirPow(p, 1);
    } else {
      VisitedIsDirPow(Dir(p), x);
      var k :| 1 <= k <= Steps(Dir(p)) && x == DirPow(Dir(p), k);
      assert x == DirPow(p, k + 1);
    }
  }

  /** ... and the last of them is "." or "/". */
  lemma {:induction false} WalkEndsAtTop(p: string)
    ensures IsTop(DirPow(p, Steps(p)))
    decreases Height(p)
  {
    if !IsTop(p) {
      WalkEndsAtTop(Dir(p));
      assert DirPow(p, Steps(p)) == DirPow(Dir(p), Steps(Dir(p)));
    }
  }

  /** Every directory above p is strictly higher than p, so p itself is
      never among them. */
  lemma {:induction false} AncestorsHigher(p: string, x: string)
    requires x in Ancestors(p)
    ensures Height(x) < Height(p)
    decreases Height(p)
  {
    if x != Dir(p) {
      AncestorsHigher(Dir(p), x);
    }
  }

  /** An input path is listed exactly when it lies above another input. */
  lemma InputListedWhenAncestor(paths: seq<string>, i: nat)
    requires i < |paths|
    ensures paths[i] in DirsOf(paths) <==>
              exists j :: 0 <= j < |paths| && paths[j] != paths[i] && paths[i] in Ancestors(paths[j])
  {
    if paths[i] in DirsOf(paths) {
      CollectedAreAncestors(paths, paths[i]);
      var j :| 0 <= j < |paths| && paths[i] in Ancestors(paths[j]);
      AncestorsHigher(paths[j], paths[i]);
    }
    if exists j :: 0 <= j < |paths| && paths[j] != paths[i] && paths[i] in Ancestors(paths[j]) {
      var j :| 0 <= j < |paths| && paths[j] != paths[i] && paths[i] in Ancestors(paths[j]);
      AncestorsCollected(paths, j, paths[i]);
    }
  }

  /** "." and "/" add nothing, and neither does an empty list. */
  lemma TopsAddNothing(paths: seq<string>)
    requires forall i :: 0 <= i < |paths| ==> IsTop(paths[i])
    ensures DirsOf(paths) == {}
  {
    forall x | x in DirsOf(paths)
      ensures false
    {
      CollectedAreAncestors(paths, x);
    }
  }

  /** A path below the top contributes its parent and the top it ends at. */
  lemma ParentAndTopListed(paths: seq<string>, i: nat)
    requires i < |paths| && !IsTop(paths[i])
    ensures Dir(paths[i]) in DirsOf(paths)
    ensures "." in DirsOf(paths) || "/" in DirsOf(paths)
  {
    var p := paths[i];
    AncestorsCollected(paths, i, Dir(p));
    assert Steps(p) >= 1;
    DirPowVisited(p, Steps(p));
    WalkEndsAtTop(p);
    var top := DirPow(p, Steps(p));
    AncestorsCollected(paths, i, top);
  }
}
