/** Go's `path/filepath.Base` and `filepath.Ext` with Unix semantics: the only
    separator is '/', and there is no volume name. */
module GoFilepath {
  import opened Wrappers
  import GoStrings

  const Separator: char := '/'

  /** Every character of `s` is a separator (true of the empty string). */
  predicate AllSeparators(s: string) {
    forall i :: 0 <= i < |s| ==> s[i] == Separator
  }

  /** How many separators end `path[..i]`: the backward scan Base uses to strip them. */
  function SeparatorRun(path: string, i: nat): (n: nat)
    requires i <= |path|
    ensures n <= i
    ensures forall j :: i - n <= j < i ==> path[j] == Separator
    ensures n < i ==> path[i - n - 1] != Separator
    decreases i
  {
    if i > 0 && path[i - 1] == Separator then SeparatorRun(path, i - 1) + 1 else 0
  }

  /** How many separators end `path`. */
  function TrailingSeparators(path: string): (n: nat)
    ensures n <= |path|
    ensures forall j :: |path| - n <= j < |path| ==> path[j] == Separator
    ensures n < |path| ==> path[|path| - n - 1] != Separator
  {
    SeparatorRun(path, |path|)
  }

  /** The backward scan shared by Base and Ext: the index just past the last separator
      in `s[..i]`, or 0 when `s[..i]` has none. */
  function ElementStart(s: string, i: nat): (k: nat)
    requires i <= |s|
    ensures k <= i
    ensures forall j :: k <= j < i ==> s[j] != Separator
    ensures k > 0 ==> s[k - 1] == Separator
    decreases i
  {
    if i == 0 || s[i - 1] == Separator then i else ElementStart(s, i - 1)
  }

  /** The text after the last separator of `s` (empty when `s` ends with one). */
  function LastElement(s: string): (e: string)
    ensures |e| <= |s| && e == s[|s| - |e|..]
    ensures Separator !in e
    ensures |e| < |s| ==> s[|s| - |e| - 1] == Separator
  {
    var k := ElementStart(s, |s|);
    assert forall j :: 0 <= j < |s| - k ==> s[k..][j] == s[k + j];
    s[k..]
  }

  /** Stripping the trailing separators leaves nothing exactly when the path is all separators. */
  lemma StrippedEmptyIffAllSeparators(path: string)
    ensures TrailingSeparators(path) == |path| <==> AllSeparators(path)
  {
    var n := TrailingSeparators(path);
    if n < |path| {
      var i := |path| - n - 1;
      assert path[i] != Separator;
    }
  }

  /** filepath.Base: the last element of `path` once trailing separators are stripped;
      "." for the empty path and "/" for a path made only of separators. */
  function Base(path: string): (b: string)
    ensures path == "" ==> b == "."
    ensures path != "" && AllSeparators(path) ==> b == [Separator]
    ensures !AllSeparators(path) ==>
              var end := |path| - TrailingSeparators(path);
              && b != ""
              && Separator !in b
              && |b| <= end
              && path[end - |b|..end] == b
              && (|b| == end || path[end - |b| - 1] == Separator)
  {
    if path == "" then "."
    else
      var stripped := path[..|path| - TrailingSeparators(path)];
      var elem := LastElement(stripped);
      StrippedEmptyIffAllSeparators(path);
      if elem == "" then
        [Separator]
      else
        elem
  }

  /** A path whose last character is not a separator has no trailing separators. */
  lemma NoTrailingSeparators(path: string)
    requires path != "" && path[|path| - 1] != Separator
    ensures TrailingSeparators(path) == 0
    ensures LastElement(path) != ""
  {
  }

  /** Without trailing separators, Base is the last element. */
  lemma BaseWithoutTrailingSeparator(path: string)
    requires path != "" && path[|path| - 1] != Separator
    ensures Base(path) == LastElement(path)
  {
    NoTrailingSeparators(path);
    assert path[..|path| - 0] == path;
    assert Base(path) == LastElement(path[..|path| - TrailingSeparators(path)]);
  }

  /** The backward scan of filepath.Ext over `path[..i]`: the index of the last '.'
      met before any separator, or None when a separator or the start comes first. */
  function ExtStart(path: string, i: nat): (k: Option<nat>)
    requires i <= |path|
    ensures k.Some? ==>
              && ElementStart(path, i) <= k.value < i
              && path[k.value] == '.'
              && forall j :: k.value < j < i ==> path[j] != '.'
    ensures k.None? ==> forall j :: ElementStart(path, i) <= j < i ==> path[j] != '.'
    decreases i
  {
    if i == 0 || path[i - 1] == Separator then None
    else if path[i - 1] == '.' then Some(i - 1)
    else ExtStart(path, i - 1)
  }

  /** filepath.Ext: the suffix of `path` from the last '.' of its last element, or ""
      when that element has no '.'. It looks at the whole path, so a path that ends
      with a separator has no extension. */
  function Ext(path: string): (e: string)
    ensures e == "" <==> '.' !in LastElement(path)
    ensures e != "" ==>
              && e[0] == '.'
              && '.' !in e[1..]
              && Separator !in e
              && |e| <= |LastElement(path)|
              && e == path[|path| - |e|..]
    ensures GoStrings.HasSuffix(LastElement(path), e)
  {
    var start := ElementStart(path, |path|);
    match ExtStart(path, |path|)
    case None =>
      TailOmits(path, start, '.');
      assert path[start..][|path| - start..] == "";
      ""
    case Some(k) =>
      TailOmits(path, k + 1, '.');
      TailOmits(path, k, Separator);
      assert path[k..][1..] == path[k + 1..];
      assert path[start..][k - start] == path[k];
      assert path[start..][k - start..] == path[k..];
      path[k..]
  }

  /** A tail whose every character differs from `c` does not contain `c`. */
  lemma TailOmits(s: string, lo: nat, c: char)
    requires lo <= |s|
    requires forall j :: lo <= j < |s| ==> s[j] != c
    ensures c !in s[lo..]
  {
    assert forall j :: 0 <= j < |s| - lo ==> s[lo..][j] == s[lo + j];
  }

  /** Separators appended after a non-separator are exactly the trailing ones. */
  lemma TrailingSeparatorsOfAppend(prefix: string, trailing: string)
    requires prefix != [] && prefix[|prefix| - 1] != Separator
    requires AllSeparators(trailing)
    ensures TrailingSeparators(prefix + trailing) == |trailing|
  {
    var path := prefix + trailing;
    assert path[|prefix| - 1] == prefix[|prefix| - 1];
    assert forall j :: |prefix| <= j < |path| ==> path[j] == trailing[j - |prefix|];
  }

  /** A separator-free tail of `dir + elem` that starts the string or follows a
      separator is `elem` itself. */
  lemma FinalRunIsElement(dir: string, elem: string, b: string)
    requires dir == "" || dir[|dir| - 1] == Separator
    requires Separator !in elem && Separator !in b
    requires |b| <= |dir + elem| && (dir + elem)[|dir + elem| - |b|..] == b
    requires |b| == |dir + elem| || (dir + elem)[|dir + elem| - |b| - 1] == Separator
    ensures b == elem
  {
    var s := dir + elem;
    assert s[|dir|..] == elem;
  }

  /** Base inverts joining: a directory part (empty or ending in a separator), one
      separator-free element, and any run of trailing separators give back that element. */
  lemma {:induction false} BaseOfJoin(dir: string, elem: string, trailing: string)
    requires dir == "" || dir[|dir| - 1] == Separator
    requires elem != "" && Separator !in elem
    requires AllSeparators(trailing)
    ensures Base(dir + elem + trailing) == elem
  {
    var path := dir + elem + trailing;
    assert (dir + elem)[|dir| + |elem| - 1] == elem[|elem| - 1];
    assert elem[|elem| - 1] in elem;
    TrailingSeparatorsOfAppend(dir + elem, trailing);
    assert path[..|dir| + |elem|] == dir + elem;
    FinalRunIsElement(dir, elem, Base(path));
  }

  /** Ext inverts appending an extension: "." followed by text with no '.' or separator
      is exactly what Ext returns, whatever precedes it. */
  lemma {:induction false} ExtOfAppend(stem: string, ext: string)
    requires |ext| > 0 && ext[0] == '.'
    requires '.' !in ext[1..] && Separator !in ext
    ensures Ext(stem + ext) == ext
  {
    var path := stem + ext;
    var e := Ext(path);
    var k := ElementStart(path, |path|);
    assert forall j :: |stem| <= j < |path| ==> path[j] == ext[j - |stem|] && path[j] in ext;
    assert k <= |stem|;
    assert LastElement(path)[|stem| - k] == '.';
    assert forall j :: |stem| < j < |path| ==> path[j] == ext[1..][j - |stem| - 1];
    assert e == path[|path| - |ext|..] == ext;
  }
}
