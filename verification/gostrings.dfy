/** The parts of Go's `strings` package the program relies on, over `seq<char>`. */
module GoStrings {

  /** strings.HasSuffix: `suffix` is a tail of `s`. */
  predicate HasSuffix(s: string, suffix: string) {
    |suffix| <= |s| && s[|s| - |suffix|..] == suffix
  }

  /** strings.TrimSuffix: drop `suffix` from the end of `s` when it is there, else keep `s`. */
  function TrimSuffix(s: string, suffix: string): (r: string)
    ensures r <= s
    ensures HasSuffix(s, suffix) ==> r + suffix == s
    ensures !HasSuffix(s, suffix) ==> r == s
  {
    if HasSuffix(s, suffix) then s[..|s| - |suffix|] else s
  }

  /** A prefix of a string without `c` has no `c` either. */
  lemma PrefixOmits(r: string, s: string, c: char)
    requires r <= s && c !in s
    ensures c !in r
  {
    assert forall i :: 0 <= i < |r| ==> r[i] == s[i] && s[i] in s;
  }

  /** strings.Split for a one-character separator: the pieces between occurrences of `sep`. */
  function Split(s: string, sep: char): (pieces: seq<string>)
    ensures |pieces| >= 1
    decreases |s|
  {
    if |s| == 0 then [""]
    else
      var rest := Split(s[1..], sep);
      assert s == [s[0]] + s[1..];
      if s[0] == sep then [""] + rest
      else [[s[0]] + rest[0]] + rest[1..]
  }

  /** Split yields one more piece than `s` has separators. */
  lemma {:induction false} SplitLength(s: string, sep: char)
    ensures |Split(s, sep)| == multiset(s)[sep] + 1
    decreases |s|
  {
    if |s| > 0 {
      SplitLength(s[1..], sep);
      assert s == [s[0]] + s[1..];
      assert multiset(s) == multiset([s[0]]) + multiset(s[1..]);
    }
  }

  /** Splitting a separator-free chunk followed by a separator peels that chunk off. */
  lemma {:induction false} SplitCons(a: string, sep: char, b: string)
    requires sep !in a
    ensures Split(a + [sep] + b, sep) == [a] + Split(b, sep)
    decreases |a|
  {
    if |a| == 0 {
      assert a + [sep] + b == [sep] + b;
      assert ([sep] + b)[1..] == b;
    } else {
      var s := a + [sep] + b;
      assert s[1..] == a[1..] + [sep] + b;
      SplitCons(a[1..], sep, b);
      assert [a[0]] + a[1..] == a;
    }
  }

  /** A chunk without the separator splits into itself alone. */
  lemma {:induction false} SplitNone(a: string, sep: char)
    requires sep !in a
    ensures Split(a, sep) == [a]
    decreases |a|
  {
    if |a| > 0 {
      SplitNone(a[1..], sep);
      assert [a[0]] + a[1..] == a;
    }
  }

  /** strings.Join: the pieces with one separator between neighbours. */
  function Join(pieces: seq<string>, sep: char): string
    decreases |pieces|
  {
    if |pieces| == 0 then ""
    else if |pieces| == 1 then pieces[0]
    else pieces[0] + [sep] + Join(pieces[1..], sep)
  }

  /** No piece contains the separator. */
  predicate SeparatorFree(pieces: seq<string>, sep: char) {
    forall i :: 0 <= i < |pieces| ==> sep !in pieces[i]
  }

  /** How many separators the pieces contain in all. */
  function Occurrences(pieces: seq<string>, sep: char): nat
    decreases |pieces|
  {
    if |pieces| == 0 then 0 else multiset(pieces[0])[sep] + Occurrences(pieces[1..], sep)
  }

  /** Split undoes Join when no piece contains the separator. */
  lemma {:induction false} SplitJoin(pieces: seq<string>, sep: char)
    requires |pieces| >= 1 && SeparatorFree(pieces, sep)
    ensures Split(Join(pieces, sep), sep) == pieces
    decreases |pieces|
  {
    if |pieces| == 1 {
      SplitNone(pieces[0], sep);
    } else {
      SplitJoin(pieces[1..], sep);
      SplitCons(pieces[0], sep, Join(pieces[1..], sep));
      assert [pieces[0]] + pieces[1..] == pieces;
    }
  }

  /** A joined string holds the separators Join put in plus those already in the pieces. */
  lemma {:induction false} JoinOccurrences(pieces: seq<string>, sep: char)
    requires |pieces| >= 1
    ensures multiset(Join(pieces, sep))[sep] == |pieces| - 1 + Occurrences(pieces, sep)
    decreases |pieces|
  {
    if |pieces| > 1 {
      JoinOccurrences(pieces[1..], sep);
      var rest := Join(pieces[1..], sep);
      assert multiset(pieces[0] + [sep] + rest) == multiset(pieces[0]) + multiset([sep]) + multiset(rest);
    }
  }

  /** The pieces hold no separator exactly when their total count is zero. */
  lemma {:induction false} OccurrencesZero(pieces: seq<string>, sep: char)
    ensures Occurrences(pieces, sep) == 0 <==> SeparatorFree(pieces, sep)
    decreases |pieces|
  {
    if |pieces| > 0 {
      OccurrencesZero(pieces[1..], sep);
      assert forall i :: 1 <= i < |pieces| ==> pieces[i] == pieces[1..][i - 1];
    }
  }

  /** Splitting a joined string gives back as many pieces as were joined if and only if
      no piece contained the separator; otherwise it gives more. */
  lemma SplitJoinCount(pieces: seq<string>, sep: char)
    requires |pieces| >= 1
    ensures |Split(Join(pieces, sep), sep)| >= |pieces|
    ensures |Split(Join(pieces, sep), sep)| == |pieces| <==> SeparatorFree(pieces, sep)
  {
    SplitLength(Join(pieces, sep), sep);
    JoinOccurrences(pieces, sep);
    OccurrencesZero(pieces, sep);
  }

  /** Join of five pieces, written out. */
  lemma JoinFive(a: string, b: string, c: string, d: string, e: string, sep: char)
    ensures Join([a, b, c, d, e], sep) == a + [sep] + (b + [sep] + (c + [sep] + (d + [sep] + e)))
  {
    assert [d, e][1..] == [e];
    assert Join([d, e], sep) == d + [sep] + e;
    assert [c, d, e][1..] == [d, e];
    assert Join([c, d, e], sep) == c + [sep] + (d + [sep] + e);
    assert [b, c, d, e][1..] == [c, d, e];
    assert Join([b, c, d, e], sep) == b + [sep] + (c + [sep] + (d + [sep] + e));
    assert [a, b, c, d, e][1..] == [b, c, d, e];
  }
}
