/** Go's fmt.Sprintf restricted to what the program uses: literal text and `%v`
    verbs applied to string arguments, which print the string unchanged. */
module GoFmt {

  /** One piece of a format string: literal text, or a `%v` verb. */
  datatype Segment = Text(text: string) | Verb

  /** Number of `%v` verbs in a format. */
  function VerbCount(format: seq<Segment>): nat
  {
    if format == [] then 0
    else (if format[0].Verb? then 1 else 0) + VerbCount(format[1..])
  }

  /** Total length of a format's literal text. */
  function TextLength(format: seq<Segment>): nat
  {
    if format == [] then 0
    else (if format[0].Text? then |format[0].text| else 0) + TextLength(format[1..])
  }

  /** Total length of a list of arguments. */
  function ArgsLength(args: seq<string>): nat
  {
    if args == [] then 0 else |args[0]| + ArgsLength(args[1..])
  }

  /** fmt.Sprintf: the literal text with each `%v` replaced, in order, by the next argument,
      unescaped. Only the arity-matched case is modelled. */
  function Sprintf(format: seq<Segment>, args: seq<string>): (s: string)
    requires VerbCount(format) == |args|
    ensures |s| == TextLength(format) + ArgsLength(args)
    decreases |format|
  {
    if format == [] then ""
    else match format[0]
      case Text(t) => t + Sprintf(format[1..], args)
      case Verb => args[0] + Sprintf(format[1..], args[1..])
  }

  /** The format `t0%v t1%v ...`: each text followed by one verb. */
  function Pairs(texts: seq<string>): (format: seq<Segment>)
    ensures |format| == 2 * |texts|
    ensures VerbCount(format) == |texts|
    decreases |texts|
  {
    if texts == [] then []
    else
      var rest := Pairs(texts[1..]);
      assert ([Text(texts[0]), Verb] + rest)[1..] == [Verb] + rest;
      assert ([Verb] + rest)[1..] == rest;
      [Text(texts[0]), Verb] + rest
  }

  /** The texts and arguments taken alternately, each text first. */
  function Interleave(texts: seq<string>, args: seq<string>): string
    requires |texts| == |args|
    decreases |texts|
  {
    if texts == [] then "" else texts[0] + args[0] + Interleave(texts[1..], args[1..])
  }

  /** Formatting a text-then-verb format prints each text followed by its argument. */
  lemma {:induction false} SprintfPairs(texts: seq<string>, args: seq<string>)
    requires |texts| == |args|
    ensures VerbCount(Pairs(texts)) == |args|
    ensures Sprintf(Pairs(texts), args) == Interleave(texts, args)
    decreases |texts|
  {
    if texts != [] {
      SprintfPairs(texts[1..], args[1..]);
      var f := Pairs(texts);
      assert f[1..] == [Verb] + Pairs(texts[1..]) && f[1..][1..] == Pairs(texts[1..]);
    }
  }

  /** Five texts and arguments interleaved, written out. */
  lemma InterleaveFive(t0: string, t1: string, t2: string, t3: string, t4: string,
                       a0: string, a1: string, a2: string, a3: string, a4: string)
    ensures Interleave([t0, t1, t2, t3, t4], [a0, a1, a2, a3, a4])
            == t0 + a0 + t1 + a1 + t2 + a2 + t3 + a3 + t4 + a4
  {
    assert [t4][1..] == [] && [a4][1..] == [];
    var i4 := Interleave([t4], [a4]);
    assert i4 == t4 + a4 + Interleave([], []);
    assert t4 + a4 + "" == t4 + a4;
    assert [t3, t4][1..] == [t4] && [a3, a4][1..] == [a4];
    var i3 := Interleave([t3, t4], [a3, a4]);
    assert i3 == t3 + a3 + i4;
    assert [t2, t3, t4][1..] == [t3, t4] && [a2, a3, a4][1..] == [a3, a4];
    var i2 := Interleave([t2, t3, t4], [a2, a3, a4]);
    assert i2 == t2 + a2 + i3;
    assert [t1, t2, t3, t4][1..] == [t2, t3, t4] && [a1, a2, a3, a4][1..] == [a2, a3, a4];
    var i1 := Interleave([t1, t2, t3, t4], [a1, a2, a3, a4]);
    assert i1 == t1 + a1 + i2;
    assert [t0, t1, t2, t3, t4][1..] == [t1, t2, t3, t4] && [a0, a1, a2, a3, a4][1..] == [a1, a2, a3, a4];
    assert Interleave([t0, t1, t2, t3, t4], [a0, a1, a2, a3, a4]) == t0 + a0 + i1;
  }
}
