/** The decoder's edge cases: the shape of the command table, what a single
    byte does in Idle, and each error that closes the source, stated with
    the bytes after the offending token left unread. */
module IpcEdges {
  import opened Base
  import opened Decimal
  import opened IpcProtocol
  import opened IpcCodec

  /** No kind other than KNone follows a KNone. */
  predicate Closed(ks: seq<Kind>) {
    forall i, j :: 0 <= i < j < |ks| && ks[i] == KNone ==> ks[j] == KNone
  }

  lemma ThreeClosed(ks: seq<Kind>)
    requires |ks| == 3 && (ks[0] == KNone ==> ks[1] == KNone) && (ks[1] == KNone ==> ks[2] == KNone)
    ensures Closed(ks)
  {
  }

  /** The table holds the codes 0 to 23, three kinds each, closed under
      KNone. */
  lemma TableShape()
    ensures |Commands| == MaxCommand + 1 == 24
    ensures forall code :: 0 <= code < |Commands| ==> |Commands[code].kinds| == MaxParam
    ensures forall code :: 0 <= code < |Commands| ==> Closed(Commands[code].kinds)
  {
    forall code | 0 <= code < |Commands| ensures Closed(Commands[code].kinds) {
      ThreeClosed(Commands[code].kinds);
    }
  }

  /** Exactly the commands whose first kind is KNone take no parameter. */
  lemma NoParamCommands(code: nat)
    requires ValidCode(code)
    ensures Arity(code) == 0 <==> code in {1, 16, 18, 19, 20, 22}
  {
  }

  /** In Idle a space is skipped; any other byte starts a code holding exactly
      that byte. */
  lemma IdleByte(b: byte, parsers: Parsers)
    ensures b == Space ==> Step(Idle, b, parsers) == Stepped(Idle, Quiet)
    ensures b != Space ==> Step(Idle, b, parsers) == Stepped(ReadCode([b]), Quiet)
  {
  }

  /** Spaces before a command are skipped and change nothing else. */
  lemma {:induction false} SpacesSkipped(sp: seq<byte>, ys: seq<byte>, parsers: Parsers)
    requires forall k :: 0 <= k < |sp| ==> sp[k] == Space
    ensures var r := Feed(Idle, ys, parsers);
      Feed(Idle, sp + ys, parsers) == r.(consumed := |sp| + r.consumed)
    decreases |sp|
  {
    if |sp| > 0 {
      assert (sp + ys)[0] == Space;
      assert (sp + ys)[1..] == sp[1..] + ys;
      SpacesSkipped(sp[1..], ys, parsers);
    } else {
      assert sp + ys == ys;
    }
  }

  /** Reading the token before a bar from Idle. */
  lemma TokenRead(s: seq<byte>, parsers: Parsers)
    requires 1 <= |s| && s[0] != Space && Bar !in s[1..]
    ensures Inv(ReadCode(s))
    ensures Feed(Idle, s, parsers) == Outcome(ReadCode(s), [], None, |s|)
  {
    FeedOne(Idle, s[0], parsers);
    CodeAccumulates([s[0]], s[1..], parsers);
    assert [s[0]] + s[1..] == s;
    Chain(Idle, [s[0]], s[1..], parsers, ReadCode([s[0]]), [], Outcome(ReadCode(s), [], None, |s| - 1));
  }

  /** A code that is not an unsigned number, or is above 23, is reported and
      closes the source: nothing after its bar is read. */
  lemma BadCodeStops(s: seq<byte>, ys: seq<byte>, parsers: Parsers)
    requires 1 <= |s| && s[0] != Space && Bar !in s[1..]
    requires ParseUInt(s).None? || ParseUInt(s).value > MaxCommand
    ensures Feed(Idle, s + [Bar] + ys, parsers) == Outcome(Idle, [], Some(InvalidCommand(s)), |s| + 1)
  {
    TokenRead(s, parsers);
    FeedOne(ReadCode(s), Bar, parsers);
    Chain(Idle, s, [Bar], parsers, ReadCode(s), [], Outcome(Idle, [], Some(InvalidCommand(s)), 1));
    FeedAppendStops(Idle, s + [Bar], ys, parsers);
  }

  /** A bar in Idle starts a code token too, so "||" is the invalid code "|". */
  lemma BarCodeRejected(ys: seq<byte>, parsers: Parsers)
    ensures Feed(Idle, [Bar, Bar] + ys, parsers) == Outcome(Idle, [], Some(InvalidCommand([Bar])), 2)
  {
    var s := [Bar];
    NotANumber(s);
    assert s + [Bar] + ys == [Bar, Bar] + ys;
    BadCodeStops(s, ys, parsers);
  }

  lemma NotANumber(s: seq<byte>)
    requires s == [Bar]
    ensures ParseUInt(s).None?
  {
    assert CString(s) == s by { assert s[1..] == []; }
    assert Unblanked(s) == s;
    assert !AllDigits(s) by { assert !IsDigit(s[0]); }
  }

  /** "99|" is such a code. */
  lemma Code99Rejected(ys: seq<byte>, parsers: Parsers)
    ensures Feed(Idle, [57, 57, Bar] + ys, parsers) == Outcome(Idle, [], Some(InvalidCommand([57, 57])), 3)
  {
    assert DigitsValue([57, 57]) == 99;
    assert [57, 57] + [Bar] == [57, 57, Bar];
    BadCodeStops([57, 57], ys, parsers);
  }

  /** A command without parameters executes at its bar; decoding goes on
      with the bytes after it. */
  lemma NoParamFiresAtBar(code: nat, ys: seq<byte>, parsers: Parsers)
    requires ValidCode(code) && Arity(code) == 0
    ensures var r := Feed(Idle, ys, parsers);
      Feed(Idle, Digits(code) + [Bar] + ys, parsers) ==
        Outcome(r.state, [Command(code, [])] + r.fired, r.error, |Digits(code)| + 1 + r.consumed)
  {
    var c := Command(code, []);
    assert Sendable(c, parsers);
    EncodeRoundTrip(c, parsers);
    assert ParamsText([]) == [];
    assert Encode(c) == Digits(code) + [Bar];
    Chain(Idle, Encode(c), ys, parsers, Idle, [c], Feed(Idle, ys, parsers));
  }

  /** A byte count that is not an unsigned number is reported and closes the
      source. */
  lemma BadLengthStops(code: nat, ps: seq<Param>, s: seq<byte>, ys: seq<byte>, parsers: Parsers)
    requires Inv(ReadNum(code, ps, [])) && Bar !in s && ParseUInt(s).None?
    ensures Feed(ReadNum(code, ps, []), s + [Bar] + ys, parsers) ==
      Outcome(Idle, [], Some(InvalidLength(s)), |s| + 1)
  {
    NumAccumulates(code, ps, [], s, parsers);
    assert [] + s == s;
    FeedOne(ReadNum(code, ps, s), Bar, parsers);
    Chain(ReadNum(code, ps, []), s, [Bar], parsers, ReadNum(code, ps, s), [],
      Outcome(Idle, [], Some(InvalidLength(s)), 1));
    FeedAppendStops(ReadNum(code, ps, []), s + [Bar], ys, parsers);
  }

  lemma MissingBarRead(code: nat, ps: seq<Param>, v: seq<byte>, b: byte, parsers: Parsers)
    requires Inv(ReadNum(code, ps, [])) && |v| <= MaxUInt32 && b != Bar
    ensures Feed(ReadNum(code, ps, []), Digits(|v|) + [Bar] + v + [b], parsers) ==
      Outcome(Idle, [], Some(ExpectingBar(v)), |Digits(|v|)| + 1 + |v| + 1)
  {
    var full := ReadVal(code, ps, Some(0), v);
    CountedRead(code, ps, v, parsers);
    FeedOne(full, b, parsers);
    Chain(ReadNum(code, ps, []), Digits(|v|) + [Bar] + v, [b], parsers, full, [],
      Outcome(Idle, [], Some(ExpectingBar(v)), 1));
  }

  /** The byte after a counted value must be a bar; anything else is
      reported and closes the source. */
  lemma MissingBarStops(code: nat, ps: seq<Param>, v: seq<byte>, b: byte, ys: seq<byte>, parsers: Parsers)
    requires Inv(ReadNum(code, ps, [])) && |v| <= MaxUInt32 && b != Bar
    ensures Feed(ReadNum(code, ps, []), Digits(|v|) + [Bar] + v + [b] + ys, parsers) ==
      Outcome(Idle, [], Some(ExpectingBar(v)), |Digits(|v|)| + 1 + |v| + 1)
  {
    MissingBarRead(code, ps, v, b, parsers);
    FeedAppendStops(ReadNum(code, ps, []), Digits(|v|) + [Bar] + v + [b], ys, parsers);
  }

  /** A value its kind rejects is reported with the coercion's error, and
      closes the source. */
  lemma BadValueStops(code: nat, ps: seq<Param>, v: seq<byte>, ys: seq<byte>, parsers: Parsers)
    requires Inv(ReadVal(code, ps, None, [])) && Bar !in v
    requires Coerce(KindsOf(code)[|ps|], v, parsers).Err?
    ensures Feed(ReadVal(code, ps, None, []), v + [Bar] + ys, parsers) ==
      Outcome(Idle, [], Some(Coerce(KindsOf(code)[|ps|], v, parsers).error), |v| + 1)
  {
    PlainAccumulates(code, ps, [], v, parsers);
    assert [] + v == v;
    var e := Coerce(KindsOf(code)[|ps|], v, parsers).error;
    FeedOne(ReadVal(code, ps, None, v), Bar, parsers);
    Chain(ReadVal(code, ps, None, []), v, [Bar], parsers, ReadVal(code, ps, None, v), [],
      Outcome(Idle, [], Some(e), 1));
    FeedAppendStops(ReadVal(code, ps, None, []), v + [Bar], ys, parsers);
  }

  lemma BadCountedValueRead(code: nat, ps: seq<Param>, v: seq<byte>, parsers: Parsers)
    requires Inv(ReadNum(code, ps, [])) && |v| <= MaxUInt32
    requires Coerce(KindsOf(code)[|ps|], v, parsers).Err?
    ensures Feed(ReadNum(code, ps, []), Digits(|v|) + [Bar] + v + [Bar], parsers) ==
      Outcome(Idle, [], Some(Coerce(KindsOf(code)[|ps|], v, parsers).error), |Digits(|v|)| + 1 + |v| + 1)
  {
    var full := ReadVal(code, ps, Some(0), v);
    CountedRead(code, ps, v, parsers);
    FeedOne(full, Bar, parsers);
    Chain(ReadNum(code, ps, []), Digits(|v|) + [Bar] + v, [Bar], parsers, full, [],
      Outcome(Idle, [], Some(Coerce(KindsOf(code)[|ps|], v, parsers).error), 1));
  }

  /** A counted value its kind rejects is reported with the coercion's error
      just the same, once its closing bar is read, and closes the source. */
  lemma BadCountedValueStops(code: nat, ps: seq<Param>, v: seq<byte>, ys: seq<byte>, parsers: Parsers)
    requires Inv(ReadNum(code, ps, [])) && |v| <= MaxUInt32
    requires Coerce(KindsOf(code)[|ps|], v, parsers).Err?
    ensures Feed(ReadNum(code, ps, []), Digits(|v|) + [Bar] + v + [Bar] + ys, parsers) ==
      Outcome(Idle, [], Some(Coerce(KindsOf(code)[|ps|], v, parsers).error), |Digits(|v|)| + 1 + |v| + 1)
  {
    BadCountedValueRead(code, ps, v, parsers);
    FeedAppendStops(ReadNum(code, ps, []), Digits(|v|) + [Bar] + v + [Bar], ys, parsers);
  }

  /** "2|1|||" writes the one-byte string "|": a counted value may hold the
      separator itself. */
  lemma CountedBarExample(parsers: Parsers)
    ensures Feed(Idle, [50, Bar, 49, Bar, Bar, Bar], parsers) ==
      Outcome(Idle, [Command(2, [PString([Bar])])], None, 6)
  {
    var c := Command(2, [PString([Bar])]);
    assert Sendable(c, parsers);
    assert ParamsText(c.params) == ParamText(PString([Bar])) + [];
    assert DigitsValue([49]) == 1 && DigitsValue([50]) == 2;
    assert Encode(c) == [50, Bar, 49, Bar, Bar, Bar];
    EncodeRoundTrip(c, parsers);
  }

  /** However the encoding of a command is split in two, the first part
      leaves no error and the two parts together fire exactly that command. */
  lemma SplitRoundTrip(c: Command, xs: seq<byte>, ys: seq<byte>, parsers: Parsers)
    requires Sendable(c, parsers) && xs + ys == Encode(c)
    ensures Feed(Idle, xs, parsers).error.None?
    ensures var a := Feed(Idle, xs, parsers);
      var b := Feed(a.state, ys, parsers);
      a.fired + b.fired == [c] && b.state == Idle && b.error.None?
  {
    EncodeRoundTrip(c, parsers);
    if Feed(Idle, xs, parsers).error.Some? {
      FeedAppendStops(Idle, xs, ys, parsers);
      assert false;
    }
    FeedAppend(Idle, xs, ys, parsers);
  }
}
