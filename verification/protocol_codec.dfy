/** The sending side of the wire format, and the proof that the decoder
    reads back exactly what was sent: every command a sender can spell
    fires once, unchanged, and leaves the decoder idle. */
module IpcCodec {
  import opened Base
  import opened Decimal
  import opened IpcProtocol

  /** How one parameter is spelled: counted kinds as `len|bytes|`, the
      others as `text|`. */
  function ParamText(p: Param): (r: seq<byte>)
    ensures 1 <= |r| && r[|r| - 1] == Bar
  {
    match p
    case PString(bytes) => Digits(|bytes|) + [Bar] + bytes + [Bar]
    case PInt(n) => IntText(n) + [Bar]
    case PChar(c) => [c, Bar]
    case PBool(f) => [if f then Zero + 1 else Zero, Bar]
    case PReal(literal) => literal + [Bar]
    case PDate(literal, _) => Digits(|literal|) + [Bar] + literal + [Bar]
  }

  function ParamsText(ps: seq<Param>): seq<byte>
    decreases |ps|
  {
    if |ps| == 0 then [] else ParamText(ps[0]) + ParamsText(ps[1..])
  }

  /** A command on the wire: its code, a bar, then its parameters. */
  function Encode(c: Command): (r: seq<byte>)
    ensures 2 <= |r|
  {
    Digits(c.code) + [Bar] + ParamsText(c.params)
  }

  function EncodeAll(cs: seq<Command>): seq<byte>
    decreases |cs|
  {
    if |cs| == 0 then [] else Encode(cs[0]) + EncodeAll(cs[1..])
  }

  /** The values a sender can spell so that they read back: integers in the
      32-bit range, a character other than the separator, a real literal
      without a separator that toDouble accepts, a date literal whose format
      is the first that accepts it, and counts that fit toUInt. */
  predicate SendableParam(p: Param, parsers: Parsers) {
    match p
    case PString(bytes) => |bytes| <= MaxUInt32
    case PInt(n) => MinInt32 <= n <= MaxInt32
    case PChar(c) => c != Bar
    case PBool(_) => true
    case PReal(literal) => Bar !in literal && parsers.isReal(literal)
    case PDate(literal, format) => |literal| <= MaxUInt32 && FirstDate(literal, parsers) == Some(format)
  }

  predicate Sendable(c: Command, parsers: Parsers) {
    WellTyped(c) && forall j :: 0 <= j < |c.params| ==> SendableParam(c.params[j], parsers)
  }

  /** What the decoder should be doing once `ps` has been read completely:
      executing the command if it is complete, else reading the next one. */
  function AfterParams(code: nat, ps: seq<Param>, n: nat): Outcome
    requires ValidCode(code) && 1 <= |ps| <= Arity(code)
    requires forall j :: 0 <= j < |ps| ==> Matches(KindsOf(code)[j], ps[j])
  {
    if |ps| == Arity(code) then Outcome(Idle, [Command(code, ps)], None, n)
    else Outcome(BeginParam(code, ps), [], None, n)
  }

  /** Feeding two pieces whose first leaves no error, with the first piece's
      outcome known. */
  lemma Chain(st: State, xs: seq<byte>, ys: seq<byte>, parsers: Parsers, mid: State, f1: seq<Command>, r: Outcome)
    requires Inv(st) && Feed(st, xs, parsers) == Outcome(mid, f1, None, |xs|)
    requires Feed(mid, ys, parsers) == r
    ensures Feed(st, xs + ys, parsers) == Outcome(r.state, f1 + r.fired, r.error, |xs| + r.consumed)
  {
    FeedAppend(st, xs, ys, parsers);
  }

  /** Feeding a single byte is one step. */
  lemma FeedOne(st: State, b: byte, parsers: Parsers)
    requires Inv(st)
    ensures var s := Step(st, b, parsers);
      Feed(st, [b], parsers) ==
        match s.emit
        case Fail(e) => Outcome(Idle, [], Some(e), 1)
        case Quiet => Outcome(s.state, [], None, 1)
        case Fire(c) => Outcome(s.state, [c], None, 1)
  {
    assert [b][1..] == [];
  }

  /** A byte that moves the decoder on quietly. */
  lemma QuietStep(st: State, bs: seq<byte>, parsers: Parsers, next: State)
    requires Inv(st) && 1 <= |bs| && Step(st, bs[0], parsers) == Stepped(next, Quiet)
    ensures Inv(next)
    ensures var r := Feed(next, bs[1..], parsers);
      Feed(st, bs, parsers) == r.(consumed := r.consumed + 1)
  {
  }

  /** Growing a buffer by the head of s, then by the rest. */
  lemma GrowBuf(buf: seq<byte>, s: seq<byte>)
    requires 1 <= |s|
    ensures buf + [s[0]] + s[1..] == buf + s
  {
    assert [s[0]] + s[1..] == s;
  }

  /** Bytes other than the separator extend the code being read. */
  lemma {:induction false} CodeAccumulates(buf: seq<byte>, s: seq<byte>, parsers: Parsers)
    requires Inv(ReadCode(buf)) && Bar !in s
    ensures Feed(ReadCode(buf), s, parsers) == Outcome(ReadCode(buf + s), [], None, |s|)
    decreases |s|
  {
    if |s| > 0 {
      var next := ReadCode(buf + [s[0]]);
      assert Step(ReadCode(buf), s[0], parsers) == Stepped(next, Quiet);
      QuietStep(ReadCode(buf), s, parsers, next);
      CodeAccumulates(buf + [s[0]], s[1..], parsers);
      GrowBuf(buf, s);
    }
  }

  /** Bytes other than the separator extend the byte count being read. */
  lemma {:induction false} NumAccumulates(code: nat, ps: seq<Param>, buf: seq<byte>, s: seq<byte>, parsers: Parsers)
    requires Inv(ReadNum(code, ps, buf)) && Bar !in s
    ensures Feed(ReadNum(code, ps, buf), s, parsers) == Outcome(ReadNum(code, ps, buf + s), [], None, |s|)
    decreases |s|
  {
    if |s| > 0 {
      var next := ReadNum(code, ps, buf + [s[0]]);
      assert Step(ReadNum(code, ps, buf), s[0], parsers) == Stepped(next, Quiet);
      QuietStep(ReadNum(code, ps, buf), s, parsers, next);
      NumAccumulates(code, ps, buf + [s[0]], s[1..], parsers);
      GrowBuf(buf, s);
    }
  }

  /** A counted value takes any bytes, separators included, while its count lasts. */
  lemma {:induction false} CountedAccumulates(code: nat, ps: seq<Param>, n: nat, buf: seq<byte>, s: seq<byte>, parsers: Parsers)
    requires Inv(ReadVal(code, ps, Some(n), buf)) && |s| <= n
    ensures Feed(ReadVal(code, ps, Some(n), buf), s, parsers) ==
      Outcome(ReadVal(code, ps, Some(n - |s|), buf + s), [], None, |s|)
    decreases |s|
  {
    if |s| > 0 {
      var next := ReadVal(code, ps, Some(n - 1), buf + [s[0]]);
      assert Step(ReadVal(code, ps, Some(n), buf), s[0], parsers) == Stepped(next, Quiet);
      QuietStep(ReadVal(code, ps, Some(n), buf), s, parsers, next);
      CountedAccumulates(code, ps, n - 1, buf + [s[0]], s[1..], parsers);
      GrowBuf(buf, s);
    }
  }

  /** An uncounted value takes bytes up to the next separator. */
  lemma {:induction false} PlainAccumulates(code: nat, ps: seq<Param>, buf: seq<byte>, s: seq<byte>, parsers: Parsers)
    requires Inv(ReadVal(code, ps, None, buf)) && Bar !in s
    ensures Feed(ReadVal(code, ps, None, buf), s, parsers) == Outcome(ReadVal(code, ps, None, buf + s), [], None, |s|)
    decreases |s|
  {
    if |s| > 0 {
      var next := ReadVal(code, ps, None, buf + [s[0]]);
      assert Step(ReadVal(code, ps, None, buf), s[0], parsers) == Stepped(next, Quiet);
      QuietStep(ReadVal(code, ps, None, buf), s, parsers, next);
      PlainAccumulates(code, ps, buf + [s[0]], s[1..], parsers);
      GrowBuf(buf, s);
    }
  }

  /** The separator that ends a value stores it and moves on. */
  lemma ValueEnds(code: nat, ps: seq<Param>, rem: Option<nat>, buf: seq<byte>, p: Param, parsers: Parsers)
    requires Inv(ReadVal(code, ps, rem, buf)) && (rem == Some(0) || rem.None?)
    requires Coerce(KindsOf(code)[|ps|], buf, parsers) == Ok(p)
    ensures forall j :: 0 <= j < |ps + [p]| ==> Matches(KindsOf(code)[j], (ps + [p])[j])
    ensures Feed(ReadVal(code, ps, rem, buf), [Bar], parsers) == AfterParams(code, ps + [p], 1)
  {
    FeedOne(ReadVal(code, ps, rem, buf), Bar, parsers);
    var ps' := ps + [p];
    assert forall j :: 0 <= j < |ps'| ==> Matches(KindsOf(code)[j], ps'[j]) by {
      forall j | 0 <= j < |ps'| ensures Matches(KindsOf(code)[j], ps'[j]) {
        if j < |ps| { assert ps'[j] == ps[j]; }
      }
    }
  }

  /** The byte count of a counted value and its separator. */
  lemma CountRead(code: nat, ps: seq<Param>, n: nat, parsers: Parsers)
    requires Inv(ReadNum(code, ps, [])) && n <= MaxUInt32
    ensures Inv(ReadVal(code, ps, Some(n), []))
    ensures Feed(ReadNum(code, ps, []), Digits(n) + [Bar], parsers) ==
      Outcome(ReadVal(code, ps, Some(n), []), [], None, |Digits(n)| + 1)
  {
    DigitsHaveNoBar(n);
    UIntRoundTrip(n);
    CountText(code, ps, Digits(n), n, parsers);
  }

  /** Any count text the decoder parses as n, then its separator. */
  lemma CountText(code: nat, ps: seq<Param>, d: seq<byte>, n: nat, parsers: Parsers)
    requires Inv(ReadNum(code, ps, [])) && Bar !in d && ParseUInt(d) == Some(n)
    ensures Feed(ReadNum(code, ps, []), d + [Bar], parsers) ==
      Outcome(ReadVal(code, ps, Some(n), []), [], None, |d| + 1)
  {
    NumAccumulates(code, ps, [], d, parsers);
    assert [] + d == d;
    FeedOne(ReadNum(code, ps, d), Bar, parsers);
    Chain(ReadNum(code, ps, []), d, [Bar], parsers, ReadNum(code, ps, d), [],
      Outcome(ReadVal(code, ps, Some(n), []), [], None, 1));
  }

  /** The count, its separator and the counted bytes, up to the closing bar. */
  lemma CountedRead(code: nat, ps: seq<Param>, v: seq<byte>, parsers: Parsers)
    requires Inv(ReadNum(code, ps, [])) && |v| <= MaxUInt32
    ensures Inv(ReadVal(code, ps, Some(0), v))
    ensures Feed(ReadNum(code, ps, []), Digits(|v|) + [Bar] + v, parsers) ==
      Outcome(ReadVal(code, ps, Some(0), v), [], None, |Digits(|v|) + [Bar] + v|)
  {
    var head := Digits(|v|) + [Bar];
    CountRead(code, ps, |v|, parsers);
    if |v| == 0 {
      assert head + v == head;
    } else {
      var counting := ReadVal(code, ps, Some(|v|), []);
      CountedAccumulates(code, ps, |v|, [], v, parsers);
      assert [] + v == v;
      Chain(ReadNum(code, ps, []), head, v, parsers, counting, [], Outcome(ReadVal(code, ps, Some(0), v), [], None, |v|));
    }
  }

  /** A counted value: count, separator, the bytes, separator. */
  lemma CountedParam(code: nat, ps: seq<Param>, v: seq<byte>, p: Param, parsers: Parsers)
    requires ValidCode(code) && TypedPrefix(code, ps) && HasNum(KindsOf(code)[|ps|])
    requires |v| <= MaxUInt32 && Coerce(KindsOf(code)[|ps|], v, parsers) == Ok(p)
    ensures forall j :: 0 <= j < |ps + [p]| ==> Matches(KindsOf(code)[j], (ps + [p])[j])
    ensures Feed(ReadNum(code, ps, []), Digits(|v|) + [Bar] + v + [Bar], parsers) ==
      AfterParams(code, ps + [p], |Digits(|v|) + [Bar] + v + [Bar]|)
  {
    var full := ReadVal(code, ps, Some(0), v);
    CountedRead(code, ps, v, parsers);
    ValueEnds(code, ps, Some(0), v, p, parsers);
    Chain(ReadNum(code, ps, []), Digits(|v|) + [Bar] + v, [Bar], parsers, full, [], AfterParams(code, ps + [p], 1));
  }

  /** An uncounted value's text, before its separator, is all buffered. */
  lemma PlainRead(code: nat, ps: seq<Param>, v: seq<byte>, parsers: Parsers)
    requires Inv(ReadVal(code, ps, None, [])) && Bar !in v
    ensures Feed(ReadVal(code, ps, None, []), v, parsers) == Outcome(ReadVal(code, ps, None, v), [], None, |v|)
  {
    PlainAccumulates(code, ps, [], v, parsers);
    assert [] + v == v;
  }

  /** An uncounted value: the text, then the separator. */
  lemma PlainParam(code: nat, ps: seq<Param>, v: seq<byte>, p: Param, parsers: Parsers)
    requires ValidCode(code) && TypedPrefix(code, ps) && !HasNum(KindsOf(code)[|ps|])
    requires Bar !in v && Coerce(KindsOf(code)[|ps|], v, parsers) == Ok(p)
    ensures forall j :: 0 <= j < |ps + [p]| ==> Matches(KindsOf(code)[j], (ps + [p])[j])
    ensures Feed(ReadVal(code, ps, None, []), v + [Bar], parsers) == AfterParams(code, ps + [p], |v| + 1)
  {
    assert Inv(ReadVal(code, ps, None, []));
    PlainRead(code, ps, v, parsers);
    ValueEnds(code, ps, None, v, p, parsers);
    Chain(ReadVal(code, ps, None, []), v, [Bar], parsers, ReadVal(code, ps, None, v), [], AfterParams(code, ps + [p], 1));
  }

  /** A 32-bit integer parameter, spelled by IntText. */
  lemma IntParam(code: nat, ps: seq<Param>, n: int, parsers: Parsers)
    requires ValidCode(code) && TypedPrefix(code, ps) && KindsOf(code)[|ps|] == KInt
    requires MinInt32 <= n <= MaxInt32
    ensures forall j :: 0 <= j < |ps + [PInt(n)]| ==> Matches(KindsOf(code)[j], (ps + [PInt(n)])[j])
    ensures Feed(ReadVal(code, ps, None, []), IntText(n) + [Bar], parsers) == AfterParams(code, ps + [PInt(n)], |IntText(n)| + 1)
  {
    IntRoundTrip(n);
    assert Coerce(KInt, IntText(n), parsers) == Ok(PInt(n));
    PlainParam(code, ps, IntText(n), PInt(n), parsers);
  }

  /** One sendable parameter of the expected kind reads back as itself. */
  lemma ParamRoundTrip(code: nat, ps: seq<Param>, p: Param, parsers: Parsers)
    requires ValidCode(code) && TypedPrefix(code, ps)
    requires Matches(KindsOf(code)[|ps|], p) && SendableParam(p, parsers)
    ensures forall j :: 0 <= j < |ps + [p]| ==> Matches(KindsOf(code)[j], (ps + [p])[j])
    ensures Feed(BeginParam(code, ps), ParamText(p), parsers) == AfterParams(code, ps + [p], |ParamText(p)|)
  {
    if p.PString? || p.PDate? {
      CountedKindParam(code, ps, p, parsers);
    } else {
      PlainKindParam(code, ps, p, parsers);
    }
  }

  lemma CountedKindParam(code: nat, ps: seq<Param>, p: Param, parsers: Parsers)
    requires ValidCode(code) && TypedPrefix(code, ps)
    requires Matches(KindsOf(code)[|ps|], p) && SendableParam(p, parsers) && (p.PString? || p.PDate?)
    ensures forall j :: 0 <= j < |ps + [p]| ==> Matches(KindsOf(code)[j], (ps + [p])[j])
    ensures Feed(BeginParam(code, ps), ParamText(p), parsers) == AfterParams(code, ps + [p], |ParamText(p)|)
  {
    match p
    case PString(bytes) =>
      CountedParam(code, ps, bytes, p, parsers);
    case PDate(literal, _) =>
      CountedParam(code, ps, literal, p, parsers);
  }

  lemma PlainKindParam(code: nat, ps: seq<Param>, p: Param, parsers: Parsers)
    requires ValidCode(code) && TypedPrefix(code, ps)
    requires Matches(KindsOf(code)[|ps|], p) && SendableParam(p, parsers) && !p.PString? && !p.PDate?
    ensures forall j :: 0 <= j < |ps + [p]| ==> Matches(KindsOf(code)[j], (ps + [p])[j])
    ensures Feed(BeginParam(code, ps), ParamText(p), parsers) == AfterParams(code, ps + [p], |ParamText(p)|)
  {
    match p
    case PInt(n) =>
      IntParam(code, ps, n, parsers);
    case PChar(c) =>
      assert [c, Bar] == [c] + [Bar];
      PlainParam(code, ps, [c], p, parsers);
    case PBool(f) =>
      var t: byte := if f then Zero + 1 else Zero;
      assert [t, Bar] == [t] + [Bar];
      PlainParam(code, ps, [t], p, parsers);
    case PReal(literal) =>
      PlainParam(code, ps, literal, p, parsers);
  }

  /** Splits a typed parameter list at the first remaining parameter. */
  lemma SplitFacts(code: nat, ps: seq<Param>, rest: seq<Param>)
    requires ValidCode(code) && 1 <= |rest| && |ps| + |rest| == Arity(code)
    requires forall j :: 0 <= j < |ps| + |rest| ==> Matches(KindsOf(code)[j], (ps + rest)[j])
    ensures TypedPrefix(code, ps) && Matches(KindsOf(code)[|ps|], rest[0])
    ensures (ps + [rest[0]]) + rest[1..] == ps + rest
  {
    assert forall j :: 0 <= j < |ps| ==> (ps + rest)[j] == ps[j];
    assert (ps + rest)[|ps|] == rest[0];
    assert (ps + [rest[0]]) + rest[1..] == ps + rest;
  }

  /** The remaining parameters of a command read back as themselves and the
      command fires. */
  lemma {:induction false} ParamsRoundTrip(code: nat, ps: seq<Param>, rest: seq<Param>, parsers: Parsers)
    requires ValidCode(code) && 1 <= |rest| && |ps| + |rest| == Arity(code)
    requires forall j :: 0 <= j < |ps| + |rest| ==> Matches(KindsOf(code)[j], (ps + rest)[j])
    requires forall j :: 0 <= j < |rest| ==> SendableParam(rest[j], parsers)
    ensures TypedPrefix(code, ps)
    ensures Feed(BeginParam(code, ps), ParamsText(rest), parsers) ==
      Outcome(Idle, [Command(code, ps + rest)], None, |ParamsText(rest)|)
    decreases |rest|
  {
    SplitFacts(code, ps, rest);
    ParamRoundTrip(code, ps, rest[0], parsers);
    var ps' := ps + [rest[0]];
    var t := ParamText(rest[0]);
    if |rest| == 1 {
      assert ParamsText(rest) == t + [] == t;
      assert ps + rest == ps';
    } else {
      var tail := rest[1..];
      assert forall j :: 0 <= j < |tail| ==> SendableParam(tail[j], parsers) by {
        forall j | 0 <= j < |tail| ensures SendableParam(tail[j], parsers) {
          assert tail[j] == rest[j + 1];
        }
      }
      ParamsRoundTrip(code, ps', tail, parsers);
      var r := Feed(BeginParam(code, ps'), ParamsText(tail), parsers);
      Chain(BeginParam(code, ps), t, ParamsText(tail), parsers, BeginParam(code, ps'), [], r);
    }
  }

  /** Reading the code of a command from Idle. */
  lemma CodeRead(code: nat, parsers: Parsers)
    ensures Feed(Idle, Digits(code), parsers) == Outcome(ReadCode(Digits(code)), [], None, |Digits(code)|)
  {
    var d := Digits(code);
    DigitsHaveNoBar(code);
    assert d[0] in d;
    FeedOne(Idle, d[0], parsers);
    assert Bar !in d[1..] by {
      forall b | b in d[1..] ensures b != Bar { assert b in d; }
    }
    CodeAccumulates([d[0]], d[1..], parsers);
    assert [d[0]] + d[1..] == d;
    Chain(Idle, [d[0]], d[1..], parsers, ReadCode([d[0]]), [], Outcome(ReadCode(d), [], None, |d| - 1));
  }

  /** A valid code and its separator: a command without parameters fires,
      any other starts reading its first parameter. */
  lemma HeaderRead(code: nat, parsers: Parsers)
    requires ValidCode(code)
    ensures Feed(Idle, Digits(code) + [Bar], parsers) ==
      if Arity(code) == 0 then Outcome(Idle, [Command(code, [])], None, |Digits(code)| + 1)
      else Outcome(BeginParam(code, []), [], None, |Digits(code)| + 1)
  {
    var d := Digits(code);
    CodeRead(code, parsers);
    UIntRoundTrip(code);
    FeedOne(ReadCode(d), Bar, parsers);
    Chain(Idle, d, [Bar], parsers, ReadCode(d), [], Feed(ReadCode(d), [Bar], parsers));
  }

  /** Round trip: a sendable command fed to an idle decoder fires once,
      exactly as sent, reads every byte and leaves the decoder idle. */
  lemma EncodeRoundTrip(c: Command, parsers: Parsers)
    requires Sendable(c, parsers)
    ensures Feed(Idle, Encode(c), parsers) == Outcome(Idle, [c], None, |Encode(c)|)
  {
    var head := Digits(c.code) + [Bar];
    HeaderRead(c.code, parsers);
    if Arity(c.code) == 0 {
      assert c.params == [] && ParamsText(c.params) == [];
      assert Encode(c) == head;
    } else {
      assert [] + c.params == c.params;
      ParamsRoundTrip(c.code, [], c.params, parsers);
      Chain(Idle, head, ParamsText(c.params), parsers, BeginParam(c.code, []), [],
        Outcome(Idle, [c], None, |ParamsText(c.params)|));
    }
  }

  /** A whole conversation of sendable commands is decoded to exactly those
      commands, in order. */
  lemma {:induction false} EncodeAllRoundTrip(cs: seq<Command>, parsers: Parsers)
    requires forall k :: 0 <= k < |cs| ==> Sendable(cs[k], parsers)
    ensures Feed(Idle, EncodeAll(cs), parsers) == Outcome(Idle, cs, None, |EncodeAll(cs)|)
    decreases |cs|
  {
    if |cs| > 0 {
      EncodeRoundTrip(cs[0], parsers);
      EncodeAllRoundTrip(cs[1..], parsers);
      Chain(Idle, Encode(cs[0]), EncodeAll(cs[1..]), parsers, Idle, [cs[0]],
        Outcome(Idle, cs[1..], None, |EncodeAll(cs[1..])|));
      assert [cs[0]] + cs[1..] == cs;
    }
  }
}
