/** The protocol decoder: a byte-at-a-time state machine that turns the wire
    format `code|[len|]value|[len|]value|...` into commands of a fixed table
    of 24, each with up to three typed parameters.

    String and date parameters carry a decimal byte count before their value,
    so their value may contain `|`; every other kind ends at the next `|`.
    The first malformed token stops decoding: the source is closed and no
    further byte is read. */
module IpcProtocol {
  import opened Base
  import opened Decimal

  /** Parameter kinds of the command table. */
  datatype Kind = KNone | KString | KInt | KChar | KBool | KReal | KDate

  /** Kinds whose value is preceded by a byte count. */
  predicate HasNum(k: Kind) {
    k == KString || k == KDate
  }

  datatype CommandInfo = CommandInfo(name: string, kinds: seq<Kind>)

  const MaxParam: nat := 3
  const MaxCommand: nat := 23

  /** The static command table, indexed by command code. */
  const Commands: seq<CommandInfo> := [
    CommandInfo("OpenStream", [KString, KNone, KNone]),
    CommandInfo("CloseStream", [KNone, KNone, KNone]),
    CommandInfo("StringVal", [KString, KNone, KNone]),
    CommandInfo("StringValName", [KString, KString, KNone]),
    CommandInfo("IntVal", [KInt, KNone, KNone]),
    CommandInfo("IntValName", [KInt, KString, KNone]),
    CommandInfo("BoolVal", [KBool, KNone, KNone]),
    CommandInfo("BoolValName", [KBool, KString, KNone]),
    CommandInfo("CharVal", [KChar, KNone, KNone]),
    CommandInfo("CharValName", [KChar, KString, KNone]),
    CommandInfo("RealVal", [KReal, KNone, KNone]),
    CommandInfo("RealValName", [KReal, KString, KNone]),
    CommandInfo("DateVal", [KDate, KNone, KNone]),
    CommandInfo("DateValName", [KDate, KString, KNone]),
    CommandInfo("LoadImg", [KString, KBool, KNone]),
    CommandInfo("LoadImgName", [KString, KBool, KString]),
    CommandInfo("StartFrame", [KNone, KNone, KNone]),
    CommandInfo("StartFrameName", [KString, KNone, KNone]),
    CommandInfo("EndFrame", [KNone, KNone, KNone]),
    CommandInfo("StartEmbed", [KNone, KNone, KNone]),
    CommandInfo("EndEmbed", [KNone, KNone, KNone]),
    CommandInfo("EndEmbedName", [KString, KNone, KNone]),
    CommandInfo("PasteString", [KNone, KNone, KNone]),
    CommandInfo("PasteStringName", [KString, KNone, KNone])
  ]

  /** A code the decoder accepts: an unsigned value no greater than the last
      table index. */
  predicate ValidCode(code: nat) {
    code <= MaxCommand
  }

  function KindsOf(code: nat): (ks: seq<Kind>)
    requires ValidCode(code)
    ensures |ks| == MaxParam
  {
    Commands[code].kinds
  }

  /** The number of parameters a command takes: its kinds before the first KNone. */
  function Arity(code: nat): (n: nat)
    requires ValidCode(code)
    ensures n <= MaxParam
    ensures forall j :: 0 <= j < n ==> KindsOf(code)[j] != KNone
    ensures n < MaxParam ==> KindsOf(code)[n] == KNone
  {
    var ks := KindsOf(code);
    if ks[0] == KNone then 0 else if ks[1] == KNone then 1 else if ks[2] == KNone then 2 else 3
  }

  /** A decoded parameter value. Strings keep their raw bytes; reals and
      dates keep the wire text their parser accepted. */
  datatype Param =
    | PString(bytes: seq<byte>)
    | PInt(number: int)
    | PChar(code: byte)
    | PBool(flag: bool)
    | PReal(literal: seq<byte>)
    | PDate(literal: seq<byte>, format: DateFormat)

  predicate Matches(k: Kind, p: Param) {
    match k
    case KNone => false
    case KString => p.PString?
    case KInt => p.PInt?
    case KChar => p.PChar?
    case KBool => p.PBool?
    case KReal => p.PReal?
    case KDate => p.PDate?
  }

  datatype Command = Command(code: nat, params: seq<Param>)

  /** A command as the table types it: a valid code and one matching
      parameter per declared kind. */
  predicate WellTyped(c: Command) {
    && ValidCode(c.code)
    && |c.params| == Arity(c.code)
    && forall j :: 0 <= j < |c.params| ==> Matches(KindsOf(c.code)[j], c.params[j])
  }

  /** The foreign parsers the decoder relies on: QByteArray::toDouble and
      QDateTime::fromString with one of the three formats. */
  datatype Parsers = Parsers(isReal: seq<byte> -> bool, isDate: (seq<byte>, DateFormat) -> bool)

  datatype DecodeError =
    | InvalidCommand(text: seq<byte>)
    | InvalidLength(text: seq<byte>)
    | ExpectingBar(text: seq<byte>)
    | InvalidInteger(text: seq<byte>)
    | InvalidChar(text: seq<byte>)
    | InvalidBool(text: seq<byte>)
    | InvalidReal(text: seq<byte>)
    | InvalidDate(text: seq<byte>)
    | InvalidParamType

  /** Decoder state. `params` holds the parameters read so far (its length is
      the current parameter index); `remaining` is the byte count still to
      read for a counted value, `None` for a value ending at the next `|`. */
  datatype State =
    | Idle
    | ReadCode(buf: seq<byte>)
    | ReadNum(code: nat, params: seq<Param>, buf: seq<byte>)
    | ReadVal(code: nat, params: seq<Param>, remaining: Option<nat>, buf: seq<byte>)

  /** What one byte produces besides the next state. */
  datatype Emit = Quiet | Fire(command: Command) | Fail(error: DecodeError)

  datatype Stepped = Stepped(state: State, emit: Emit)

  predicate TypedPrefix(code: nat, ps: seq<Param>)
    requires ValidCode(code)
  {
    |ps| < Arity(code) && forall j :: 0 <= j < |ps| ==> Matches(KindsOf(code)[j], ps[j])
  }

  /** The states the decoder can reach from Idle. */
  predicate Inv(st: State) {
    match st
    case Idle => true
    case ReadCode(buf) => 1 <= |buf| && buf[0] != Space && Bar !in buf[1..]
    case ReadNum(code, ps, buf) =>
      ValidCode(code) && TypedPrefix(code, ps) && HasNum(KindsOf(code)[|ps|]) && Bar !in buf
    case ReadVal(code, ps, rem, buf) =>
      && ValidCode(code) && TypedPrefix(code, ps)
      && (rem.Some? <==> HasNum(KindsOf(code)[|ps|]))
      && (rem.None? ==> Bar !in buf)
  }

  /** The first of the three date formats that accepts the text. */
  function FirstDate(text: seq<byte>, parsers: Parsers): (r: Option<DateFormat>)
    ensures r == Some(DateAndTime) <==> parsers.isDate(text, DateAndTime)
    ensures r == Some(DateOnly) <==> !parsers.isDate(text, DateAndTime) && parsers.isDate(text, DateOnly)
    ensures r == Some(TimeOnly) <==>
      !parsers.isDate(text, DateAndTime) && !parsers.isDate(text, DateOnly) && parsers.isDate(text, TimeOnly)
  {
    if parsers.isDate(text, DateAndTime) then Some(DateAndTime)
    else if parsers.isDate(text, DateOnly) then Some(DateOnly)
    else if parsers.isDate(text, TimeOnly) then Some(TimeOnly)
    else None
  }

  /** consume: turns the bytes of one parameter into a value of its kind. */
  function Coerce(k: Kind, buf: seq<byte>, parsers: Parsers): (r: Result<Param, DecodeError>)
    ensures r.Ok? ==> Matches(k, r.value)
    ensures k == KString ==> r == Ok(PString(buf))
    ensures k == KBool ==> (r.Ok? <==> buf == [Zero] || buf == [Zero + 1])
    ensures k == KBool && r.Ok? ==> (r.value.flag <==> buf == [Zero + 1])
    ensures k == KChar ==> (r.Ok? <==> |buf| == 1)
    ensures k == KChar && r.Ok? ==> r.value.code == buf[0]
    ensures k == KInt ==> (r.Ok? <==> ParseInt(buf).Some?)
    ensures k == KInt && r.Ok? ==> r.value.number == ParseInt(buf).value
    ensures k == KReal ==> (r.Ok? <==> parsers.isReal(buf))
    ensures k == KDate ==> (r.Ok? <==> FirstDate(buf, parsers).Some?)
    ensures k == KDate && r.Ok? ==> r.value == PDate(buf, FirstDate(buf, parsers).value)
    ensures k == KNone ==> r == Err(InvalidParamType)
  {
    match k
    case KString => Ok(PString(buf))
    case KInt => if ParseInt(buf).Some? then Ok(PInt(ParseInt(buf).value)) else Err(InvalidInteger(buf))
    case KChar => if |buf| == 1 then Ok(PChar(buf[0])) else Err(InvalidChar(buf))
    case KBool =>
      if buf == [Zero] then Ok(PBool(false))
      else if buf == [Zero + 1] then Ok(PBool(true))
      else Err(InvalidBool(buf))
    case KReal => if parsers.isReal(buf) then Ok(PReal(buf)) else Err(InvalidReal(buf))
    case KDate =>
      if FirstDate(buf, parsers).Some? then Ok(PDate(buf, FirstDate(buf, parsers).value))
      else Err(InvalidDate(buf))
    case KNone => Err(InvalidParamType)
  }

  /** The state that reads parameter number |ps|: first its count if it has one. */
  function BeginParam(code: nat, ps: seq<Param>): (st: State)
    requires ValidCode(code) && TypedPrefix(code, ps)
    ensures Inv(st)
    ensures HasNum(KindsOf(code)[|ps|]) ==> st == ReadNum(code, ps, [])
    ensures !HasNum(KindsOf(code)[|ps|]) ==> st == ReadVal(code, ps, None, [])
  {
    if HasNum(KindsOf(code)[|ps|]) then ReadNum(code, ps, []) else ReadVal(code, ps, None, [])
  }

  /** evaluate: stores the finished parameter, then either executes the
      command (three parameters read, or the next kind is KNone) or starts
      the next parameter. */
  function Evaluate(code: nat, ps: seq<Param>, buf: seq<byte>, parsers: Parsers): (r: Stepped)
    requires ValidCode(code) && TypedPrefix(code, ps)
    ensures Inv(r.state)
    ensures !r.emit.Quiet? ==> r.state == Idle
    ensures r.emit.Fire? ==> WellTyped(r.emit.command) && r.emit.command.code == code
    ensures r.emit.Fire? ==> r.emit.command.params[..|ps|] == ps
    ensures r.emit.Fire? <==> Coerce(KindsOf(code)[|ps|], buf, parsers).Ok? && |ps| + 1 == Arity(code)
    ensures r.emit.Fail? <==> Coerce(KindsOf(code)[|ps|], buf, parsers).Err?
  {
    match Coerce(KindsOf(code)[|ps|], buf, parsers)
    case Err(e) => Stepped(Idle, Fail(e))
    case Ok(p) =>
      var ps' := ps + [p];
      Extend(code, ps, p);
      if |ps'| >= MaxParam || KindsOf(code)[|ps'|] == KNone then
        Stepped(Idle, Fire(Command(code, ps')))
      else
        Stepped(BeginParam(code, ps'), Quiet)
  }

  /** A parameter of the expected kind extends a typed prefix: to a whole
      command when no kind follows, else to a longer prefix. */
  lemma Extend(code: nat, ps: seq<Param>, p: Param)
    requires ValidCode(code) && TypedPrefix(code, ps) && Matches(KindsOf(code)[|ps|], p)
    ensures (ps + [p])[..|ps|] == ps
    ensures |ps| + 1 >= MaxParam || KindsOf(code)[|ps| + 1] == KNone <==> |ps| + 1 == Arity(code)
    ensures |ps| + 1 == Arity(code) ==> WellTyped(Command(code, ps + [p]))
    ensures |ps| + 1 < Arity(code) ==> TypedPrefix(code, ps + [p])
  {
    var ps' := ps + [p];
    assert ps'[..|ps|] == ps;
    assert forall j :: 0 <= j < |ps'| ==> Matches(KindsOf(code)[j], ps'[j]) by {
      forall j | 0 <= j < |ps'| ensures Matches(KindsOf(code)[j], ps'[j]) {
        if j < |ps| { assert ps'[j] == ps[j]; }
      }
    }
  }

  function StepIdle(b: byte): (r: Stepped)
    ensures Inv(r.state) && r.emit == Quiet
    ensures b == Space ==> r.state == Idle
    ensures b != Space ==> r.state == ReadCode([b])
  {
    if b == Space then Stepped(Idle, Quiet) else Stepped(ReadCode([b]), Quiet)
  }

  function StepCode(buf: seq<byte>, b: byte): (r: Stepped)
    requires Inv(ReadCode(buf))
    ensures Inv(r.state)
    ensures b != Bar ==> r == Stepped(ReadCode(buf + [b]), Quiet)
    ensures b == Bar && (ParseUInt(buf).None? || !ValidCode(ParseUInt(buf).value)) ==>
      r == Stepped(Idle, Fail(InvalidCommand(buf)))
    ensures r.emit.Fire? ==> WellTyped(r.emit.command) && r.emit.command.params == [] && r.state == Idle
  {
    if b != Bar then Stepped(ReadCode(buf + [b]), Quiet)
    else match ParseUInt(buf)
      case None => Stepped(Idle, Fail(InvalidCommand(buf)))
      case Some(code) =>
        if !ValidCode(code) then Stepped(Idle, Fail(InvalidCommand(buf)))
        else if KindsOf(code)[0] == KNone then Stepped(Idle, Fire(Command(code, [])))
        else Stepped(BeginParam(code, []), Quiet)
  }

  function StepNum(code: nat, ps: seq<Param>, buf: seq<byte>, b: byte): (r: Stepped)
    requires Inv(ReadNum(code, ps, buf))
    ensures Inv(r.state)
    ensures b != Bar ==> r == Stepped(ReadNum(code, ps, buf + [b]), Quiet)
    ensures b == Bar && ParseUInt(buf).None? ==> r == Stepped(Idle, Fail(InvalidLength(buf)))
    ensures b == Bar && ParseUInt(buf).Some? ==> r == Stepped(ReadVal(code, ps, Some(ParseUInt(buf).value), []), Quiet)
  {
    if b != Bar then Stepped(ReadNum(code, ps, buf + [b]), Quiet)
    else match ParseUInt(buf)
      case None => Stepped(Idle, Fail(InvalidLength(buf)))
      case Some(n) => Stepped(ReadVal(code, ps, Some(n), []), Quiet)
  }

  function StepVal(code: nat, ps: seq<Param>, rem: Option<nat>, buf: seq<byte>, b: byte, parsers: Parsers): (r: Stepped)
    requires Inv(ReadVal(code, ps, rem, buf))
    ensures Inv(r.state)
    ensures !r.emit.Quiet? ==> r.state == Idle
    ensures r.emit.Fire? ==> WellTyped(r.emit.command)
    ensures rem.Some? && rem.value > 0 ==> r == Stepped(ReadVal(code, ps, Some(rem.value - 1), buf + [b]), Quiet)
    ensures rem == Some(0) && b != Bar ==> r == Stepped(Idle, Fail(ExpectingBar(buf)))
    ensures rem.None? && b != Bar ==> r == Stepped(ReadVal(code, ps, None, buf + [b]), Quiet)
    ensures (rem == Some(0) || rem.None?) && b == Bar ==> r == Evaluate(code, ps, buf, parsers)
  {
    match rem
    case Some(n) =>
      if n > 0 then Stepped(ReadVal(code, ps, Some(n - 1), buf + [b]), Quiet)
      else if b != Bar then Stepped(Idle, Fail(ExpectingBar(buf)))
      else Evaluate(code, ps, buf, parsers)
    case None =>
      if b != Bar then Stepped(ReadVal(code, ps, None, buf + [b]), Quiet)
      else Evaluate(code, ps, buf, parsers)
  }

  /** One byte through the decoder. Every fired command is well typed, and
      after a command or an error the decoder is back in Idle. */
  function Step(st: State, b: byte, parsers: Parsers): (r: Stepped)
    requires Inv(st)
    ensures Inv(r.state)
    ensures !r.emit.Quiet? ==> r.state == Idle
    ensures r.emit.Fire? ==> WellTyped(r.emit.command)
    ensures st.Idle? ==> r.emit == Quiet
  {
    match st
    case Idle => StepIdle(b)
    case ReadCode(buf) => StepCode(buf, b)
    case ReadNum(code, ps, buf) => StepNum(code, ps, buf, b)
    case ReadVal(code, ps, rem, buf) => StepVal(code, ps, rem, buf, b, parsers)
  }

  /** What feeding a byte sequence did: the state reached, the commands
      executed in order, the error that closed the source (if any), and how
      many bytes were read before decoding stopped. */
  datatype Outcome = Outcome(state: State, fired: seq<Command>, error: Option<DecodeError>, consumed: nat)

  /** The parse loop: bytes are read one at a time while the source is open;
      the first error closes it, so the bytes after it are never read. */
  function Feed(st: State, bs: seq<byte>, parsers: Parsers): (r: Outcome)
    requires Inv(st)
    ensures Inv(r.state)
    ensures r.consumed <= |bs|
    ensures r.error.None? ==> r.consumed == |bs|
    ensures r.error.Some? ==> 1 <= r.consumed && r.state == Idle
    decreases |bs|
  {
    if |bs| == 0 then Outcome(st, [], None, 0)
    else
      var s := Step(st, bs[0], parsers);
      match s.emit
      case Fail(e) => Outcome(Idle, [], Some(e), 1)
      case Quiet =>
        var rest := Feed(s.state, bs[1..], parsers);
        rest.(consumed := rest.consumed + 1)
      case Fire(c) =>
        var rest := Feed(s.state, bs[1..], parsers);
        rest.(fired := [c] + rest.fired, consumed := rest.consumed + 1)
  }

  predicate AllTyped(cs: seq<Command>) {
    forall k :: 0 <= k < |cs| ==> WellTyped(cs[k])
  }

  /** Every command the decoder fires is well typed. */
  lemma {:induction false} FeedTyped(st: State, bs: seq<byte>, parsers: Parsers)
    requires Inv(st)
    ensures AllTyped(Feed(st, bs, parsers).fired)
    decreases |bs|
  {
    if |bs| > 0 {
      var s := Step(st, bs[0], parsers);
      if !s.emit.Fail? {
        FeedTyped(s.state, bs[1..], parsers);
        var rest := Feed(s.state, bs[1..], parsers);
        if s.emit.Fire? {
          assert AllTyped([s.emit.command]);
          AllTypedAppend([s.emit.command], rest.fired);
        }
      }
    }
  }

  lemma AllTypedAppend(xs: seq<Command>, ys: seq<Command>)
    requires AllTyped(xs) && AllTyped(ys)
    ensures AllTyped(xs + ys)
  {
    forall k | 0 <= k < |xs + ys| ensures WellTyped((xs + ys)[k]) {
      if k < |xs| { assert (xs + ys)[k] == xs[k]; } else { assert (xs + ys)[k] == ys[k - |xs|]; }
    }
  }


  /** The commands one step fires: none or one. */
  function Fired(e: Emit): (cs: seq<Command>)
    ensures |cs| <= 1 && (cs != [] <==> e.Fire?)
  {
    if e.Fire? then [e.command] else []
  }

  /** Feeding a non-empty sequence whose first byte raises no error: that
      byte's step, then the rest from the state it reached. */
  lemma FeedCons(st: State, bs: seq<byte>, parsers: Parsers)
    requires Inv(st) && 1 <= |bs| && !Step(st, bs[0], parsers).emit.Fail?
    ensures var s := Step(st, bs[0], parsers);
      var r := Feed(s.state, bs[1..], parsers);
      Feed(st, bs, parsers) == Outcome(r.state, Fired(s.emit) + r.fired, r.error, r.consumed + 1)
  {
    var s := Step(st, bs[0], parsers);
    var r := Feed(s.state, bs[1..], parsers);
    if s.emit.Quiet? {
      assert Fired(s.emit) + r.fired == r.fired;
    }
  }

  /** Feeding two pieces one after the other is feeding their concatenation. */
  lemma {:induction false} FeedAppend(st: State, xs: seq<byte>, ys: seq<byte>, parsers: Parsers)
    requires Inv(st) && Feed(st, xs, parsers).error.None?
    ensures var a := Feed(st, xs, parsers);
      var b := Feed(a.state, ys, parsers);
      Feed(st, xs + ys, parsers) == Outcome(b.state, a.fired + b.fired, b.error, |xs| + b.consumed)
    decreases |xs|
  {
    if |xs| == 0 {
      assert xs + ys == ys;
    } else {
      assert (xs + ys)[0] == xs[0];
      assert (xs + ys)[1..] == xs[1..] + ys;
      var s := Step(st, xs[0], parsers);
      FeedCons(st, xs, parsers);
      FeedCons(st, xs + ys, parsers);
      FeedAppend(s.state, xs[1..], ys, parsers);
      var a := Feed(s.state, xs[1..], parsers);
      var b := Feed(a.state, ys, parsers);
      ConsAssoc(Fired(s.emit), a.fired, b.fired);
    }
  }

  lemma ConsAssoc<T>(c: seq<T>, x: seq<T>, y: seq<T>)
    ensures c + (x + y) == (c + x) + y
  {
  }

  /** An error in the first piece means the second is never read. */
  lemma {:induction false} FeedAppendStops(st: State, xs: seq<byte>, ys: seq<byte>, parsers: Parsers)
    requires Inv(st) && Feed(st, xs, parsers).error.Some?
    ensures Feed(st, xs + ys, parsers) == Feed(st, xs, parsers)
    decreases |xs|
  {
    assert (xs + ys)[0] == xs[0];
    assert (xs + ys)[1..] == xs[1..] + ys;
    var s := Step(st, xs[0], parsers);
    if s.emit.Fail? {
      FeedFails(st, xs, parsers);
      FeedFails(st, xs + ys, parsers);
    } else {
      FeedCons(st, xs, parsers);
      FeedCons(st, xs + ys, parsers);
      FeedAppendStops(s.state, xs[1..], ys, parsers);
    }
  }

  /** A first byte that raises an error ends the feed at once. */
  lemma FeedFails(st: State, bs: seq<byte>, parsers: Parsers)
    requires Inv(st) && 1 <= |bs| && Step(st, bs[0], parsers).emit.Fail?
    ensures Feed(st, bs, parsers) == Outcome(Idle, [], Some(Step(st, bs[0], parsers).emit.error), 1)
  {
  }

  /** Feeding chunk after chunk, as the bytes arrive, while the source stays
      open. */
  function FeedChunks(st: State, chunks: seq<seq<byte>>, parsers: Parsers): (r: Outcome)
    requires Inv(st)
    ensures Inv(r.state)
    decreases |chunks|
  {
    if |chunks| == 0 then Outcome(st, [], None, 0)
    else
      var a := Feed(st, chunks[0], parsers);
      if a.error.Some? then a
      else
        var b := FeedChunks(a.state, chunks[1..], parsers);
        Outcome(b.state, a.fired + b.fired, b.error, a.consumed + b.consumed)
  }

  function Concat(chunks: seq<seq<byte>>): seq<byte> {
    if |chunks| == 0 then [] else chunks[0] + Concat(chunks[1..])
  }

  /** However the bytes are split into chunks, the decoder does the same. */
  lemma {:induction false} ChunkingIsInvisible(st: State, chunks: seq<seq<byte>>, parsers: Parsers)
    requires Inv(st)
    ensures FeedChunks(st, chunks, parsers) == Feed(st, Concat(chunks), parsers)
    decreases |chunks|
  {
    if |chunks| > 0 {
      var a := Feed(st, chunks[0], parsers);
      if a.error.None? {
        FeedAppend(st, chunks[0], Concat(chunks[1..]), parsers);
        ChunkingIsInvisible(a.state, chunks[1..], parsers);
      } else {
        FeedAppendStops(st, chunks[0], Concat(chunks[1..]), parsers);
      }
    }
  }
}
