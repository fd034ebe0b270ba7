/** execute: each decoded command becomes one call on the stream agent, and
    a session joins the decoder to the agent: the bytes received so far are
    decoded, every fired command is applied in order, and the first decode
    error is reported and closes the connection. */
module Dispatch {
  import opened Base
  import opened Decimal
  import opened IpcProtocol
  import opened IpcCodec
  import opened StreamAgent
  import opened Nesting

  /** The UTF-8 decoder behind QString::fromUtf8, which the model does not
      interpret. */
  datatype Env = Env(utf8: seq<byte> -> string)

  /** QString::fromUtf8 applied to a parameter's bytes: it is handed the
      array as a C string, so it decodes only what comes before the first
      NUL, and nothing decodes to nothing. */
  function Text(bytes: seq<byte>, env: Env): (r: string)
    ensures CString(bytes) == [] ==> r == []
    ensures CString(bytes) != [] ==> r == env.utf8(CString(bytes))
  {
    if CString(bytes) == [] then [] else env.utf8(CString(bytes))
  }

  /** One character as QString::toLatin1 writes it: itself below U+0100, a
      '?' for each UTF-16 unit otherwise, so two for a character outside
      the Basic Multilingual Plane. */
  function Narrow(c: char): (r: string)
    ensures 1 <= |r| <= 2 && forall i :: 0 <= i < |r| ==> r[i] as int <= 0xFF
    ensures c as int <= 0xFF <==> r == [c]
  {
    if c as int <= 0xFF then [c] else if c as int <= 0xFFFF then "?" else "??"
  }

  /** QString::toLatin1, which QVariant::toByteArray uses for a string
      when no codec for C strings is set. */
  function Latin1(s: string): (r: string)
    ensures forall i :: 0 <= i < |r| ==> r[i] as int <= 0xFF
    ensures |s| <= |r| <= 2 * |s|
  {
    if |s| == 0 then [] else Narrow(s[0]) + Latin1(s[1..])
  }

  /** Text that is Latin-1 already comes through toLatin1 unchanged. */
  lemma {:induction false} Latin1Keeps(s: string)
    requires forall i :: 0 <= i < |s| ==> s[i] as int <= 0xFF
    ensures Latin1(s) == s
  {
    if |s| > 0 {
      Latin1Keeps(s[1..]);
      assert s == [s[0]] + s[1..];
    }
  }

  /** A cell or frame name as the agent receives it: the parameter's text
      (decoded from UTF-8 up to the first NUL) narrowed to Latin-1. */
  function NameText(bytes: seq<byte>, env: Env): (r: string)
    ensures forall i :: 0 <= i < |r| ==> r[i] as int <= 0xFF
    ensures r == [] <==> Text(bytes, env) == []
  {
    Latin1(Text(bytes, env))
  }

  /** The cell value a parameter stands for. */
  function ValueOf(p: Param, env: Env): Value {
    match p
    case PString(bytes) => VString(Text(bytes, env))
    case PInt(n) => VInt(n)
    case PChar(c) => VChar(c)
    case PBool(f) => VBool(f)
    case PReal(literal) => VReal(literal)
    case PDate(literal, format) => VDate(Parsed(literal, format))
  }

  /** The commands named `...Name`: their last parameter names the cell. */
  predicate Named(code: nat) {
    code in {3, 5, 7, 9, 11, 13, 15, 21, 23}
  }

  /** The agent operation a well-typed command performs. */
  function ToOp(c: Command, env: Env): (op: Op)
    requires WellTyped(c)
    ensures op.OpenStream? <==> c.code == 0
    ensures op.CloseStream? <==> c.code == 1
    ensures op.WriteValue? <==> 2 <= c.code <= 13
    ensures op.LoadImage? <==> c.code == 14 || c.code == 15
    ensures op.BeginFrame? <==> c.code == 16 || c.code == 17
    ensures op.FinishFrame? <==> c.code == 18
    ensures op.BeginEmbed? <==> c.code == 19
    ensures op.FinishEmbed? <==> c.code == 20 || c.code == 21
    ensures op.PasteText? <==> c.code == 22 || c.code == 23
    ensures !op.ReadImage?
  {
    var ps := c.params;
    if 2 <= c.code <= 13 then CellOp(c, env)
    else match c.code
      case 0 => OpenStream(Text(ps[0].bytes, env))
      case 1 => CloseStream
      case 14 => LoadImage(Text(ps[0].bytes, env), ps[1].flag, [])
      case 15 => LoadImage(Text(ps[0].bytes, env), ps[1].flag, NameText(ps[2].bytes, env))
      case 16 => BeginFrame(None)
      case 17 => BeginFrame(if NameText(ps[0].bytes, env) == [] then None else Some(NameText(ps[0].bytes, env)))
      case 18 => FinishFrame
      case 19 => BeginEmbed
      case 20 => FinishEmbed([])
      case 21 => FinishEmbed(NameText(ps[0].bytes, env))
      case 22 => PasteText([])
      case _ => PasteText(NameText(ps[0].bytes, env))
  }

  /** The write commands, codes 2 to 13: one typed cell each. */
  function CellOp(c: Command, env: Env): (op: Op)
    requires WellTyped(c) && 2 <= c.code <= 13
    ensures op.WriteValue?
  {
    CellShape(c);
    var ps := c.params;
    match c.code
    case 2 => WriteValue([], VString(Text(ps[0].bytes, env)))
    case 3 => WriteValue(NameText(ps[1].bytes, env), VString(Text(ps[0].bytes, env)))
    case 4 => WriteValue([], VInt(ps[0].number))
    case 5 => WriteValue(NameText(ps[1].bytes, env), VInt(ps[0].number))
    case 6 => WriteValue([], VBool(ps[0].flag))
    case 7 => WriteValue(NameText(ps[1].bytes, env), VBool(ps[0].flag))
    case 8 => WriteValue([], VChar(ps[0].code))
    case 9 => WriteValue(NameText(ps[1].bytes, env), VChar(ps[0].code))
    case 10 => WriteValue([], VReal(ps[0].literal))
    case 11 => WriteValue(NameText(ps[1].bytes, env), VReal(ps[0].literal))
    case 12 => WriteValue([], VDate(Parsed(ps[0].literal, ps[0].format)))
    case _ => WriteValue(NameText(ps[1].bytes, env), VDate(Parsed(ps[0].literal, ps[0].format)))
  }

  /** What well-typedness says about the write commands' parameters: the
      value's kind follows the code, and the odd codes add a string name. */
  lemma CellShape(c: Command)
    requires WellTyped(c) && 2 <= c.code <= 13
    ensures |c.params| == if c.code % 2 == 1 then 2 else 1
    ensures c.code % 2 == 1 ==> c.params[1].PString?
    ensures c.code <= 3 ==> c.params[0].PString?
    ensures 4 <= c.code <= 5 ==> c.params[0].PInt?
    ensures 6 <= c.code <= 7 ==> c.params[0].PBool?
    ensures 8 <= c.code <= 9 ==> c.params[0].PChar?
    ensures 10 <= c.code <= 11 ==> c.params[0].PReal?
    ensures 12 <= c.code ==> c.params[0].PDate?
  {
    assert Matches(KindsOf(c.code)[0], c.params[0]);
    if c.code % 2 == 1 {
      assert Matches(KindsOf(c.code)[1], c.params[1]);
    }
  }

  /** The cell name a command carries: its last parameter for the commands
      named `...Name`, else none. */
  function NameOf(c: Command, env: Env): string
    requires WellTyped(c)
  {
    if Named(c.code) && |c.params| > 0 && c.params[|c.params| - 1].PString? then
      NameText(c.params[|c.params| - 1].bytes, env)
    else []
  }

  /** The value commands write their first parameter as a cell, named by
      the second for the `...ValName` forms. */
  lemma ValueCommands(c: Command, env: Env)
    requires WellTyped(c) && 2 <= c.code <= 13
    ensures |c.params| == if Named(c.code) then 2 else 1
    ensures ToOp(c, env) == WriteValue(NameOf(c, env), ValueOf(c.params[0], env))
  {
  }

  /** loadImg takes the image path and the delete flag from the first two
      parameters, and an optional cell name from the third. */
  lemma ImageCommands(c: Command, env: Env)
    requires WellTyped(c) && 14 <= c.code <= 15
    ensures ToOp(c, env) == LoadImage(Text(c.params[0].bytes, env), c.params[1].flag, NameOf(c, env))
  {
  }

  /** A frame is named only by a name parameter whose text is not empty,
      and then by that text narrowed to Latin-1. */
  lemma FrameCommands(c: Command, env: Env)
    requires WellTyped(c) && 16 <= c.code <= 17
    ensures ToOp(c, env).BeginFrame?
    ensures ToOp(c, env).frame.Some? <==> c.code == 17 && Text(c.params[0].bytes, env) != []
    ensures ToOp(c, env).frame.Some? ==> ToOp(c, env).frame.value == NameText(c.params[0].bytes, env)
  {
  }

  /** A name that starts with a NUL is no name: the frame it opens is unnamed,
      and a cell it names is written by position. */
  lemma NulNameIsNoName(c: Command, env: Env)
    requires WellTyped(c) && |c.params| > 0 && c.params[|c.params| - 1].PString?
    requires var b := c.params[|c.params| - 1].bytes; 1 <= |b| && b[0] == 0
    ensures c.code == 17 ==> ToOp(c, env) == BeginFrame(None)
    ensures NameOf(c, env) == []
  {
  }

  /** A string value, path or name ends at its first NUL: the bytes after
      it never reach the agent. */
  lemma NulEndsString(b: seq<byte>, junk: seq<byte>, env: Env)
    ensures Text(b + [0] + junk, env) == Text(b, env)
    ensures NameText(b + [0] + junk, env) == NameText(b, env)
    ensures ValueOf(PString(b + [0] + junk), env) == ValueOf(PString(b), env)
  {
    CStringCut(b, junk);
  }

  /** Names keep their Latin-1 characters: a two-byte UTF-8 sequence for a
      character below U+0100 reaches the agent as that one character. */
  lemma Latin1NameKept(bytes: seq<byte>, env: Env, s: string)
    requires 0 !in bytes && bytes != [] && env.utf8(bytes) == s
    requires forall i :: 0 <= i < |s| ==> s[i] as int <= 0xFF
    ensures NameText(bytes, env) == s
  {
    assert bytes + [] == bytes;
    CStringOf(bytes, []);
    Latin1Keeps(s);
  }

  /** A character beyond Latin-1 reaches the agent as a question mark. */
  lemma WideNameNarrowed(bytes: seq<byte>, env: Env, c: char)
    requires 0 !in bytes && bytes != [] && env.utf8(bytes) == [c]
    requires 0xFF < c as int <= 0xFFFF
    ensures NameText(bytes, env) == "?"
  {
    assert bytes + [] == bytes;
    CStringOf(bytes, []);
  }

  /** endEmbed and pasteString take their cell name from the parameter of
      their `...Name` forms. */
  lemma NamedTailCommands(c: Command, env: Env)
    requires WellTyped(c) && 20 <= c.code <= 23
    ensures ToOp(c, env) == if c.code <= 21 then FinishEmbed(NameOf(c, env)) else PasteText(NameOf(c, env))
  {
  }

  /** The operations a run of commands performs, one for each, in order. */
  function Ops(cs: seq<Command>, env: Env): (ops: seq<Op>)
    requires AllTyped(cs)
  {
    seq(|cs|, k requires 0 <= k < |cs| => ToOp(cs[k], env))
  }

  /** Executing two runs of commands one after the other performs the
      operations of both, in order. */
  lemma OpsAppend(xs: seq<Command>, ys: seq<Command>, env: Env)
    requires AllTyped(xs) && AllTyped(ys)
    ensures AllTyped(xs + ys)
    ensures Ops(xs + ys, env) == Ops(xs, env) + Ops(ys, env)
  {
    AllTypedAppend(xs, ys);
    var l, r := Ops(xs + ys, env), Ops(xs, env) + Ops(ys, env);
    forall k | 0 <= k < |l| ensures l[k] == r[k] {
      if k < |xs| { assert (xs + ys)[k] == xs[k]; } else { assert (xs + ys)[k] == ys[k - |xs|]; }
    }
  }

  /** A connection: the decoder's state, whether the source was closed by a
      decode error (and which), and the agent the commands drive. */
  datatype Session = Session(decoder: State, closed: bool, error: Option<DecodeError>, agent: Agent)

  predicate Ready(s: Session) {
    Inv(s.decoder) && Valid(s.agent) && (s.closed <==> s.error.Some?)
  }

  function Start(a: Agent): Session {
    Session(Idle, false, None, a)
  }

  /** Bytes arriving on the connection. A closed source reads nothing; an
      open one decodes the bytes and the agent executes what fired, and a
      decode error is then reported on the agent's log and closes the source. */
  function Receive(s: Session, bytes: seq<byte>, parsers: Parsers, env: Env, host: Host): (r: Session)
    requires Ready(s)
    ensures Ready(r)
    ensures s.closed ==> r == s
    ensures s.agent.log <= r.agent.log
    ensures !s.closed && r.closed ==> 1 <= |r.agent.log| && r.agent.log[|r.agent.log| - 1] == Error(Decoding(r.error.value))
  {
    if s.closed then s
    else
      var o := Feed(s.decoder, bytes, parsers);
      FeedTyped(s.decoder, bytes, parsers);
      var ran := Run(s.agent, Ops(o.fired, env), host);
      Session(o.state, o.error.Some?, o.error, if o.error.Some? then Log(ran, Error(Decoding(o.error.value))) else ran)
  }

  /** Receiving in two pieces is receiving their concatenation. */
  lemma ReceiveAppend(s: Session, xs: seq<byte>, ys: seq<byte>, parsers: Parsers, env: Env, host: Host)
    requires Ready(s)
    ensures Receive(Receive(s, xs, parsers, env, host), ys, parsers, env, host) ==
      Receive(s, xs + ys, parsers, env, host)
  {
    if !s.closed {
      var a := Feed(s.decoder, xs, parsers);
      if a.error.Some? {
        FeedAppendStops(s.decoder, xs, ys, parsers);
      } else {
        FeedAppend(s.decoder, xs, ys, parsers);
        var b := Feed(a.state, ys, parsers);
        FeedTyped(s.decoder, xs, parsers);
        FeedTyped(a.state, ys, parsers);
        OpsAppend(a.fired, b.fired, env);
        RunAppend(s.agent, Ops(a.fired, env), Ops(b.fired, env), host);
      }
    }
  }

  /** What the sender encodes is what the agent executes, in order, and the
      connection stays open and idle. */
  lemma SessionRoundTrip(a: Agent, cs: seq<Command>, parsers: Parsers, env: Env, host: Host)
    requires Valid(a) && forall k :: 0 <= k < |cs| ==> Sendable(cs[k], parsers)
    ensures AllTyped(cs)
    ensures Receive(Start(a), EncodeAll(cs), parsers, env, host) ==
      Session(Idle, false, None, Run(a, Ops(cs, env), host))
  {
    EncodeAllRoundTrip(cs, parsers);
  }

  /** A conversation whose operations are well nested from the agent's shape
      never makes the agent report a structural error. */
  lemma CleanSession(a: Agent, cs: seq<Command>, parsers: Parsers, env: Env, host: Host)
    requires Valid(a) && forall k :: 0 <= k < |cs| ==> Sendable(cs[k], parsers)
    requires AllTyped(cs)
    requires WellNested(Ops(cs, env), Shape(a))
    ensures var r := Receive(Start(a), EncodeAll(cs), parsers, env, host);
      !r.closed && NoStructural(r.agent.log[|a.log|..])
  {
    SessionRoundTrip(a, cs, parsers, env, host);
    NestedRunIsClean(a, Ops(cs, env), host);
  }
}
