/** Two places where IpcProtocol::parse stores a value read with toUInt, an
    unsigned 32-bit number, in a signed 32-bit int field. Values from 2^31
    on come out negative. The members here model those lines as written;
    the decoder in IpcProtocol keeps the values unsigned, as the checks
    around them evidently intend. */
module IpcFindings {
  import opened Base
  import opened Decimal
  import opened IpcProtocol

  const TwoTo32: int := 0x1_0000_0000

  /** Assigning a quint32 to an int: two's complement, so the values above
      the signed range wrap around to negative ones. */
  function ToInt32(v: nat): (r: int)
    requires v <= MaxUInt32
    ensures MinInt32 <= r <= MaxInt32
    ensures r % TwoTo32 == v
    ensures r < 0 <==> v > MaxInt32
  {
    if v <= MaxInt32 then v else v - TwoTo32
  }

  /** The guard on the command code as written: toUInt succeeded, and the
      code, now an int, is not greater than the last table index. */
  predicate CodeAcceptedAsWritten(buf: seq<byte>) {
    ParseUInt(buf).Some? && !(ToInt32(ParseUInt(buf).value) > MaxCommand)
  }

  /** The guard as written lets through exactly the table indices and the
      codes of 2^31 and above; the latter become negative indices. */
  lemma CodeGuardAsWritten(buf: seq<byte>)
    requires ParseUInt(buf).Some?
    ensures CodeAcceptedAsWritten(buf) <==> ValidCode(ParseUInt(buf).value) || ParseUInt(buf).value > MaxInt32
    ensures CodeAcceptedAsWritten(buf) && !ValidCode(ParseUInt(buf).value) ==> ToInt32(ParseUInt(buf).value) < 0
  {
  }

  /** "4294967295|" passes the guard as written, and the command table is
      then read at index -1. */
  lemma WrappedCodeAccepted()
    ensures CodeAcceptedAsWritten(Digits(MaxUInt32))
    ensures ToInt32(ParseUInt(Digits(MaxUInt32)).value) == -1
  {
    UIntRoundTrip(MaxUInt32);
  }

  /** The reader of a counted string as written, with the remaining count
      an int: the count, the bytes read so far, whether the value has been
      handed to evaluate, and whether the missing-bar error was reported. */
  datatype Counted = Counted(num: int, buf: seq<byte>, evaluated: bool, failed: bool)

  /** One byte: a positive count takes the byte; a zero count expects the
      bar, counts down past zero and evaluates; a negative count does
      nothing at all. */
  function CountedStep(s: Counted, ch: byte): (r: Counted)
    ensures s.num < 0 ==> r == s
    ensures s.num > 0 ==> r.num == s.num - 1 && r.buf == s.buf + [ch] && !r.evaluated
  {
    if s.num > 0 then s.(num := s.num - 1, buf := s.buf + [ch], evaluated := false)
    else if s.num == 0 then s.(num := -1, evaluated := true, failed := s.failed || ch != Bar)
    else s
  }

  /** The bytes of one value, up to evaluate, after which the decoder moves
      on to another state. */
  function CountedRun(s: Counted, bs: seq<byte>): Counted
    decreases |bs|
  {
    if |bs| == 0 || s.evaluated then s else CountedRun(CountedStep(s, bs[0]), bs[1..])
  }

  /** A count inside the signed range reads the counted bytes and the bar,
      as intended. */
  lemma {:induction false} CountedReads(buf: seq<byte>, v: seq<byte>)
    requires |v| <= MaxInt32
    ensures CountedRun(Counted(|v|, buf, false, false), v + [Bar]) == Counted(-1, buf + v, true, false)
    decreases |v|
  {
    if |v| == 0 {
      assert buf + v == buf;
    } else {
      assert (v + [Bar])[1..] == v[1..] + [Bar];
      CountedReads(buf + [v[0]], v[1..]);
      assert buf + [v[0]] + v[1..] == buf + v;
    }
  }

  /** A negative count swallows every byte that follows and never reaches
      evaluate. */
  lemma {:induction false} NegativeCountSwallows(s: Counted, bs: seq<byte>)
    requires s.num < 0 && !s.evaluated
    ensures CountedRun(s, bs) == s
    decreases |bs|
  {
    if |bs| > 0 {
      NegativeCountSwallows(CountedStep(s, bs[0]), bs[1..]);
    }
  }

  /** "2147483648|", which toUInt accepts, leaves the count at -2^31: the
      decoder then consumes the rest of the connection without ever
      completing the parameter or reporting an error. */
  lemma WrappedCountSwallows(bs: seq<byte>)
    ensures ParseUInt(Digits(MaxInt32 + 1)).Some?
    ensures var s := Counted(ToInt32(ParseUInt(Digits(MaxInt32 + 1)).value), [], false, false);
      s.num == MinInt32 && CountedRun(s, bs) == s
  {
    UIntRoundTrip(MaxInt32 + 1);
    NegativeCountSwallows(Counted(MinInt32, [], false, false), bs);
  }
}
