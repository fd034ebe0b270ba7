/** Small vocabulary shared by the protocol decoder, the stream agent and the
    HTML importer: optional values, raw bytes, and the date formats the
    protocol understands. */
module Base {

  /** An optional value; `None` stands for the source's null or "not found". */
  datatype Option<+T> = None | Some(value: T)

  /** The outcome of an operation that can fail with a reported error. */
  datatype Result<+T, +E> = Ok(value: T) | Err(error: E)

  /** One raw byte, as read from the socket. */
  type byte = b: int | 0 <= b < 0x100

  /** The three QDateTime formats the decoder tries, in this order. */
  datatype DateFormat = DateAndTime | DateOnly | TimeOnly

  /** A date cell value: either wire text accepted under a format, or the
      current time of the machine, which the model leaves uninterpreted. */
  datatype DateValue = Parsed(text: seq<byte>, format: DateFormat) | Now

  /** The ASCII bytes the wire format gives meaning to. */
  const Bar: byte := 124   // '|'
  const Space: byte := 32  // ' '
  const Minus: byte := 45  // '-'
  const Plus: byte := 43   // '+'
  const Zero: byte := 48   // '0'

  /** The consecutive integers lo, lo + 1, ..., hi - 1. */
  function Range(lo: int, hi: int): (r: seq<int>)
    requires lo <= hi
    ensures |r| == hi - lo
    ensures forall k :: 0 <= k < |r| ==> r[k] == lo + k
  {
    seq(hi - lo, k => lo + k)
  }

  lemma RangeConcat(a: int, b: int, c: int)
    requires a <= b <= c
    ensures Range(a, b) + Range(b, c) == Range(a, c)
  {
  }
}
