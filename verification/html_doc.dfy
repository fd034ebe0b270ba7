/** The importer's view of a parsed HTML document and the vocabulary its
    output is made of: the element kinds the importer distinguishes, the
    node array the HTML parser produces, the seven character formats, and
    the rich-text runs and cells it writes through the stream agent. */
module HtmlDoc {
  import opened Base
  import opened StreamAgent
  import opened Nesting

  /** The parser's element ids the importer tells apart; `Other` stands for
      every remaining one (hr, caption, ...). `Unknown` is a text node that
      follows an element and belongs to that element's parent. The sub and
      sup elements are `Subscript` and `Superscript`. */
  datatype Tag =
    | Unknown | Font | Img | Br
    | Em | I | Cite | Var | Dfn | Big | Small | Nobr
    | Strong | B | U | S | Code | Tt | Kbd | Samp | Subscript | Superscript
    | Html | Body | Div | Span | P | Address | A
    | Ul | Ol | Table | Dl | Pre
    | H1 | H2 | H3 | H4 | H5 | H6
    | Dt | Dd | Li | Tr | Td | Th | Thead | Tbody | Tfoot | Title
    | Other

  /** One parser node: its element id, the tag name as written, its own
      text, the attribute list (name, value, name, value, ...), the index of
      its parent, the indices of its children, and for an image the encoded
      source name and the size, already truncated to whole pixels. */
  datatype Node = Node(
    id: Tag, tag: string, text: string, attributes: seq<string>,
    parent: int, children: seq<nat>,
    imageName: string, imageWidth: int, imageHeight: int)

  /** The parser emits nodes in document order: every child comes after its
      parent and inside the array. */
  predicate WellFormed(doc: seq<Node>) {
    forall i, k :: 0 <= i < |doc| && 0 <= k < |doc[i].children| ==> i < doc[i].children[k] < |doc|
  }

  /** The bit indices of the format set, in the order writeFormat emits them. */
  datatype CharFormat = Italic | Bold | Underline | Strikeout | Super | Sub | Fixed

  type Format = set<CharFormat>

  /** f2i: the format an element switches on, if any. */
  function F2I(t: Tag): Option<CharFormat> {
    match t
    case Em => Some(Italic)
    case I => Some(Italic)
    case Cite => Some(Italic)
    case Var => Some(Italic)
    case Dfn => Some(Italic)
    case Strong => Some(Bold)
    case B => Some(Bold)
    case U => Some(Underline)
    case S => Some(Strikeout)
    case Code => Some(Fixed)
    case Tt => Some(Fixed)
    case Kbd => Some(Fixed)
    case Samp => Some(Fixed)
    case Subscript => Some(Sub)
    case Superscript => Some(Super)
    case _ => None
  }

  /** The elements behind each format. */
  lemma FormatTags(t: Tag)
    ensures F2I(t) == Some(Italic) <==> t in {Em, I, Cite, Var, Dfn}
    ensures F2I(t) == Some(Bold) <==> t in {Strong, B}
    ensures F2I(t) == Some(Underline) <==> t == U
    ensures F2I(t) == Some(Strikeout) <==> t == S
    ensures F2I(t) == Some(Fixed) <==> t in {Code, Tt, Kbd, Samp}
    ensures F2I(t) == Some(Sub) <==> t == Subscript
    ensures F2I(t) == Some(Super) <==> t == Superscript
  {
  }

  /** The formatting elements are exactly fifteen; big, small, nobr and every
      structural element switch nothing on. */
  lemma NoFormatTags(t: Tag)
    ensures F2I(t).None? <==> t !in {Em, I, Cite, Var, Dfn, Strong, B, U, S, Code, Tt, Kbd, Samp, Subscript, Superscript}
  {
  }

  /** h2i: the level of a heading element, 0 for any other element. */
  function H2I(t: Tag): (l: nat)
    ensures l <= 6
    ensures l == 0 <==> t !in {H1, H2, H3, H4, H5, H6}
  {
    match t
    case H1 => 1
    case H2 => 2
    case H3 => 3
    case H4 => 4
    case H5 => 5
    case H6 => 6
    case _ => 0
  }

  /** The heading element of a level. */
  function HeadingTag(l: nat): Tag
    requires 1 <= l <= 6
  {
    [H1, H2, H3, H4, H5, H6][l - 1]
  }

  /** h2i and HeadingTag are inverse to each other on the six levels. */
  lemma HeadingLevels(l: nat, t: Tag)
    ensures 1 <= l <= 6 ==> H2I(HeadingTag(l)) == l
    ensures H2I(t) != 0 ==> HeadingTag(H2I(t)) == t
  {
  }

  /** The position of a format in writeFormat's fixed order. */
  function Rank(c: CharFormat): (r: nat)
    ensures r < 7
  {
    match c
    case Italic => 0
    case Bold => 1
    case Underline => 2
    case Strikeout => 3
    case Super => 4
    case Sub => 5
    case Fixed => 6
  }

  /** The format at a position of the order; Rank's inverse. */
  function FormatAt(i: nat): (c: CharFormat)
    requires i < 7
    ensures Rank(c) == i
  {
    if i == 0 then Italic else if i == 1 then Bold else if i == 2 then Underline
    else if i == 3 then Strikeout else if i == 4 then Super else if i == 5 then Sub else Fixed
  }

  /** The letter writeFormat writes for a format: i, b, u, k, p, s, f. */
  function Letter(c: CharFormat): byte {
    match c
    case Italic => 105
    case Bold => 98
    case Underline => 117
    case Strikeout => 107
    case Super => 112
    case Sub => 115
    case Fixed => 102
  }

  /** The positional char cell for one format. */
  function Mark(c: CharFormat): Op {
    WriteValue([], VChar(Letter(c)))
  }

  /** Which format a cell marks, if it is such a cell. */
  function Unmark(op: Op): (r: Option<CharFormat>)
    ensures r.Some? ==> op == Mark(r.value)
  {
    if op.WriteValue? && op.name == [] && op.value.VChar? then
      var b := op.value.code;
      if b == 105 then Some(Italic) else if b == 98 then Some(Bold)
      else if b == 117 then Some(Underline) else if b == 107 then Some(Strikeout)
      else if b == 112 then Some(Super) else if b == 115 then Some(Sub)
      else if b == 102 then Some(Fixed) else None
    else None
  }

  lemma UnmarkMark(c: CharFormat)
    ensures Unmark(Mark(c)) == Some(c)
  {
  }

  /** The marks writeFormat writes from position i of the order on. */
  function FormatFrom(f: Format, i: nat): seq<Op>
    requires i <= 7
    decreases 7 - i
  {
    if i == 7 then []
    else
      var c := FormatAt(i);
      var rest := FormatFrom(f, i + 1);
      if c in f then [Mark(c)] + rest else rest
  }

  /** Every cell marks a format of the set whose position in the order is
      at least the given one. */
  predicate MarksOf(ops: seq<Op>, f: Format, from: nat) {
    forall k :: 0 <= k < |ops| ==> Unmark(ops[k]).Some? && from <= Rank(Unmark(ops[k]).value) && Unmark(ops[k]).value in f
  }

  /** The cells written from position i on mark formats of the set at that
      position or later. */
  lemma {:induction false} FormatFromMarks(f: Format, i: nat)
    requires i <= 7
    ensures MarksOf(FormatFrom(f, i), f, i)
    decreases 7 - i
  {
    if i < 7 {
      FormatFromMarks(f, i + 1);
      var c := FormatAt(i);
      UnmarkMark(c);
      var rest := FormatFrom(f, i + 1);
      if c in f {
        var ops := [Mark(c)] + rest;
        forall k | 0 <= k < |ops|
          ensures Unmark(ops[k]).Some? && i <= Rank(Unmark(ops[k]).value) && Unmark(ops[k]).value in f
        {
          if k > 0 { assert ops[k] == rest[k - 1]; }
        }
        assert FormatFrom(f, i) == ops;
      }
    }
  }

  /** Marks whose formats come in strictly increasing rank. */
  predicate Ordered(ops: seq<Op>) {
    forall j, k :: 0 <= j < k < |ops| && Unmark(ops[j]).Some? && Unmark(ops[k]).Some? ==>
      Rank(Unmark(ops[j]).value) < Rank(Unmark(ops[k]).value)
  }

  lemma OrderedCons(c: CharFormat, rest: seq<Op>, f: Format)
    requires Ordered(rest) && MarksOf(rest, f, Rank(c) + 1)
    ensures Ordered([Mark(c)] + rest)
  {
    UnmarkMark(c);
    var ops := [Mark(c)] + rest;
    forall j, k | 0 <= j < k < |ops| && Unmark(ops[j]).Some? && Unmark(ops[k]).Some?
      ensures Rank(Unmark(ops[j]).value) < Rank(Unmark(ops[k]).value)
    {
      assert ops[k] == rest[k - 1];
      if j > 0 {
        assert ops[j] == rest[j - 1];
      }
    }
  }

  lemma {:induction false} FormatFromOrdered(f: Format, i: nat)
    requires i <= 7
    ensures Ordered(FormatFrom(f, i))
    decreases 7 - i
  {
    if i < 7 {
      FormatFromOrdered(f, i + 1);
      FormatFromMarks(f, i + 1);
      var c := FormatAt(i);
      if c in f {
        OrderedCons(c, FormatFrom(f, i + 1), f);
      }
    }
  }

  lemma {:induction false} FormatFromComplete(f: Format, i: nat)
    requires i <= 7
    ensures forall c :: c in f && i <= Rank(c) ==> Mark(c) in FormatFrom(f, i)
    decreases 7 - i
  {
    if i < 7 {
      FormatFromComplete(f, i + 1);
      var rest := FormatFrom(f, i + 1);
      var here := FormatAt(i);
      forall c | c in f && i <= Rank(c) ensures Mark(c) in FormatFrom(f, i) {
        if Rank(c) == i {
          assert c == here;
          assert FormatFrom(f, i) == [Mark(c)] + rest;
        } else {
          assert Mark(c) in rest;
        }
      }
    }
  }

  /** writeFormat: one positional char cell per format in the set, in the
      fixed order i, b, u, k, p, s, f. */
  function WriteFormat(f: Format): seq<Op> {
    FormatFrom(f, 0)
  }

  /** Exactly the formats of the set are written, each as its mark, and in
      the fixed order. */
  lemma WriteFormatOrder(f: Format)
    ensures MarksOf(WriteFormat(f), f, 0)
    ensures forall c :: c in f ==> Mark(c) in WriteFormat(f)
    ensures Ordered(WriteFormat(f))
  {
    FormatFromMarks(f, 0);
    FormatFromOrdered(f, 0);
    FormatFromComplete(f, 0);
  }

  /** The formats a sequence of cells marks. */
  function ReadFormat(ops: seq<Op>): Format {
    set k | 0 <= k < |ops| && Unmark(ops[k]).Some? :: Unmark(ops[k]).value
  }

  /** Reading the marks back gives the format set that was written. */
  lemma FormatRoundTrip(f: Format)
    ensures ReadFormat(WriteFormat(f)) == f
  {
    var ops := WriteFormat(f);
    WriteFormatOrder(f);
    forall c | c in f ensures c in ReadFormat(ops) {
      var k :| 0 <= k < |ops| && ops[k] == Mark(c);
      UnmarkMark(c);
    }
  }

  const RichText: Option<string> := Some("rt")

  /** A rich-text run: an "rt" frame holding the format marks and then the
      text as one positional string cell. */
  function RichRun(f: Format, text: string): seq<Op> {
    [BeginFrame(RichText)] + WriteFormat(f) + [WriteValue([], VString(text)), FinishFrame]
  }

  /** The name of the cell holding an Object's id. */
  const AbsoluteNumber: string := "Absolute Number"

  /** The id an "Absolute Number" cell writes, if the operation is one. */
  function IdOf(op: Op): seq<int> {
    if op.WriteValue? && op.name == AbsoluteNumber && op.value.VInt? then [op.value.number] else []
  }

  /** The ids written into "Absolute Number" cells, in order. */
  function AbsNumbers(ops: seq<Op>): seq<int>
    decreases |ops|
  {
    if |ops| == 0 then [] else IdOf(ops[0]) + AbsNumbers(ops[1..])
  }

  lemma Assoc3(a: seq<int>, b: seq<int>, c: seq<int>)
    ensures a + (b + c) == (a + b) + c
  {
  }

  lemma {:induction false} AbsNumbersAppend(xs: seq<Op>, ys: seq<Op>)
    ensures AbsNumbers(xs + ys) == AbsNumbers(xs) + AbsNumbers(ys)
    decreases |xs|
  {
    if |xs| == 0 {
      assert xs + ys == ys;
    } else {
      assert (xs + ys)[0] == xs[0];
      assert (xs + ys)[1..] == xs[1..] + ys;
      AbsNumbersAppend(xs[1..], ys);
      Assoc3(IdOf(xs[0]), AbsNumbers(xs[1..]), AbsNumbers(ys));
    }
  }

  /** No positional string cell is empty. */
  predicate NoBlankText(ops: seq<Op>) {
    forall k :: 0 <= k < |ops| ==> ops[k].WriteValue? && ops[k].name == [] && ops[k].value.VString? ==> ops[k].value.text != []
  }

  /** A self-contained piece of output: it neither opens nor closes the
      stream, leaves every slot as it found it, writes no id and no empty
      positional text. */
  predicate Piece(ops: seq<Op>) {
    Inner(ops) && Balanced(ops) && AbsNumbers(ops) == [] && NoBlankText(ops)
  }

  lemma PieceConcat(xs: seq<Op>, ys: seq<Op>)
    requires Piece(xs) && Piece(ys)
    ensures Piece(xs + ys)
  {
    InnerConcat(xs, ys);
    BalancedConcat(xs, ys);
    AbsNumbersAppend(xs, ys);
    forall k | 0 <= k < |xs + ys| && (xs + ys)[k].WriteValue? && (xs + ys)[k].name == [] && (xs + ys)[k].value.VString?
      ensures (xs + ys)[k].value.text != []
    {
      if k < |xs| { assert (xs + ys)[k] == xs[k]; } else { assert (xs + ys)[k] == ys[k - |xs|]; }
    }
  }

  /** Cells alone change no slot's frame count. */
  lemma {:induction false} CellsNest(ops: seq<Op>, st: seq<nat>)
    requires 1 <= |st|
    requires forall k :: 0 <= k < |ops| ==> ops[k].WriteValue? || ops[k].ReadImage?
    ensures WellNested(ops, st) && After(ops, st) == st
    decreases |ops|
  {
    if |ops| > 0 {
      CellsNest(ops[1..], st);
    }
  }

  /** A rich-text run with non-empty text is a piece. */
  lemma RunIsPiece(f: Format, text: string)
    requires text != []
    ensures Piece(RichRun(f, text))
  {
    var marks := WriteFormat(f);
    WriteFormatOrder(f);
    var cells := marks + [WriteValue([], VString(text))];
    assert RichRun(f, text) == [BeginFrame(RichText)] + cells + [FinishFrame];
    CellsNoBlank(marks, text);
    FramedPiece(cells);
  }

  lemma CellsNoBlank(marks: seq<Op>, text: string)
    requires text != [] && forall k :: 0 <= k < |marks| ==> Unmark(marks[k]).Some?
    ensures var cells := marks + [WriteValue([], VString(text))];
      && (forall k :: 0 <= k < |cells| ==> cells[k].WriteValue?)
      && NoBlankText(cells) && AbsNumbers(cells) == []
  {
    var cells := marks + [WriteValue([], VString(text))];
    forall k | 0 <= k < |cells| ensures cells[k].WriteValue? {
      if k < |marks| { assert cells[k] == marks[k]; }
    }
    forall k | 0 <= k < |cells| ensures cells[k].value.VString? ==> cells[k].value.text != [] {
      if k < |marks| { assert cells[k] == marks[k]; }
    }
    MarksUnnumbered(marks);
    AbsNumbersAppend(marks, [WriteValue([], VString(text))]);
  }

  /** A single operation is well nested exactly when its step is defined. */
  lemma Single(op: Op, st: seq<nat>)
    requires 1 <= |st|
    ensures WellNested([op], st) <==> Next(op, st).Some?
    ensures Next(op, st).Some? ==> After([op], st) == Next(op, st).value
  {
    assert [op][1..] == [];
  }

  /** Cells and images inside one frame make a piece. */
  lemma FramedPiece(cells: seq<Op>)
    requires forall k :: 0 <= k < |cells| ==> cells[k].WriteValue? || cells[k].ReadImage?
    requires NoBlankText(cells) && AbsNumbers(cells) == []
    ensures Piece([BeginFrame(RichText)] + cells + [FinishFrame])
  {
    CellsPiece(cells);
    WrappedPiece(BeginFrame(RichText), cells, FinishFrame);
  }

  lemma CellsPiece(cells: seq<Op>)
    requires forall k :: 0 <= k < |cells| ==> cells[k].WriteValue? || cells[k].ReadImage?
    requires NoBlankText(cells) && AbsNumbers(cells) == []
    ensures Piece(cells)
  {
    CellsNest(cells, [0]);
  }

  /** An opening operation and the one that closes it: a frame, or an
      embedded stream. */
  predicate Brackets(open: Op, close: Op) {
    (open.BeginFrame? && close.FinishFrame?) || (open.BeginEmbed? && close.FinishEmbed?)
  }

  /** A balanced body between matching brackets is balanced. */
  lemma WrappedNests(open: Op, body: seq<Op>, close: Op)
    requires Brackets(open, close) && Inner(body) && Balanced(body)
    ensures Balanced([open] + body + [close])
  {
    var st := Next(open, [0]).value;
    assert WithLast([0], 1) == [1] && WithLast([1], 0) == [0];
    assert [0, 0][..1] == [0];
    assert Next(close, st) == Some([0]);
    Single(open, [0]);
    BalancedAnywhere(body, st);
    Single(close, st);
    NestedConcat([open], body, [0]);
    NestedConcat([open] + body, [close], [0]);
  }

  /** Brackets add no stream boundary, no id and no text. */
  lemma WrappedQuiet(open: Op, body: seq<Op>, close: Op)
    requires Brackets(open, close) && Inner(body) && AbsNumbers(body) == [] && NoBlankText(body)
    ensures var run := [open] + body + [close];
      Inner(run) && AbsNumbers(run) == [] && NoBlankText(run)
  {
    WrappedInner(open, body, close);
    WrappedUnnumbered(open, body, close);
    WrappedText(open, body, close);
  }

  lemma WrappedInner(open: Op, body: seq<Op>, close: Op)
    requires Brackets(open, close) && Inner(body)
    ensures Inner([open] + body + [close])
  {
    InnerConcat([open], body);
    InnerConcat([open] + body, [close]);
  }

  lemma WrappedUnnumbered(open: Op, body: seq<Op>, close: Op)
    requires Brackets(open, close) && AbsNumbers(body) == []
    ensures AbsNumbers([open] + body + [close]) == []
  {
    assert [open][1..] == [] && [close][1..] == [];
    AbsNumbersAppend([open], body);
    AbsNumbersAppend([open] + body, [close]);
  }

  lemma WrappedText(open: Op, body: seq<Op>, close: Op)
    requires Brackets(open, close) && NoBlankText(body)
    ensures NoBlankText([open] + body + [close])
  {
    var run := [open] + body + [close];
    forall k | 0 <= k < |run| && run[k].WriteValue? && run[k].name == [] && run[k].value.VString?
      ensures run[k].value.text != []
    {
      assert run[k] == body[k - 1];
    }
  }

  /** A piece between matching brackets is a piece. */
  lemma WrappedPiece(open: Op, body: seq<Op>, close: Op)
    requires Brackets(open, close) && Piece(body)
    ensures Piece([open] + body + [close])
  {
    WrappedNests(open, body, close);
    WrappedQuiet(open, body, close);
  }

  lemma {:induction false} MarksUnnumbered(ops: seq<Op>)
    requires forall k :: 0 <= k < |ops| ==> Unmark(ops[k]).Some?
    ensures AbsNumbers(ops) == []
    decreases |ops|
  {
    if |ops| > 0 {
      MarksUnnumbered(ops[1..]);
    }
  }

  /** The empty output is a piece. */
  lemma EmptyPiece()
    ensures Piece([])
  {
  }
}
