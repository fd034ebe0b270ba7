/** The rich text of a paragraph: readFrag walks an element with the format
    set in effect, writing one run per non-empty text and an image frame per
    image; consumeFollowers writes the text nodes that trail an element;
    readFrags and readParagraph wrap a paragraph's children into one
    embedded "par" frame. */
module HtmlFrag {
  import opened Base
  import opened StreamAgent
  import opened Nesting
  import opened HtmlText
  import opened HtmlDoc

  /** Turning an image's encoded source name into an absolute path: percent
      decoding and resolution against the document's directory, which the
      model does not interpret. */
  datatype Env = Env(resolve: string -> string)

  /** The operations written so far and the format set left behind. */
  datatype Walk = Walk(ops: seq<Op>, format: Format)

  /** readImg: the image inside its own "rt" frame, under the name "ole". */
  function ReadImg(p: Node, env: Env): (ops: seq<Op>)
    ensures |ops| == 3 && ops[1].ReadImage?
    ensures ops[1].path == env.resolve(p.imageName) && ops[1].name == "ole"
    ensures ops[1].width == p.imageWidth && ops[1].height == p.imageHeight
  {
    [BeginFrame(RichText), ReadImage(env.resolve(p.imageName), p.imageWidth, p.imageHeight, "ole"), FinishFrame]
  }

  /** A node's text as a run in format f, or nothing when simplify leaves
      it empty. */
  function TextRun(f: Format, text: string): seq<Op> {
    var s := Simplified(text);
    if s == [] then [] else RichRun(f, s)
  }

  /** simplify empties only the empty text, so a run is skipped exactly for
      an empty text; otherwise it is a piece. */
  lemma TextRunShape(f: Format, text: string)
    ensures TextRun(f, text) == [] <==> text == []
    ensures text != [] ==> TextRun(f, text) == RichRun(f, Simplified(text)) && Piece(TextRun(f, text))
  {
    SimplifiedEmpty(text);
    if text != [] {
      RunIsPiece(f, Simplified(text));
    }
  }

  /** The bit an element adds to the format set, if any. */
  function WithBit(f: Format, bit: Option<CharFormat>): Format {
    if bit.Some? then f + {bit.value} else f
  }

  function WithoutBit(f: Format, bit: Option<CharFormat>): Format {
    if bit.Some? then f - {bit.value} else f
  }

  /** readFrag. An image or a line break writes its frame and leaves the
      format alone. Any other element switches its format bit on, writes its
      own text, walks its children, each followed by its trailing text
      nodes, and switches the bit off again, whether or not it was on when
      the element was entered. No bit is ever left on that was off. */
  function ReadFrag(doc: seq<Node>, n: nat, f: Format, env: Env): (w: Walk)
    requires WellFormed(doc) && n < |doc|
    ensures w.format <= f
    ensures doc[n].id == Img || doc[n].id == Br ==> w.format == f
    ensures F2I(doc[n].id).Some? ==> F2I(doc[n].id).value !in w.format
    ensures Piece(w.ops)
    decreases |doc| - n, 1
  {
    var p := doc[n];
    if p.id == Img then ReadImgPiece(p, env); Walk(ReadImg(p, env), f)
    else if p.id == Br then RunIsPiece(f, "\n"); Walk(RichRun(f, "\n"), f)
    else
      var bit := F2I(p.id);
      var on := WithBit(f, bit);
      var kids := FragChildren(doc, n, 0, bit, on, env);
      TextRunPiece(on, p.text);
      PieceConcat(TextRun(on, p.text), kids.ops);
      Walk(TextRun(on, p.text) + kids.ops, WithoutBit(kids.format, bit))
  }

  /** The loop of readFrag over the children from child i on, each followed
      by consumeFollowers with the element's own bit. */
  function FragChildren(doc: seq<Node>, n: nat, i: nat, bit: Option<CharFormat>, f: Format, env: Env): (w: Walk)
    requires WellFormed(doc) && n < |doc| && i <= |doc[n].children|
    ensures w.format <= f
    ensures Piece(w.ops)
    decreases |doc| - n, 0, |doc[n].children| - i
  {
    if i == |doc[n].children| then EmptyPiece(); Walk([], f)
    else
      var c := doc[n].children[i];
      var a := ReadFrag(doc, c, f, env);
      var b := Followers(doc, c + 1, doc[c].parent, a.format, bit);
      var r := FragChildren(doc, n, i + 1, bit, b.format, env);
      PieceConcat3(a.ops, b.ops, r.ops);
      Walk(a.ops + b.ops + r.ops, r.format)
  }

  /** Some text node in the run starting at m belongs to a parent other
      than the given one. */
  predicate Strays(doc: seq<Node>, m: nat, parent: int)
    decreases |doc| - m
  {
    m < |doc| && doc[m].id == Unknown && (doc[m].parent != parent || Strays(doc, m + 1, parent))
  }

  /** consumeFollowers: the run of text nodes starting at m, each written in
      the current format; the element's bit is switched off as soon as a
      text node with a different parent shows that the element's scope has
      ended. */
  function Followers(doc: seq<Node>, m: nat, parent: int, f: Format, bit: Option<CharFormat>): (w: Walk)
    ensures w.format == f || (bit.Some? && w.format == f - {bit.value})
    ensures bit.Some? && Strays(doc, m, parent) ==> bit.value !in w.format
    ensures !Strays(doc, m, parent) ==> w.format == f
    ensures Piece(w.ops)
    decreases |doc| - m
  {
    if m < |doc| && doc[m].id == Unknown then
      var g := if bit.Some? && parent != doc[m].parent then f - {bit.value} else f;
      var rest := Followers(doc, m + 1, parent, g, bit);
      TextRunPiece(g, doc[m].text);
      PieceConcat(TextRun(g, doc[m].text), rest.ops);
      Walk(TextRun(g, doc[m].text) + rest.ops, rest.format)
    else EmptyPiece(); Walk([], f)
  }

  /** readFrags: the children of a paragraph from an empty format set; the
      trailing text nodes never clear a bit here. */
  function ReadFrags(doc: seq<Node>, p: nat, env: Env): (ops: seq<Op>)
    requires WellFormed(doc) && p < |doc|
    ensures Piece(ops)
  {
    FragChildren(doc, p, 0, None, {}, env).ops
  }

  const Par: Option<string> := Some("par")

  /** The name of the cell holding an Object's text. */
  const ObjectText: string := "Object Text"

  /** readParagraph: an embedded stream holding one "par" frame with the
      paragraph's own text as an unformatted run and then its fragments; the
      stream becomes the "Object Text" cell. */
  function ReadParagraph(doc: seq<Node>, p: nat, env: Env): (ops: seq<Op>)
    requires WellFormed(doc) && p < |doc|
    ensures Piece(ops)
  {
    var body := TextRun({}, doc[p].text) + ReadFrags(doc, p, env);
    var par := [BeginFrame(Par)] + body + [FinishFrame];
    TextRunPiece({}, doc[p].text);
    PieceConcat(TextRun({}, doc[p].text), ReadFrags(doc, p, env));
    WrappedPiece(BeginFrame(Par), body, FinishFrame);
    WrappedPiece(BeginEmbed, par, FinishEmbed(ObjectText));
    [BeginEmbed] + par + [FinishEmbed(ObjectText)]
  }

  /** A formatting element without children writes its text in the format
      with its bit on, and leaves the format with its bit off, also when the
      bit was on already. */
  lemma FormattedLeaf(doc: seq<Node>, n: nat, f: Format, env: Env, c: CharFormat)
    requires WellFormed(doc) && n < |doc| && doc[n].children == [] && doc[n].text != []
    requires F2I(doc[n].id) == Some(c)
    ensures ReadFrag(doc, n, f, env) == Walk(RichRun(f + {c}, Simplified(doc[n].text)), f - {c})
  {
    TextRunShape(f + {c}, doc[n].text);
    NoChildren(doc, n, Some(c), f + {c}, env);
    assert TextRun(f + {c}, doc[n].text) + [] == TextRun(f + {c}, doc[n].text);
  }

  /** An element without a format bit and without children, in an empty
      format, writes its text as a plain run. */
  lemma PlainLeaf(doc: seq<Node>, n: nat, env: Env)
    requires WellFormed(doc) && n < |doc| && doc[n].children == [] && doc[n].text != []
    requires doc[n].id != Img && doc[n].id != Br && F2I(doc[n].id).None?
    ensures ReadFrag(doc, n, {}, env) == Walk(RichRun({}, Simplified(doc[n].text)), {})
  {
    TextRunShape({}, doc[n].text);
    NoChildren(doc, n, None, {}, env);
    assert TextRun({}, doc[n].text) + [] == TextRun({}, doc[n].text);
  }

  /** An element without children writes nothing for them. */
  lemma NoChildren(doc: seq<Node>, n: nat, bit: Option<CharFormat>, f: Format, env: Env)
    requires WellFormed(doc) && n < |doc| && doc[n].children == []
    ensures FragChildren(doc, n, 0, bit, f, env) == Walk([], f)
  {
  }

  /** An image frame is a piece. */
  lemma ReadImgPiece(p: Node, env: Env)
    ensures Piece(ReadImg(p, env))
  {
    var cells := [ReadImage(env.resolve(p.imageName), p.imageWidth, p.imageHeight, "ole")];
    assert ReadImg(p, env) == [BeginFrame(RichText)] + cells + [FinishFrame];
    assert AbsNumbers(cells) == [] by {
      assert cells[1..] == [];
    }
    FramedPiece(cells);
  }

  lemma TextRunPiece(f: Format, text: string)
    ensures Piece(TextRun(f, text))
  {
    TextRunShape(f, text);
    if text == [] {
      EmptyPiece();
    }
  }

  lemma PieceConcat3(a: seq<Op>, b: seq<Op>, c: seq<Op>)
    requires Piece(a) && Piece(b) && Piece(c)
    ensures Piece(a + b + c)
  {
    PieceConcat(a, b);
    PieceConcat(a + b, c);
  }
}
