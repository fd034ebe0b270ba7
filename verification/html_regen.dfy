/** Text the importer reads off a subtree: collectText, which flattens it to
    plain text, and generateHtml, which writes it back as HTML for the
    containers (lists, tables, preformatted text) the importer keeps whole.
    The regenerated HTML is modelled as a token sequence and its rendering. */
module HtmlRegen {
  import opened HtmlText
  import opened HtmlDoc
  import opened QtArg

  /** collectText: "<img>" for an image, the node's own text through
      QString::simplified, then per child its text and the text of the
      unknown nodes that follow it. Formatting is ignored. */
  function CollectText(doc: seq<Node>, n: nat): (r: string)
    requires WellFormed(doc) && n < |doc|
    ensures r == [] <==> Blank(doc, n)
    decreases |doc| - n, 1
  {
    var img := if doc[n].id == Img then "<img>" else [];
    TidyEmpty(doc[n].text);
    EmptyConcat(img, Shown(doc[n].text), CollectChildren(doc, n, 0));
    img + Shown(doc[n].text) + CollectChildren(doc, n, 0)
  }

  function CollectChildren(doc: seq<Node>, n: nat, i: nat): (r: string)
    requires WellFormed(doc) && n < |doc| && i <= |doc[n].children|
    ensures r == [] <==> BlankChildren(doc, n, i)
    decreases |doc| - n, 0, |doc[n].children| - i
  {
    if i == |doc[n].children| then []
    else
      var c := doc[n].children[i];
      FollowerTextEmpty(doc, c + 1);
      BlankChildrenStep(doc, n, i);
      EmptyExactly(CollectText(doc, c), FollowerText(doc, c + 1), CollectChildren(doc, n, i + 1),
        Blank(doc, c), BlankFollowers(doc, c + 1), BlankChildren(doc, n, i + 1));
      CollectText(doc, c) + FollowerText(doc, c + 1) + CollectChildren(doc, n, i + 1)
  }

  /** A node's own text as collectText adds it: through QString::simplified. */
  function Shown(s: string): string {
    Tidy(s)
  }

  /** The simplified text of the run of unknown nodes starting at m. */
  function FollowerText(doc: seq<Node>, m: nat): string
    decreases |doc| - m
  {
    if m < |doc| && doc[m].id == Unknown then Shown(doc[m].text) + FollowerText(doc, m + 1) else []
  }

  /** A subtree with nothing to show: no image, and whitespace only in the
      node's text, in every child's subtree and in every text node that
      follows a child. */
  predicate Blank(doc: seq<Node>, n: nat)
    requires WellFormed(doc) && n < |doc|
    decreases |doc| - n, 1
  {
    doc[n].id != Img && AllSpace(doc[n].text) && BlankChildren(doc, n, 0)
  }

  predicate BlankChildren(doc: seq<Node>, n: nat, i: nat)
    requires WellFormed(doc) && n < |doc| && i <= |doc[n].children|
    decreases |doc| - n, 0, |doc[n].children| - i
  {
    i == |doc[n].children| ||
      (Blank(doc, doc[n].children[i]) && BlankFollowers(doc, doc[n].children[i] + 1) && BlankChildren(doc, n, i + 1))
  }

  predicate BlankFollowers(doc: seq<Node>, m: nat)
    decreases |doc| - m
  {
    m < |doc| && doc[m].id == Unknown ==> AllSpace(doc[m].text) && BlankFollowers(doc, m + 1)
  }

  lemma {:induction false} FollowerTextEmpty(doc: seq<Node>, m: nat)
    ensures FollowerText(doc, m) == [] <==> BlankFollowers(doc, m)
    decreases |doc| - m
  {
    if m < |doc| && doc[m].id == Unknown {
      TidyEmpty(doc[m].text);
      FollowerTextEmpty(doc, m + 1);
    }
  }

  lemma BlankChildrenStep(doc: seq<Node>, n: nat, i: nat)
    requires WellFormed(doc) && n < |doc| && i < |doc[n].children|
    ensures var c := doc[n].children[i];
      BlankChildren(doc, n, i) <==> Blank(doc, c) && BlankFollowers(doc, c + 1) && BlankChildren(doc, n, i + 1)
  {
  }

  /** A concatenation is empty exactly when each part is, so it is empty
      exactly when the conditions for each part's emptiness all hold. */
  lemma EmptyExactly(a: string, b: string, c: string, p: bool, q: bool, r: bool)
    requires (a == [] <==> p) && (b == [] <==> q) && (c == [] <==> r)
    ensures a + b + c == [] <==> p && q && r
  {
    EmptyConcat(a, b, c);
  }

  lemma EmptyConcat(a: string, b: string, c: string)
    ensures a + b + c == [] <==> a == [] && b == [] && c == []
  {
    if a + b + c == [] {
      assert |a + b + c| == |a| + |b| + |c|;
    }
  }

  /** The attributes generateHtml never writes. */
  const Blocked: seq<string> := ["width", "height", "lang", "class", "size", "style", "align", "valign"]

  /** One attribute as written: lower-cased name and the value as it is. */
  datatype Attr = Attr(name: string, value: string)

  /** The attribute pairs from pair i on that pass the block list. An odd
      trailing entry has no pair and is dropped. */
  function Kept(attrs: seq<string>, i: nat): (r: seq<Attr>)
    requires i <= |attrs| / 2
    ensures forall k :: 0 <= k < |r| ==> r[k].name !in Blocked
    decreases |attrs| / 2 - i
  {
    if i == |attrs| / 2 then []
    else
      var name := Lower(attrs[2 * i]);
      (if name in Blocked then [] else [Attr(name, attrs[2 * i + 1])]) + Kept(attrs, i + 1)
  }

  /** Every pair whose lower-cased name is not blocked is kept, and nothing
      else is. */
  lemma {:induction false} KeptExactly(attrs: seq<string>, i: nat, a: Attr)
    requires i <= |attrs| / 2
    ensures a in Kept(attrs, i) <==>
      a.name !in Blocked && exists j :: i <= j < |attrs| / 2 && Lower(attrs[2 * j]) == a.name && attrs[2 * j + 1] == a.value
    decreases |attrs| / 2 - i
  {
    if i < |attrs| / 2 {
      KeptExactly(attrs, i + 1, a);
      var name := Lower(attrs[2 * i]);
      if a.name !in Blocked && Lower(attrs[2 * i]) == a.name && attrs[2 * i + 1] == a.value {
        assert a in Kept(attrs, i);
      }
      if a in Kept(attrs, i) && a !in Kept(attrs, i + 1) {
        assert a == Attr(name, attrs[2 * i + 1]);
      }
    }
  }

  /** The regenerated HTML as tokens: an opening tag with its attributes, a
      closing tag, or text. */
  datatype Token = Open(tag: string, attrs: seq<Attr>) | Close(tag: string) | Chars(text: string)

  /** Unknown and font nodes are written without tags. */
  predicate Tagged(t: Tag) {
    t != Unknown && t != Font
  }

  function Tokens(doc: seq<Node>, n: nat): (r: seq<Token>)
    requires WellFormed(doc) && n < |doc|
    ensures Matched(r, [])
    decreases |doc| - n, 1
  {
    var p := doc[n];
    var inner := [Chars(p.text)] + TokenChildren(doc, n, 0);
    CharsFirst(p.text, TokenChildren(doc, n, 0));
    if Tagged(p.id) then
      Enclosed(Open(p.tag, Kept(p.attributes, 0)), inner);
      [Open(p.tag, Kept(p.attributes, 0))] + inner + [Close(p.tag)]
    else inner
  }

  function TokenChildren(doc: seq<Node>, n: nat, i: nat): (r: seq<Token>)
    requires WellFormed(doc) && n < |doc| && i <= |doc[n].children|
    ensures Matched(r, [])
    decreases |doc| - n, 0, |doc[n].children| - i
  {
    if i == |doc[n].children| then []
    else
      var c := doc[n].children[i];
      CharsMatched(FollowerTokens(doc, c + 1));
      MatchedConcat3(Tokens(doc, c), FollowerTokens(doc, c + 1), TokenChildren(doc, n, i + 1));
      Tokens(doc, c) + FollowerTokens(doc, c + 1) + TokenChildren(doc, n, i + 1)
  }

  function FollowerTokens(doc: seq<Node>, m: nat): (r: seq<Token>)
    ensures forall k :: 0 <= k < |r| ==> r[k].Chars?
    decreases |doc| - m
  {
    if m < |doc| && doc[m].id == Unknown then [Chars(doc[m].text)] + FollowerTokens(doc, m + 1) else []
  }

  /** The formats generateHtml fills, as scanned by arg: `<%1` and `</%1>`
      for the tags, ` %1="%2"` for an attribute (FormatText). */
  const OpenPieces: seq<Piece> := [Plain('<'), Marker(1, "%1")]
  const ClosePieces: seq<Piece> := [Plain('<'), Plain('/'), Marker(1, "%1"), Plain('>')]
  const ValuePieces: seq<Piece> := [Plain('='), Plain('"'), Marker(2, "%2"), Plain('"')]
  const AttrPieces: seq<Piece> := [Plain(' '), Marker(1, "%1")] + ValuePieces

  const OpenFormat: string := Joined(OpenPieces)
  const CloseFormat: string := Joined(ClosePieces)
  const AttrFormat: string := Joined(AttrPieces)
  /** What is left of the attribute format after the name. */
  const ValueFormat: string := Joined(ValuePieces)

  lemma FormatText()
    ensures OpenFormat == "<%1" && CloseFormat == "</%1>"
    ensures AttrFormat == " %1=\"%2\"" && ValueFormat == "=\"%2\""
  {
    ValueFormatText();
    AttrFormatText();
  }

  lemma ValueFormatText()
    ensures ValueFormat == "=\"%2\""
  {
    var q, two := Plain('"'), Marker(2, "%2");
    JoinedCons(Plain('='), [q, two, q]);
    JoinedCons(q, [two, q]);
    JoinedCons(two, [q]);
    JoinedCons(q, []);
    assert [q] + [] == [q] && [two] + [q] == [two, q] && [q] + [two, q] == [q, two, q];
    assert [Plain('=')] + [q, two, q] == ValuePieces;
  }

  lemma AttrFormatText()
    ensures AttrFormat == " %1" + ValueFormat
  {
    JoinedCons(Plain(' '), [Marker(1, "%1")] + ValuePieces);
    JoinedCons(Marker(1, "%1"), ValuePieces);
    assert [Plain(' ')] + ([Marker(1, "%1")] + ValuePieces) == AttrPieces;
  }

  lemma OpenScan()
    ensures Pieces(OpenFormat) == OpenPieces
  {
    assert Canonical(OpenPieces);
    Rescan(OpenPieces);
  }

  lemma CloseScan()
    ensures Pieces(CloseFormat) == ClosePieces
  {
    assert Canonical(ClosePieces);
    Rescan(ClosePieces);
  }

  lemma AttrScan()
    ensures Pieces(AttrFormat) == AttrPieces
  {
    assert Canonical(AttrPieces);
    Rescan(AttrPieces);
  }

  /** The value part scans to its pieces, holds only the marker %2, and
      starts with '=', so it cannot extend a marker at the end of a name. */
  lemma ValueParts()
    ensures Pieces(ValueFormat) == ValuePieces
    ensures Numbers(ValuePieces) == {2} && Ends(ValueFormat)
  {
    assert Canonical(ValuePieces);
    Rescan(ValuePieces);
    var q, two := Plain('"'), Marker(2, "%2");
    var tail := [q, two, q];
    assert [Plain('=')] + tail == ValuePieces;
    NumbersCons(Plain('='), tail);
    assert Numbers(tail) == {2} by {
      NumbersCons(q, [two, q]);
      NumbersCons(two, [q]);
      NumbersCons(q, []);
      assert [q] + [] == [q] && [two] + [q] == [two, q] && [q] + [two, q] == tail;
    }
    JoinedCons(Plain('='), tail);
  }

  /** `QString("<%1").arg(tag)` and `QString("</%1>").arg(tag)` write the
      tag as it is, since an argument is never scanned. */
  lemma TagText(tag: string)
    ensures Arg(OpenFormat, tag) == "<" + tag
    ensures Arg(CloseFormat, tag) == "</" + tag + ">"
  {
    OpenTagText(tag);
    CloseTagText(tag);
  }

  lemma OpenTagText(tag: string)
    ensures Arg(OpenFormat, tag) == "<" + tag
  {
    OpenScan();
    var one := Marker(1, "%1");
    NumbersCons(Plain('<'), [one]);
    NumbersCons(one, []);
    assert [one] + [] == [one] && [Plain('<')] + [one] == OpenPieces;
    ArgLowest(OpenFormat, tag, 1);
    FillCons(Plain('<'), [one], 1, tag);
    FillCons(one, [], 1, tag);
  }

  lemma CloseTagText(tag: string)
    ensures Arg(CloseFormat, tag) == "</" + tag + ">"
  {
    CloseScan();
    CloseNumbers();
    ArgLowest(CloseFormat, tag, 1);
    CloseFill(tag);
  }

  lemma CloseNumbers()
    ensures Numbers(ClosePieces) == {1}
  {
    var one, gt := Marker(1, "%1"), Plain('>');
    assert [Plain('<')] + ([Plain('/')] + ([one] + ([gt] + []))) == ClosePieces;
    NumbersCons(Plain('<'), [Plain('/')] + ([one] + ([gt] + [])));
    NumbersCons(Plain('/'), [one] + ([gt] + []));
    NumbersCons(one, [gt] + []);
    NumbersCons(gt, []);
  }

  lemma CloseFill(tag: string)
    ensures Fill(ClosePieces, 1, tag) == "</" + tag + ">"
  {
    var one, gt := Marker(1, "%1"), Plain('>');
    assert [Plain('<')] + ([Plain('/')] + ([one] + ([gt] + []))) == ClosePieces;
    FillCons(Plain('<'), [Plain('/')] + ([one] + ([gt] + [])), 1, tag);
    FillCons(Plain('/'), [one] + ([gt] + []), 1, tag);
    FillCons(one, [gt] + [], 1, tag);
    FillCons(gt, [], 1, tag);
  }

  /** The attribute text as generateHtml writes it: `.arg(name)` fills %1
      with the name, then `.arg(value)` scans that result, name included,
      and fills its lowest marker with the value. */
  function ChainedAttrText(a: Attr): string {
    Arg(Arg(AttrFormat, a.name), a.value)
  }

  /** The first call always leaves ` name="%2"`. */
  lemma NameFilled(name: string)
    ensures Arg(AttrFormat, name) == [' '] + (name + ValueFormat)
  {
    AttrScan();
    ValueParts();
    var one, vp := Marker(1, "%1"), ValuePieces;
    assert AttrPieces == [Plain(' ')] + ([one] + vp);
    NumbersCons(Plain(' '), [one] + vp);
    NumbersCons(one, vp);
    ArgLowest(AttrFormat, name, 1);
    FillCons(Plain(' '), [one] + vp, 1, name);
    FillCons(one, vp, 1, name);
    FillUntouched(vp, 1, name);
  }

  /** The second call scans the name too: its markers join the value's %2. */
  lemma ValueScan(name: string)
    ensures Pieces([' '] + (name + ValueFormat)) == [Plain(' ')] + (Pieces(name) + ValuePieces)
    ensures Numbers(Pieces([' '] + (name + ValueFormat))) == Numbers(Pieces(name)) + {2}
  {
    ValueParts();
    ScanAfterSpace(name, ValueFormat);
    SpaceNumbers(Pieces(name), ValuePieces);
  }

  lemma ScanAfterSpace(name: string, y: string)
    requires Ends(y)
    ensures Pieces([' '] + (name + y)) == [Plain(' ')] + (Pieces(name) + Pieces(y))
  {
    PiecesAppend(name, y);
    PiecesPlain(' ', name + y);
  }

  lemma SpaceNumbers(ps: seq<Piece>, qs: seq<Piece>)
    ensures Numbers([Plain(' ')] + (ps + qs)) == Numbers(ps) + Numbers(qs)
  {
    NumbersCons(Plain(' '), ps + qs);
    NumbersAppend(ps, qs);
  }

  /** Filling the value's marker. */
  lemma ValueFilled(v: string)
    ensures Fill(ValuePieces, 2, v) == "=\"" + v + "\""
  {
    var q, two := Plain('"'), Marker(2, "%2");
    assert [Plain('=')] + ([q] + ([two] + ([q] + []))) == ValuePieces;
    FillCons(Plain('='), [q] + ([two] + ([q] + [])), 2, v);
    FillCons(q, [two] + ([q] + []), 2, v);
    FillCons(two, [q] + [], 2, v);
    FillCons(q, [], 2, v);
  }

  /** The second call from what the first left: the markers numbered `m`,
      the lowest, are filled in the name and in the value part alike. */
  lemma ValueCall(a: Attr, m: nat)
    requires m in Numbers(Pieces(a.name)) + {2}
    requires forall k :: k in Numbers(Pieces(a.name)) + {2} ==> m <= k
    ensures ChainedAttrText(a) == [' '] + (Fill(Pieces(a.name), m, a.value) + Fill(ValuePieces, m, a.value))
  {
    NameFilled(a.name);
    ValueScan(a.name);
    ArgLowest([' '] + (a.name + ValueFormat), a.value, m);
    FillCons(Plain(' '), Pieces(a.name) + ValuePieces, m, a.value);
    FillAppend(Pieces(a.name), ValuePieces, m, a.value);
  }

  /** A name without a marker numbered 0, 1 or 2 is written as intended. */
  lemma ChainedAgrees(a: Attr)
    requires forall m :: m in Numbers(Pieces(a.name)) ==> 2 < m
    ensures ChainedAttrText(a) == AttrText(a)
  {
    ValueCall(a, 2);
    FillUntouched(Pieces(a.name), 2, a.value);
    PiecesJoined(a.name);
    ValueFilled(a.value);
  }

  /** The attribute list as generateHtml writes it. */
  function ChainedAttrsText(attrs: seq<Attr>): string
    decreases |attrs|
  {
    if |attrs| == 0 then [] else ChainedAttrText(attrs[0]) + ChainedAttrsText(attrs[1..])
  }

  /** Names without '%' are written as intended, so for them the model's
      text and the text as written are the same. */
  lemma {:induction false} ChainedAttrsAgree(attrs: seq<Attr>)
    requires forall i :: 0 <= i < |attrs| ==> '%' !in attrs[i].name
    ensures ChainedAttrsText(attrs) == AttrsText(attrs)
    decreases |attrs|
  {
    if |attrs| > 0 {
      NoPercentNoMarker(attrs[0].name);
      ChainedAgrees(attrs[0]);
      ChainedAttrsAgree(attrs[1..]);
    }
  }

  /** A name holding a marker numbered 0 or 1 receives the value there, and
      the value's own marker is written as "%2". */
  lemma ChainedOverwrites(a: Attr)
    requires Lowest(Pieces(a.name)).Some? && Lowest(Pieces(a.name)).value < 2
    ensures ChainedAttrText(a) == [' '] + (Fill(Pieces(a.name), Lowest(Pieces(a.name)).value, a.value) + ValueFormat)
  {
    var m := Lowest(Pieces(a.name)).value;
    ValueCall(a, m);
    ValueParts();
    FillUntouched(ValuePieces, m, a.value);
  }

  /** `<td %1=width>`: the attribute "%1" passes the block list, and the
      text written for it is ` width="%2"`, a blocked name. */
  lemma BlockedNameWritten()
    ensures Kept(["%1", "width"], 0) == [Attr("%1", "width")]
    ensures ChainedAttrText(Attr("%1", "width")) == " width" + ValueFormat
    ensures "width" in Blocked
  {
    PercentOneKept(["%1", "width"]);
    PercentOneScan("%1", "width");
  }

  lemma PercentOneKept(attrs: seq<string>)
    requires attrs == ["%1", "width"]
    ensures Kept(attrs, 0) == [Attr("%1", "width")]
  {
    assert Lower(attrs[0]) == "%1";
    assert "%1" !in Blocked;
    assert Kept(attrs, 1) == [];
  }

  lemma PercentOneScan(name: string, value: string)
    requires name == ['%', '1']
    ensures ChainedAttrText(Attr(name, value)) == [' '] + (value + ValueFormat)
  {
    var one := Marker(1, name);
    PiecesMarker('1', []);
    assert name + [] == name;
    assert Pieces(name) == [one] by { assert Pieces([]) == []; }
    NumbersCons(one, []);
    assert [one] + [] == [one];
    ChainedOverwrites(Attr(name, value));
    FillCons(one, [], 1, value);
  }

  /** The text of one attribute as evidently intended, and as this model
      writes it: %1 and %2 filled in one pass, so the name and the value
      appear as they are, whatever they contain. The value is not escaped. */
  function AttrText(a: Attr): (r: string)
    ensures r == " " + a.name + "=\"" + a.value + "\""
  {
    AttrFill(a.name, a.value);
    FillPair(Pieces(AttrFormat), a.name, a.value)
  }

  lemma AttrFill(name: string, value: string)
    ensures FillPair(Pieces(AttrFormat), name, value) == " " + name + "=\"" + value + "\""
  {
    AttrScan();
    var one, q, two := Marker(1, "%1"), Plain('"'), Marker(2, "%2");
    assert [Plain(' ')] + ([one] + ([Plain('=')] + ([q] + ([two] + ([q] + []))))) == AttrPieces;
    FillPairCons(Plain(' '), [one] + ([Plain('=')] + ([q] + ([two] + ([q] + [])))), name, value);
    FillPairCons(one, [Plain('=')] + ([q] + ([two] + ([q] + []))), name, value);
    FillPairCons(Plain('='), [q] + ([two] + ([q] + [])), name, value);
    FillPairCons(q, [two] + ([q] + []), name, value);
    FillPairCons(two, [q] + [], name, value);
    FillPairCons(q, [], name, value);
  }

  function AttrsText(attrs: seq<Attr>): string
    decreases |attrs|
  {
    if |attrs| == 0 then [] else AttrText(attrs[0]) + AttrsText(attrs[1..])
  }

  /** How a token is written; text goes through coded. */
  function TokenText(t: Token): string {
    match t
    case Open(tag, attrs) => Arg(OpenFormat, tag) + AttrsText(attrs) + ">"
    case Close(tag) => Arg(CloseFormat, tag)
    case Chars(text) => Coded(text)
  }

  function Render(ts: seq<Token>): string
    decreases |ts|
  {
    if |ts| == 0 then [] else TokenText(ts[0]) + Render(ts[1..])
  }

  /** generateHtml. */
  function GenerateHtml(doc: seq<Node>, n: nat): string
    requires WellFormed(doc) && n < |doc|
  {
    Render(Tokens(doc, n))
  }

  /** Opening and closing tags match like parentheses: with the open tags
      kept on a stack, every closing tag closes the innermost open one. */
  predicate Matched(ts: seq<Token>, stack: seq<string>)
    decreases |ts|
  {
    if |ts| == 0 then stack == []
    else match ts[0]
      case Open(tag, _) => Matched(ts[1..], stack + [tag])
      case Close(tag) => |stack| > 0 && stack[|stack| - 1] == tag && Matched(ts[1..], stack[..|stack| - 1])
      case Chars(_) => Matched(ts[1..], stack)
  }

  /** Two sequences that each close what they open can be joined, also
      under further open tags. */
  lemma {:induction false} MatchedConcat(xs: seq<Token>, ys: seq<Token>, stack: seq<string>)
    requires Matched(xs, []) && Matched(ys, stack)
    ensures Matched(xs + ys, stack)
  {
    MatchedUnder(xs, [], stack, ys);
    assert stack + [] == stack;
  }

  lemma {:induction false} MatchedUnder(xs: seq<Token>, s: seq<string>, stack: seq<string>, ys: seq<Token>)
    requires Matched(xs, s) && Matched(ys, stack)
    ensures Matched(xs + ys, stack + s)
    decreases |xs|
  {
    if |xs| == 0 {
      assert xs + ys == ys;
      assert stack + s == stack;
    } else {
      assert (xs + ys)[0] == xs[0];
      assert (xs + ys)[1..] == xs[1..] + ys;
      match xs[0]
      case Open(tag, _) =>
        MatchedUnder(xs[1..], s + [tag], stack, ys);
        assert stack + (s + [tag]) == (stack + s) + [tag];
      case Close(tag) =>
        MatchedUnder(xs[1..], s[..|s| - 1], stack, ys);
        assert (stack + s)[|stack + s| - 1] == s[|s| - 1];
        assert (stack + s)[..|stack + s| - 1] == stack + s[..|s| - 1];
      case Chars(_) =>
        MatchedUnder(xs[1..], s, stack, ys);
    }
  }

  lemma {:induction false} CharsMatched(ts: seq<Token>)
    requires forall k :: 0 <= k < |ts| ==> ts[k].Chars?
    ensures Matched(ts, [])
    decreases |ts|
  {
    if |ts| > 0 {
      CharsMatched(ts[1..]);
    }
  }

  /** A text token in front changes nothing. */
  lemma CharsFirst(text: string, rest: seq<Token>)
    requires Matched(rest, [])
    ensures Matched([Chars(text)] + rest, [])
  {
    assert ([Chars(text)] + rest)[1..] == rest;
  }

  /** A tagged node's content between its opening tag and the matching
      closing tag. */
  lemma Enclosed(open: Token, inner: seq<Token>)
    requires open.Open? && Matched(inner, [])
    ensures Matched([open] + inner + [Close(open.tag)], [])
  {
    var ts := [open] + inner + [Close(open.tag)];
    assert ts[1..] == inner + [Close(open.tag)];
    assert Matched([Close(open.tag)], [open.tag]) by {
      assert [Close(open.tag)][1..] == [];
      assert [open.tag][..0] == [];
    }
    MatchedConcat(inner, [Close(open.tag)], [open.tag]);
    assert [] + [open.tag] == [open.tag];
  }

  lemma MatchedConcat3(a: seq<Token>, b: seq<Token>, c: seq<Token>)
    requires Matched(a, []) && Matched(b, []) && Matched(c, [])
    ensures Matched(a + b + c, [])
  {
    MatchedConcat(a, b, []);
    MatchedConcat(a + b, c, []);
  }

  /** No opening tag carries a blocked attribute. */
  predicate Filtered(ts: seq<Token>) {
    forall k, j :: 0 <= k < |ts| && ts[k].Open? && 0 <= j < |ts[k].attrs| ==> ts[k].attrs[j].name !in Blocked
  }

  lemma FilteredConcat(xs: seq<Token>, ys: seq<Token>)
    requires Filtered(xs) && Filtered(ys)
    ensures Filtered(xs + ys)
  {
    forall k, j | 0 <= k < |xs + ys| && (xs + ys)[k].Open? && 0 <= j < |(xs + ys)[k].attrs|
      ensures (xs + ys)[k].attrs[j].name !in Blocked
    {
      if k < |xs| { assert (xs + ys)[k] == xs[k]; } else { assert (xs + ys)[k] == ys[k - |xs|]; }
    }
  }

  /** generateHtml never writes a blocked attribute, at any depth. */
  lemma {:induction false} TokensFiltered(doc: seq<Node>, n: nat)
    requires WellFormed(doc) && n < |doc|
    ensures Filtered(Tokens(doc, n))
    decreases |doc| - n, 1
  {
    var p := doc[n];
    var rest := TokenChildren(doc, n, 0);
    TokenChildrenFiltered(doc, n, 0);
    FilteredConcat([Chars(p.text)], rest);
    if Tagged(p.id) {
      FilteredConcat([Open(p.tag, Kept(p.attributes, 0))], [Chars(p.text)] + rest);
      FilteredConcat([Open(p.tag, Kept(p.attributes, 0))] + ([Chars(p.text)] + rest), [Close(p.tag)]);
      assert [Open(p.tag, Kept(p.attributes, 0))] + ([Chars(p.text)] + rest) ==
        [Open(p.tag, Kept(p.attributes, 0))] + [Chars(p.text)] + rest;
    }
  }

  lemma {:induction false} TokenChildrenFiltered(doc: seq<Node>, n: nat, i: nat)
    requires WellFormed(doc) && n < |doc| && i <= |doc[n].children|
    ensures Filtered(TokenChildren(doc, n, i))
    decreases |doc| - n, 0, |doc[n].children| - i
  {
    if i < |doc[n].children| {
      var c := doc[n].children[i];
      TokensFiltered(doc, c);
      TokenChildrenFiltered(doc, n, i + 1);
      FilteredConcat(Tokens(doc, c), FollowerTokens(doc, c + 1));
      FilteredConcat(Tokens(doc, c) + FollowerTokens(doc, c + 1), TokenChildren(doc, n, i + 1));
    }
  }

  lemma {:induction false} RenderAppend(xs: seq<Token>, ys: seq<Token>)
    ensures Render(xs + ys) == Render(xs) + Render(ys)
    decreases |xs|
  {
    if |xs| == 0 {
      assert xs + ys == ys;
    } else {
      assert (xs + ys)[0] == xs[0];
      assert (xs + ys)[1..] == xs[1..] + ys;
      RenderAppend(xs[1..], ys);
    }
  }

  /** A tagged node's HTML starts with its opening tag and ends with its
      closing tag; an untagged node's starts with its own escaped text. */
  lemma GenerateHtmlShape(doc: seq<Node>, n: nat)
    requires WellFormed(doc) && n < |doc|
    ensures var p := doc[n]; var h := GenerateHtml(doc, n);
      && (Tagged(p.id) ==> TokenText(Open(p.tag, Kept(p.attributes, 0))) <= h)
      && (Tagged(p.id) ==> |h| >= |p.tag| + 3 && h[|h| - |p.tag| - 3..] == "</" + p.tag + ">")
      && (!Tagged(p.id) ==> Coded(p.text) <= h)
  {
    var p := doc[n];
    var rest := TokenChildren(doc, n, 0);
    var open := Open(p.tag, Kept(p.attributes, 0));
    RenderAppend([Chars(p.text)], rest);
    assert Render([Chars(p.text)]) == Coded(p.text) by {
      assert [Chars(p.text)][1..] == [];
    }
    if Tagged(p.id) {
      var mid := [Chars(p.text)] + rest;
      RenderAppend([open], mid);
      RenderAppend([open] + mid, [Close(p.tag)]);
      assert Render([open]) == TokenText(open) by { assert [open][1..] == []; }
      TagText(p.tag);
      assert Render([Close(p.tag)]) == "</" + p.tag + ">" by { assert [Close(p.tag)][1..] == []; }
      var h := GenerateHtml(doc, n);
      assert h == TokenText(open) + Render(mid) + ("</" + p.tag + ">");
    }
  }
}
