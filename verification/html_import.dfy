/** The import proper: readHtmlNode walks the parsed document and writes a
    module of Objects through the stream agent. Paragraphs and containers
    become closed Object frames; a heading opens an Object frame that stays
    open for the content below it, and the heading trace (a stack of
    heading levels above a sentinel 0) says how many of those are open and
    which to close when the next heading arrives. */
module HtmlImport {
  import opened Base
  import opened StreamAgent
  import opened Nesting
  import opened HtmlText
  import opened HtmlDoc
  import opened HtmlRegen
  import opened HtmlFrag

  /** The walk's context: the heading trace and the next Object id. The id
      is a 32-bit counter in the source; the model lets it grow. */
  datatype Ctx = Ctx(trace: seq<nat>, nextId: int)

  /** What a walk wrote and the context it left. */
  datatype Out = Out(ops: seq<Op>, ctx: Ctx)

  const Obj: Option<string> := Some("obj")
  const Mod: Option<string> := Some("mod")
  const ObjectHeading: string := "Object Heading"
  const SectionNumber: string := "~number"

  /** stdAtts: who created the Object, when and how. */
  function StdAtts(): (ops: seq<Op>)
    ensures |ops| == 3 && forall k :: 0 <= k < 3 ==> ops[k].WriteValue? && ops[k].name != AbsoluteNumber
  {
    [WriteValue("Created By", VString("DoorScope")),
     WriteValue("Created On", VDate(Now)),
     WriteValue("Created Thru", VString("HTML Import"))]
  }

  function IdCell(id: int): Op {
    WriteValue(AbsoluteNumber, VInt(id))
  }

  /** A closed Object: its frame, its id, the standard attributes and the
      given cells. */
  function ObjectFrame(id: int, body: seq<Op>): seq<Op> {
    [BeginFrame(Obj), IdCell(id)] + StdAtts() + body + [FinishFrame]
  }

  /** The heading text, split at findNumber's split point into the section
      number and the heading proper. */
  function HeadingCells(str: string): (ops: seq<Op>)
  {
    var split := NumberSplit(str);
    if split != -1 then [WriteValue(SectionNumber, VString(str[..split])), WriteValue(ObjectHeading, VString(str[split..]))]
    else [WriteValue(ObjectHeading, VString(str))]
  }

  /** The heading cells hold the heading text: a section number and the
      heading proper that concatenate to it, or the whole text as the
      heading. The section number, when there is one, starts with a digit. */
  lemma HeadingCellsJoin(str: string)
    ensures var ops := HeadingCells(str);
      && 1 <= |ops| <= 2
      && ops[|ops| - 1].WriteValue? && ops[|ops| - 1].name == ObjectHeading && ops[|ops| - 1].value.VString?
      && (|ops| == 1 ==> ops[0].value.text == str)
      && (|ops| == 2 ==>
            && ops[0].name == SectionNumber && ops[0].value.VString?
            && ops[0].value.text != [] && IsDigit(ops[0].value.text[0])
            && ops[0].value.text + ops[1].value.text == str)
  {
    var split := NumberSplit(str);
    if split != -1 {
      assert str[..split] + str[split..] == str;
    }
  }

  /** A heading trace: the sentinel 0 at the bottom, then strictly
      increasing heading levels. */
  predicate TraceOk(t: seq<nat>) {
    1 <= |t| && t[0] == 0 && forall i, j :: 0 <= i < j < |t| ==> t[i] < t[j]
  }

  /** The pops a heading of level l makes: every top entry not below l,
      never the bottom one. */
  function PopTo(t: seq<nat>, l: nat): (r: seq<nat>)
    requires 1 <= |t|
    ensures 1 <= |r| <= |t| && r == t[..|r|]
    ensures |r| == 1 || r[|r| - 1] < l
    ensures forall k :: |r| <= k < |t| ==> l <= t[k]
    decreases |t|
  {
    if l <= t[|t| - 1] && |t| > 1 then PopTo(t[..|t| - 1], l) else t
  }

  /** k end-of-frames. */
  function Finishes(k: nat): (ops: seq<Op>)
    ensures |ops| == k && forall i :: 0 <= i < k ==> ops[i] == FinishFrame
  {
    seq(k, i => FinishFrame)
  }

  /** A non-empty heading of level l: close the Objects of the headings it
      ends, open its own Object and leave it open. */
  function Heading(c: Ctx, l: nat, str: string): (r: Out)
    requires 1 <= |c.trace| && 1 <= l
    ensures 1 <= |r.ctx.trace| && r.ctx.nextId == c.nextId + 1
    ensures TraceOk(c.trace) ==> TraceOk(r.ctx.trace)
    ensures AbsNumbers(r.ops) == [c.nextId]
    ensures Nests(r.ops, |c.trace|, |r.ctx.trace|)
  {
    var t := PopTo(c.trace, l);
    PushTrace(c.trace, l);
    HeadingIds(c, l, str);
    HeadingNests(c, l, str);
    Out(Finishes(|c.trace| - |t|) + HeadingObject(c.nextId, str), Ctx(t + [l], c.nextId + 1))
  }

  /** A heading's Object, left open: its frame, the standard attributes,
      its id and the heading cells. */
  function HeadingObject(id: int, str: string): seq<Op> {
    [BeginFrame(Obj)] + StdAtts() + [IdCell(id)] + HeadingCells(str)
  }

  /** How readHtmlNode treats an element: as a paragraph Object, as a
      container Object holding its regenerated HTML, as a heading of a
      level, not at all (list and table parts, which are read with their
      container, and the title, which names the module instead), or by
      walking its children (html, body, div, span and every other). */
  datatype Role = Paragraph | Container | Section(level: nat) | Skipped | Transparent

  function RoleOf(t: Tag): Role {
    match t
    case P | Address | A => Paragraph
    case Ul | Ol | Table | Dl | Pre => Container
    case H1 => Section(1)
    case H2 => Section(2)
    case H3 => Section(3)
    case H4 => Section(4)
    case H5 => Section(5)
    case H6 => Section(6)
    case Dt | Dd | Li | Tr | Td | Th | Thead | Tbody | Tfoot | Title => Skipped
    case _ => Transparent
  }

  /** The elements of each role; a heading's level is h2i's. */
  lemma RoleOfTags(t: Tag)
    ensures RoleOf(t) == Paragraph <==> t in {P, Address, A}
    ensures RoleOf(t) == Container <==> t in {Ul, Ol, Table, Dl, Pre}
    ensures RoleOf(t).Section? <==> H2I(t) > 0
    ensures RoleOf(t).Section? ==> RoleOf(t).level == H2I(t)
    ensures RoleOf(t) == Skipped <==> t in {Dt, Dd, Li, Tr, Td, Th, Thead, Tbody, Tfoot, Title}
  {
  }

  /** collectText finds nothing in the element. */
  predicate NoText(doc: seq<Node>, n: nat)
    requires WellFormed(doc) && n < |doc|
  {
    CollectText(doc, n) == []
  }

  /** A heading's text: collectText, simplified once more. */
  function HeadingText(doc: seq<Node>, n: nat): string
    requires WellFormed(doc) && n < |doc|
  {
    Simplified(CollectText(doc, n))
  }

  /** readHtmlNode. The walk keeps the trace a heading trace, gives every
      Object it writes the next id, and keeps the frames in step with the
      trace: it ends with one more open frame per trace entry it added, one
      fewer per entry it popped, and never closes a frame it does not own. */
  function ReadNode(doc: seq<Node>, n: nat, c: Ctx, env: Env): (r: Out)
    requires WellFormed(doc) && n < |doc| && 1 <= |c.trace|
    ensures 1 <= |r.ctx.trace| && c.nextId <= r.ctx.nextId
    ensures TraceOk(c.trace) ==> TraceOk(r.ctx.trace)
    ensures AbsNumbers(r.ops) == Range(c.nextId, r.ctx.nextId)
    ensures Nests(r.ops, |c.trace|, |r.ctx.trace|)
    decreases |doc| - n, 1
  {
    var role := RoleOf(doc[n].id);
    if role == Transparent then ReadChildren(doc, n, 0, c, env)
    else ReadObject(doc, n, role, c, env)
  }

  /** The cases of readHtmlNode that write at most one Object and do not
      descend, for node n in its role: a paragraph with some text, a
      container, a heading with some text; nothing for a skipped element.
      ReadNode walks a transparent element's children instead. */
  function ReadObject(doc: seq<Node>, n: nat, role: Role, c: Ctx, env: Env): (r: Out)
    requires WellFormed(doc) && n < |doc| && 1 <= |c.trace| && role == RoleOf(doc[n].id)
    ensures 1 <= |r.ctx.trace| && c.nextId <= r.ctx.nextId
    ensures role == Skipped ==> r == Out([], c)
    ensures TraceOk(c.trace) ==> TraceOk(r.ctx.trace)
    ensures AbsNumbers(r.ops) == Range(c.nextId, r.ctx.nextId)
    ensures Nests(r.ops, |c.trace|, |r.ctx.trace|)
  {
    match role
    case Paragraph => ParagraphObject(doc, n, c, env)
    case Container => ContainerObject(doc, n, c)
    case Section(l) => RoleOfTags(doc[n].id); SectionObject(doc, n, c, l)
    case Skipped | Transparent => EmptyNests(|c.trace|); Out([], c)
  }

  /** A heading of level l: an open Object when it has some text. */
  function SectionObject(doc: seq<Node>, n: nat, c: Ctx, l: nat): (r: Out)
    requires WellFormed(doc) && n < |doc| && 1 <= |c.trace| && 1 <= l
    ensures 1 <= |r.ctx.trace| && c.nextId <= r.ctx.nextId
    ensures TraceOk(c.trace) ==> TraceOk(r.ctx.trace)
    ensures AbsNumbers(r.ops) == Range(c.nextId, r.ctx.nextId)
    ensures Nests(r.ops, |c.trace|, |r.ctx.trace|)
  {
    var str := HeadingText(doc, n);
    if str == [] then EmptyNests(|c.trace|); Out([], c) else Heading(c, l, str)
  }

  /** A paragraph: a closed Object holding its text, when it has some. */
  function ParagraphObject(doc: seq<Node>, n: nat, c: Ctx, env: Env): (r: Out)
    requires WellFormed(doc) && n < |doc|
    ensures r.ctx.trace == c.trace && c.nextId <= r.ctx.nextId
    ensures AbsNumbers(r.ops) == Range(c.nextId, r.ctx.nextId)
    ensures Nests(r.ops, |c.trace|, |r.ctx.trace|)
  {
    if NoText(doc, n) then EmptyNests(|c.trace|); Out([], c)
    else
      var body := ReadParagraph(doc, n, env);
      ObjectFrameIds(c.nextId, body);
      ObjectFrameNests(c.nextId, body, |c.trace|);
      Out(ObjectFrame(c.nextId, body), c.(nextId := c.nextId + 1))
  }

  /** A container: a closed Object holding its regenerated HTML. */
  function ContainerObject(doc: seq<Node>, n: nat, c: Ctx): (r: Out)
    requires WellFormed(doc) && n < |doc|
    ensures r.ctx.trace == c.trace && r.ctx.nextId == c.nextId + 1
    ensures AbsNumbers(r.ops) == [c.nextId]
    ensures Nests(r.ops, |c.trace|, |r.ctx.trace|)
  {
    var body := [WriteValue(ObjectText, VHtml(GenerateHtml(doc, n)))];
    Unnumbered(body);
    ObjectFrameIds(c.nextId, body);
    CellsBalanced(body);
    ObjectFrameNests(c.nextId, body, |c.trace|);
    Out(ObjectFrame(c.nextId, body), c.(nextId := c.nextId + 1))
  }

  /** The default case of readHtmlNode: the children in order. */
  function ReadChildren(doc: seq<Node>, n: nat, i: nat, c: Ctx, env: Env): (r: Out)
    requires WellFormed(doc) && n < |doc| && i <= |doc[n].children| && 1 <= |c.trace|
    ensures 1 <= |r.ctx.trace| && c.nextId <= r.ctx.nextId
    ensures TraceOk(c.trace) ==> TraceOk(r.ctx.trace)
    ensures AbsNumbers(r.ops) == Range(c.nextId, r.ctx.nextId)
    ensures Nests(r.ops, |c.trace|, |r.ctx.trace|)
    decreases |doc| - n, 0, |doc[n].children| - i
  {
    if i == |doc[n].children| then EmptyNests(|c.trace|); Out([], c)
    else
      var a := ReadNode(doc, doc[n].children[i], c, env);
      var b := ReadChildren(doc, n, i + 1, a.ctx, env);
      AbsNumbersAppend(a.ops, b.ops);
      RangeConcat(c.nextId, a.ctx.nextId, b.ctx.nextId);
      NestsConcat(a.ops, b.ops, |c.trace|, |a.ctx.trace|, |b.ctx.trace|);
      Out(a.ops + b.ops, b.ctx)
  }

  /** A heading pushes its level onto what is left of the trace after
      popping every level not below it, and closes exactly one Object
      frame per pop; the trace stays a heading trace. */
  lemma HeadingTrace(c: Ctx, l: nat, str: string)
    requires TraceOk(c.trace) && 1 <= l
    ensures var r := Heading(c, l, str);
      && TraceOk(r.ctx.trace)
      && r.ctx.trace[|r.ctx.trace| - 1] == l
      && r.ctx.trace[..|r.ctx.trace| - 1] <= c.trace
      && (forall k :: |r.ctx.trace| - 1 <= k < |c.trace| ==> l <= c.trace[k])
      && (forall k :: 0 <= k < |c.trace| + 1 - |r.ctx.trace| ==> r.ops[k] == FinishFrame)
      && r.ops[|c.trace| + 1 - |r.ctx.trace|] == BeginFrame(Obj)
  {
    var t := PopTo(c.trace, l);
    var r := Heading(c, l, str);
    assert r.ctx.trace[..|r.ctx.trace| - 1] == t;
    var pre := Finishes(|c.trace| - |t|);
    forall k | 0 <= k < |pre| ensures r.ops[k] == FinishFrame {
      assert r.ops[k] == pre[k];
    }
  }

  /** Popping to level l and pushing l keeps a heading trace. */
  lemma PushTrace(trace: seq<nat>, l: nat)
    requires 1 <= |trace| && 1 <= l
    ensures TraceOk(trace) ==> TraceOk(PopTo(trace, l) + [l])
  {
    var t := PopTo(trace, l);
    if TraceOk(trace) {
      forall i, j | 0 <= i < j < |t + [l]| ensures (t + [l])[i] < (t + [l])[j] {
        if j < |t| {
          assert t[i] == trace[i] && t[j] == trace[j];
        } else if |t| > 1 {
          assert t[i] == trace[i] && t[|t| - 1] == trace[|t| - 1];
          assert trace[i] <= trace[|t| - 1];
        } else {
          assert t[0] == trace[0];
        }
      }
    }
  }

  /** A paragraph Object is written exactly when collectText finds some
      text in it. */
  lemma ParagraphWritten(doc: seq<Node>, n: nat, c: Ctx, env: Env)
    requires WellFormed(doc) && n < |doc| && 1 <= |c.trace| && RoleOf(doc[n].id) == Paragraph
    ensures ReadNode(doc, n, c, env).ops == [] <==> Blank(doc, n)
    ensures ReadNode(doc, n, c, env).ops != [] ==> ReadNode(doc, n, c, env).ctx == c.(nextId := c.nextId + 1)
  {
  }

  /** A heading Object is written exactly when the heading has some text. */
  lemma HeadingWritten(doc: seq<Node>, n: nat, c: Ctx, env: Env)
    requires WellFormed(doc) && n < |doc| && 1 <= |c.trace| && H2I(doc[n].id) > 0
    ensures ReadNode(doc, n, c, env).ops == [] <==> Blank(doc, n)
    ensures !Blank(doc, n) ==> ReadNode(doc, n, c, env) == Heading(c, H2I(doc[n].id), HeadingText(doc, n))
  {
    RoleOfTags(doc[n].id);
    SimplifiedEmpty(CollectText(doc, n));
  }

  /** Operations that write no "Absolute Number" cell number nothing. */
  lemma {:induction false} Unnumbered(ops: seq<Op>)
    requires forall k :: 0 <= k < |ops| ==> IdOf(ops[k]) == []
    ensures AbsNumbers(ops) == []
    decreases |ops|
  {
    if |ops| > 0 {
      Unnumbered(ops[1..]);
    }
  }

  lemma StdAttsUnnumbered()
    ensures AbsNumbers(StdAtts()) == []
  {
    Unnumbered(StdAtts());
  }

  lemma IdCellNumber(id: int)
    ensures AbsNumbers([IdCell(id)]) == [id]
  {
    assert [IdCell(id)][1..] == [];
  }

  lemma HeadingCellsUnnumbered(str: string)
    ensures AbsNumbers(HeadingCells(str)) == []
  {
    Unnumbered(HeadingCells(str));
  }

  lemma FinishesUnnumbered(k: nat)
    ensures AbsNumbers(Finishes(k)) == []
  {
    Unnumbered(Finishes(k));
  }

  /** A closed Object carries its id and no other. */
  lemma ObjectFrameIds(id: int, body: seq<Op>)
    requires AbsNumbers(body) == []
    ensures AbsNumbers(ObjectFrame(id, body)) == [id]
  {
    var head := [BeginFrame(Obj), IdCell(id)];
    assert AbsNumbers(head) == [id] by {
      assert head[1..] == [IdCell(id)];
      IdCellNumber(id);
    }
    StdAttsUnnumbered();
    Unnumbered([FinishFrame]);
    AbsNumbersAppend(head, StdAtts());
    AbsNumbersAppend(head + StdAtts(), body);
    AbsNumbersAppend(head + StdAtts() + body, [FinishFrame]);
  }

  lemma HeadingIds(c: Ctx, l: nat, str: string)
    requires 1 <= |c.trace|
    ensures AbsNumbers(Finishes(|c.trace| - |PopTo(c.trace, l)|) + HeadingObject(c.nextId, str)) == [c.nextId]
  {
    var k := |c.trace| - |PopTo(c.trace, l)|;
    FinishesUnnumbered(k);
    HeadingObjectIds(c.nextId, str);
    AbsNumbersAppend(Finishes(k), HeadingObject(c.nextId, str));
  }

  lemma HeadingObjectIds(id: int, str: string)
    ensures AbsNumbers(HeadingObject(id, str)) == [id]
  {
    Unnumbered([BeginFrame(Obj)]);
    StdAttsUnnumbered();
    IdCellNumber(id);
    HeadingCellsUnnumbered(str);
    AbsNumbersAppend([BeginFrame(Obj)], StdAtts());
    AbsNumbersAppend([BeginFrame(Obj)] + StdAtts(), [IdCell(id)]);
    AbsNumbersAppend([BeginFrame(Obj)] + StdAtts() + [IdCell(id)], HeadingCells(str));
  }

  /** Cells alone are balanced and open nothing. */
  lemma CellsBalanced(cells: seq<Op>)
    requires forall k :: 0 <= k < |cells| ==> cells[k].WriteValue?
    ensures Inner(cells) && Balanced(cells)
  {
    CellsNest(cells, [0]);
  }

  /** A balanced body inside one frame is balanced. */
  lemma FramedBalanced(frame: Option<string>, body: seq<Op>)
    requires Inner(body) && Balanced(body)
    ensures Inner([BeginFrame(frame)] + body + [FinishFrame]) && Balanced([BeginFrame(frame)] + body + [FinishFrame])
  {
    WrappedInner(BeginFrame(frame), body, FinishFrame);
    WrappedNests(BeginFrame(frame), body, FinishFrame);
  }

  /** A closed Object around a balanced body is balanced. */
  lemma ObjectFrameBalanced(id: int, body: seq<Op>)
    requires Inner(body) && Balanced(body)
    ensures Inner(ObjectFrame(id, body)) && Balanced(ObjectFrame(id, body))
  {
    var cells := [IdCell(id)] + StdAtts();
    CellsBalanced(cells);
    InnerConcat(cells, body);
    BalancedConcat(cells, body);
    FramedBalanced(Obj, cells + body);
    assert ObjectFrame(id, body) == [BeginFrame(Obj)] + (cells + body) + [FinishFrame];
  }

  /** A run of k end-of-frames closes k of the open frames. */
  lemma {:induction false} FinishesNest(ops: seq<Op>, m: nat)
    requires |ops| <= m && forall i :: 0 <= i < |ops| ==> ops[i] == FinishFrame
    ensures WellNested(ops, [m]) && After(ops, [m]) == [m - |ops|]
    decreases |ops|
  {
    if |ops| > 0 {
      assert WithLast([m], m - 1) == [m - 1];
      FinishesNest(ops[1..], m - 1);
    }
  }

  /** Frame counts as the walk sees them: a base count d, plus one open
      Object frame per trace entry above the sentinel. */
  predicate Nests(ops: seq<Op>, from: nat, to: nat) {
    Inner(ops) && WellNested(ops, [from]) && After(ops, [from]) == [to]
  }

  lemma EmptyNests(m: nat)
    ensures Nests([], m, m)
  {
  }

  lemma NestsConcat(xs: seq<Op>, ys: seq<Op>, a: nat, b: nat, c: nat)
    requires Nests(xs, a, b) && Nests(ys, b, c)
    ensures Nests(xs + ys, a, c)
  {
    NestedConcat(xs, ys, [a]);
    InnerConcat(xs, ys);
  }

  lemma BalancedNests(ops: seq<Op>, m: nat)
    requires Inner(ops) && Balanced(ops)
    ensures Nests(ops, m, m)
  {
    BalancedAnywhere(ops, [m]);
  }

  /** A heading closes one frame per pop and leaves its own Object open. */
  lemma HeadingNests(c: Ctx, l: nat, str: string)
    requires 1 <= |c.trace|
    ensures var t := PopTo(c.trace, l);
      Nests(Finishes(|c.trace| - |t|) + HeadingObject(c.nextId, str), |c.trace|, |t| + 1)
  {
    var t := PopTo(c.trace, l);
    var k := |c.trace| - |t|;
    FinishesNest(Finishes(k), |c.trace|);
    assert Inner(Finishes(k));
    HeadingObjectNests(c.nextId, str, |t|);
    NestsConcat(Finishes(k), HeadingObject(c.nextId, str), |c.trace|, |t|, |t| + 1);
  }

  lemma HeadingObjectNests(id: int, str: string, a: nat)
    ensures Nests(HeadingObject(id, str), a, a + 1)
  {
    var cells := StdAtts() + [IdCell(id)] + HeadingCells(str);
    assert HeadingObject(id, str) == [BeginFrame(Obj)] + cells;
    assert WithLast([a], a + 1) == [a + 1];
    Single(BeginFrame(Obj), [a]);
    CellsBalanced(cells);
    BalancedNests(cells, a + 1);
    NestsConcat([BeginFrame(Obj)], cells, a, a + 1, a + 1);
  }

  lemma ObjectFrameNests(id: int, body: seq<Op>, m: nat)
    requires Inner(body) && Balanced(body)
    ensures Nests(ObjectFrame(id, body), m, m)
  {
    ObjectFrameBalanced(id, body);
    BalancedNests(ObjectFrame(id, body), m);
  }
}
