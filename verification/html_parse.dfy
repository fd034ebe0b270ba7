/** HtmlImporter::parse: the module header, the walk from the document's
    first node, and the frames the walk left open. The file system, the
    HTML parser, the UUID generator and the clock are outside the model:
    whether the file opened, the parsed node list, the module id and the
    base name of the path are given. */
module HtmlParse {
  import opened Base
  import opened StreamAgent
  import opened Nesting
  import opened HtmlText
  import opened HtmlDoc
  import opened HtmlFrag
  import opened HtmlImport

  /** What parse starts from: the path as given, whether it could be opened
      for reading, its complete base name, the module id drawn for it, and
      the nodes the HTML parser made of its contents. */
  datatype Source = Source(path: string, readable: bool, baseName: string, moduleId: string, doc: seq<Node>)

  /** A title node whose simplified text is not empty: findName takes the
      first of these as the module's name. */
  predicate Titled(doc: seq<Node>, k: nat)
    requires k < |doc|
  {
    doc[k].id == Title && Simplified(doc[k].text) != []
  }

  /** The loop of findName from node i on: the first named title, if any. */
  function FirstTitle(doc: seq<Node>, i: nat): (k: Option<nat>)
    ensures k.Some? ==> i <= k.value < |doc| && Titled(doc, k.value)
    ensures k.Some? ==> forall j :: i <= j < k.value ==> !Titled(doc, j)
    ensures k.None? ==> forall j :: i <= j < |doc| ==> !Titled(doc, j)
    decreases |doc| - i
  {
    if i >= |doc| then None
    else if Titled(doc, i) then Some(i)
    else FirstTitle(doc, i + 1)
  }

  /** findName: the "Name" cell. */
  function NameCell(doc: seq<Node>, baseName: string): Op {
    var k := FirstTitle(doc, 0);
    WriteValue("Name", VString(if k.Some? then Simplified(doc[k.value].text) else baseName))
  }

  /** The module is named after the first title with some text, and after
      the file when there is none. */
  lemma NameIsFirstTitle(doc: seq<Node>, baseName: string)
    ensures NameCell(doc, baseName).WriteValue? && NameCell(doc, baseName).value.VString?
    ensures (forall k :: 0 <= k < |doc| ==> !Titled(doc, k)) ==> NameCell(doc, baseName).value.text == baseName
    ensures forall k :: 0 <= k < |doc| && Titled(doc, k) && (forall j :: 0 <= j < k ==> !Titled(doc, j)) ==>
      NameCell(doc, baseName).value.text == Simplified(doc[k].text)
  {
    var r := FirstTitle(doc, 0);
    forall k | 0 <= k < |doc| && Titled(doc, k) && (forall j :: 0 <= j < k ==> !Titled(doc, j))
      ensures NameCell(doc, baseName).value.text == Simplified(doc[k].text)
    {
      assert r.Some?;
    }
  }

  /** The header of the module stream: the stream's opening, the format
      tag, its version and the export time as positional cells, then the
      open module frame and its cells. */
  function Header(src: Source): seq<Op> {
    [OpenStream(src.baseName)] + (Preamble() + ([BeginFrame(Mod)] + ModuleCells(src)))
  }

  function Preamble(): (ops: seq<Op>)
    ensures forall k :: 0 <= k < |ops| ==> ops[k].WriteValue? && ops[k].name != AbsoluteNumber
  {
    [WriteValue([], VString("DoorScopeExport")), WriteValue([], VString("0.3")), WriteValue([], VDate(Now))]
  }

  /** The module's own cells: its id, the standard attributes, its path and
      its name. */
  function ModuleCells(src: Source): (ops: seq<Op>)
    ensures forall k :: 0 <= k < |ops| ==> ops[k].WriteValue? && ops[k].name != AbsoluteNumber
  {
    [WriteValue("~moduleID", VString(src.moduleId))] + StdAtts()
      + [WriteValue("~modulePath", VString(src.baseName)), NameCell(src.doc, src.baseName)]
  }

  /** The end of the module: one end-of-frame per heading Object still
      open, the end of the module frame, and the close. */
  function Tail(k: nat): seq<Op> {
    Finishes(k) + [FinishFrame, CloseStream]
  }

  /** parse. A file that cannot be opened and a document without nodes are
      errors with the source's messages; otherwise the stream holds the
      header, the walk from node 0 with the sentinel trace and the first
      Object id 1, one end-of-frame per heading Object still open, the end
      of the module frame, and the close. */
  function Parse(src: Source, env: Env): (r: Result<seq<Op>, string>)
    requires WellFormed(src.doc)
    ensures r.Err? <==> !src.readable || src.doc == []
    ensures !src.readable ==> r == Err("cannot open '" + src.path + "' for reading")
    ensures src.readable && src.doc == [] ==> r == Err("HTML stream has no contents!")
    ensures r.Ok? ==> |r.value| >= 2 && r.value[0] == OpenStream(src.baseName) && r.value[|r.value| - 1] == CloseStream
  {
    if !src.readable then Err("cannot open '" + src.path + "' for reading")
    else if |src.doc| == 0 then Err("HTML stream has no contents!")
    else
      var w := ReadNode(src.doc, 0, Ctx([0], 1), env);
      Ok(Header(src) + (w.ops + Tail(|w.ctx.trace| - 1)))
  }

  /** The walk of a successful parse: what ReadNode wrote. */
  function Walked(src: Source, env: Env): Out
    requires WellFormed(src.doc) && src.doc != []
  {
    ReadNode(src.doc, 0, Ctx([0], 1), env)
  }

  /** The header opens the stream and leaves exactly the module frame open,
      whatever was open before. */
  lemma HeaderNests(src: Source, st: seq<nat>)
    requires 1 <= |st|
    ensures WellNested(Header(src), st) && After(Header(src), st) == [1]
  {
    ModuleOpens(src.baseName, Preamble(), ModuleCells(src), st);
  }

  /** Opening a stream, writing cells, opening one frame and writing more
      cells leaves that one frame open. */
  lemma ModuleOpens(name: string, pre: seq<Op>, cells: seq<Op>, st: seq<nat>)
    requires 1 <= |st|
    requires forall k :: 0 <= k < |pre| ==> pre[k].WriteValue?
    requires forall k :: 0 <= k < |cells| ==> cells[k].WriteValue?
    ensures var ops := [OpenStream(name)] + (pre + ([BeginFrame(Mod)] + cells));
      WellNested(ops, st) && After(ops, st) == [1]
  {
    CellsNest(pre, [0]);
    CellsNest(cells, [1]);
    assert WithLast([0], 1) == [1];
    Single(BeginFrame(Mod), [0]);
    NestedConcat([BeginFrame(Mod)], cells, [0]);
    NestedConcat(pre, [BeginFrame(Mod)] + cells, [0]);
    Single(OpenStream(name), st);
    NestedConcat([OpenStream(name)], pre + ([BeginFrame(Mod)] + cells), st);
  }

  /** The close of the module: the heading Objects still open, the module
      frame, and the stream. */
  lemma TailNests(k: nat)
    ensures WellNested(Tail(k), [k + 1]) && After(Tail(k), [k + 1]) == [0]
  {
    FinishesNest(Finishes(k), k + 1);
    FinishesNest([FinishFrame], 1);
    assert WithLast([0], 0) == [0];
    Single(CloseStream, [0]);
    NestedConcat([FinishFrame], [CloseStream], [1]);
    assert [FinishFrame] + [CloseStream] == [FinishFrame, CloseStream];
    NestedConcat(Finishes(k), [FinishFrame, CloseStream], [k + 1]);
  }

  /** Every frame and embedded stream a parse opens is closed again, in
      order, and the stream is closed with nothing left open, from any
      state of the agent. */
  lemma ParseNests(src: Source, env: Env, st: seq<nat>)
    requires WellFormed(src.doc) && 1 <= |st| && Parse(src, env).Ok?
    ensures WellNested(Parse(src, env).value, st) && After(Parse(src, env).value, st) == [0]
  {
    var w := Walked(src, env);
    var k := |w.ctx.trace| - 1;
    HeaderNests(src, st);
    TailNests(k);
    NestedConcat(w.ops, Tail(k), [1]);
    NestedConcat(Header(src), w.ops + Tail(k), st);
  }

  /** Running a parse's output through the stream agent never makes it
      report a frame or embedding error, and leaves it with one writer and
      no open frame. */
  lemma ParseRunsClean(a: Agent, src: Source, env: Env, host: Host)
    requires Valid(a) && WellFormed(src.doc) && Parse(src, env).Ok?
    ensures NoStructural(Run(a, Parse(src, env).value, host).log[|a.log|..])
    ensures Shape(Run(a, Parse(src, env).value, host)) == [0]
  {
    ParseNests(src, env, Shape(a));
    NestedRunIsClean(a, Parse(src, env).value, host);
  }

  /** The header numbers nothing. */
  lemma HeaderUnnumbered(src: Source)
    ensures AbsNumbers(Header(src)) == []
  {
    Unnumbered(Header(src));
  }

  /** The Objects of a parse are numbered 1, 2, 3, ... in the order they
      are written, each number once. */
  lemma ParseIds(src: Source, env: Env)
    requires WellFormed(src.doc) && Parse(src, env).Ok?
    ensures AbsNumbers(Parse(src, env).value) == Range(1, 1 + |AbsNumbers(Parse(src, env).value)|)
  {
    var w := Walked(src, env);
    var tail := Tail(|w.ctx.trace| - 1);
    ParseOps(src, env);
    HeaderUnnumbered(src);
    Unnumbered(tail);
    IdsFrom(Parse(src, env).value, Header(src), w.ops, tail, w.ctx.nextId);
  }

  /** A successful parse writes the header, the walk and the tail. */
  lemma ParseOps(src: Source, env: Env)
    requires WellFormed(src.doc) && Parse(src, env).Ok?
    ensures src.doc != []
    ensures Parse(src, env).value == Header(src) + (Walked(src, env).ops + Tail(|Walked(src, env).ctx.trace| - 1))
  {
  }

  /** Around unnumbered operations, the numbers are those in between. */
  lemma NumbersBetween(h: seq<Op>, m: seq<Op>, t: seq<Op>)
    requires AbsNumbers(h) == [] && AbsNumbers(t) == []
    ensures AbsNumbers(h + (m + t)) == AbsNumbers(m)
  {
    AbsNumbersAppend(m, t);
    AbsNumbersAppend(h, m + t);
  }

  /** Numbers 1 up to hi in the middle, none around them: the whole is
      numbered 1, 2, 3, ... */
  lemma IdsFrom(ops: seq<Op>, h: seq<Op>, m: seq<Op>, t: seq<Op>, hi: int)
    requires ops == h + (m + t)
    requires 1 <= hi && AbsNumbers(h) == [] && AbsNumbers(t) == [] && AbsNumbers(m) == Range(1, hi)
    ensures AbsNumbers(ops) == Range(1, 1 + |AbsNumbers(ops)|)
  {
    NumbersBetween(h, m, t);
  }

  /** The walk keeps the heading trace a heading trace, so the end-of-frames
      after it close exactly the heading Objects still open. */
  lemma ParseTrace(src: Source, env: Env)
    requires WellFormed(src.doc) && src.doc != []
    ensures TraceOk(Walked(src, env).ctx.trace)
  {
    assert TraceOk([0]);
  }
}
