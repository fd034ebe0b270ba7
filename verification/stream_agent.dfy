/** The stream agent: a stack of independent writer slots. Slot 0 is the
    document being written to the output file; every further slot is an
    embed whose whole content later becomes one blob cell of its parent.

    The external document writer is modelled as an append-only event log per
    slot together with its count of open frames; it rejects an end-of-frame
    that has no open frame, which is the writer failure the agent turns into
    a logged error. Files, images and the clipboard belong to the `Host`. */
module StreamAgent {
  import opened Base
  import IpcProtocol

  datatype Image = Loaded(path: string) | Scaled(path: string, width: int, height: int) | Placeholder

  /** The typed value union a cell holds. */
  datatype Value =
    | VString(text: string)
    | VHtml(html: string)
    | VInt(number: int)
    | VChar(code: byte)
    | VBool(flag: bool)
    | VReal(literal: seq<byte>)
    | VDate(date: DateValue)
    | VImage(image: Image)
    | VBlob(content: seq<Event>)

  /** What the writer of one slot records. A cell without a name is positional. */
  datatype Event = FrameStart(frame: Option<string>) | FrameEnd | Cell(name: Option<string>, value: Value)

  /** One writer: where it writes (the root slot of an opened stream has a
      file), what it has written, and how many of its frames are open. */
  datatype Slot = Slot(target: Option<string>, events: seq<Event>, open: nat)

  /** A document handed to the file system when its root slot is released. */
  datatype File = File(path: string, content: seq<Event>)

  /** Which guarded call a writer failure was caught in. */
  datatype WriterOp = OnWriteCell | OnStartFrame | OnEndFrame

  datatype Fault =
    | CannotOpen
    | EmbedMissing(level: nat)
    | EmbedMismatch
    | WriterFailed(op: WriterOp)
    | ImageNotLoaded(path: string)
    | Decoding(error: IpcProtocol.DecodeError)   // reported by the protocol before it closes the connection

  datatype Note = Created(path: string) | Closing

  /** The agent's log channel: errors and status messages, in order. */
  datatype Report = Error(fault: Fault) | Status(note: Note)

  /** What the agent asks of its environment. */
  datatype Host = Host(canCreate: string -> bool, canLoad: string -> bool, clipboard: string)

  datatype Agent = Agent(slots: seq<Slot>, log: seq<Report>, files: seq<File>, removed: seq<string>)

  /** The agent's public operations, as a caller issues them. */
  datatype Op =
    | OpenStream(name: string)
    | CloseStream
    | WriteValue(name: string, value: Value)
    | LoadImage(path: string, deleteAfterwards: bool, name: string)
    | ReadImage(path: string, width: int, height: int, name: string)
    | PasteText(name: string)
    | BeginFrame(frame: Option<string>)
    | FinishFrame
    | BeginEmbed
    | FinishEmbed(name: string)

  const EmptySlot := Slot(None, [], 0)

  /** The class invariant: there is always a root slot. */
  predicate Valid(a: Agent) {
    1 <= |a.slots|
  }

  function Top(a: Agent): Slot
    requires Valid(a)
  {
    a.slots[|a.slots| - 1]
  }

  /** The slots below the top one. */
  function Below(a: Agent): seq<Slot>
    requires Valid(a)
  {
    a.slots[..|a.slots| - 1]
  }

  function SetTop(a: Agent, s: Slot): (r: Agent)
    requires Valid(a)
    ensures Valid(r) && |r.slots| == |a.slots| && Below(r) == Below(a) && Top(r) == s
    ensures r.log == a.log && r.files == a.files && r.removed == a.removed
  {
    a.(slots := Below(a) + [s])
  }

  function Log(a: Agent, r: Report): Agent {
    a.(log := a.log + [r])
  }

  function ErrorCount(log: seq<Report>): nat {
    if |log| == 0 then 0
    else ErrorCount(log[..|log| - 1]) + (if log[|log| - 1].Error? then 1 else 0)
  }

  lemma ErrorCountAppend(log: seq<Report>, more: seq<Report>)
    ensures ErrorCount(log + more) == ErrorCount(log) + ErrorCount(more)
  {
    if |more| > 0 {
      assert (log + more)[..|log + more| - 1] == log + more[..|more| - 1];
      ErrorCountAppend(log, more[..|more| - 1]);
    } else {
      assert log + more == log;
    }
  }

  /** The agent the constructor builds. */
  function New(): (r: Agent)
    ensures Valid(r) && r.slots == [EmptySlot]
    ensures r.log == [] && r.files == [] && r.removed == []
  {
    Agent([EmptySlot], [], [], [])
  }

  /** Releasing the slots hands the root document, if it has a file, to the
      file system. */
  function Release(a: Agent): (r: seq<File>)
    requires Valid(a)
    ensures a.slots[0].target.Some? ==> r == a.files + [File(a.slots[0].target.value, a.slots[0].events)]
    ensures a.slots[0].target.None? ==> r == a.files
  {
    match a.slots[0].target
    case Some(path) => a.files + [File(path, a.slots[0].events)]
    case None => a.files
  }

  /** The output file an opened stream `name` is written to. */
  function FileName(name: string): string {
    name + ".dsdx"
  }

  /** open(name): drops whatever was open and starts one fresh root slot,
      bound to a new file when the host can create it. */
  function Open(a: Agent, name: string, host: Host): (r: Agent)
    requires Valid(a)
    ensures Valid(r) && |r.slots| == 1 && r.slots[0].events == [] && r.slots[0].open == 0
    ensures host.canCreate(FileName(name)) ==> r.slots[0].target == Some(FileName(name))
    ensures !host.canCreate(FileName(name)) ==> r.slots[0].target == None
    ensures !host.canCreate(FileName(name)) <==> ErrorCount(r.log) == ErrorCount(a.log) + 1
    ensures host.canCreate(FileName(name)) ==> r.log == a.log + [Status(Created(FileName(name)))]
    ensures !host.canCreate(FileName(name)) ==> r.log == a.log + [Error(CannotOpen)]
    ensures r.files == Release(a) && r.removed == a.removed
  {
    var reset := a.(slots := [EmptySlot], files := Release(a));
    var path := FileName(name);
    if host.canCreate(path) then
      ErrorCountAppend(a.log, [Status(Created(path))]);
      Log(reset.(slots := [Slot(Some(path), [], 0)]), Status(Created(path)))
    else
      ErrorCountAppend(a.log, [Error(CannotOpen)]);
      Log(reset, Error(CannotOpen))
  }

  /** close(): reports unclosed embeds but always ends with one empty root slot. */
  function Close(a: Agent): (r: Agent)
    requires Valid(a)
    ensures Valid(r) && r.slots == [EmptySlot]
    ensures |a.slots| > 1 <==> ErrorCount(r.log) == ErrorCount(a.log) + 1
    ensures |a.slots| <= 1 <==> ErrorCount(r.log) == ErrorCount(a.log)
    ensures a.log <= r.log
    ensures |a.slots| > 1 ==> Error(EmbedMissing(|a.slots|)) in r.log[|a.log|..]
    ensures r.log == a.log + (if |a.slots| > 1 then [Error(EmbedMissing(|a.slots|))] else []) + [Status(Closing)]
    ensures r.files == Release(a) && r.removed == a.removed
  {
    var warned := if |a.slots| > 1 then Log(a, Error(EmbedMissing(|a.slots|))) else a;
    var more := if |a.slots| > 1 then [Error(EmbedMissing(|a.slots|)), Status(Closing)] else [Status(Closing)];
    ErrorCountAppend(a.log, more);
    assert warned.log + [Status(Closing)] == a.log + more;
    Log(warned.(slots := [EmptySlot], files := Release(a)), Status(Closing))
  }

  /** The writer: appends one event to a slot, or fails on an end-of-frame
      with no open frame. */
  function Append(s: Slot, e: Event): (r: Option<Slot>)
    ensures r.None? <==> e.FrameEnd? && s.open == 0
    ensures r.Some? ==> r.value.events == s.events + [e] && r.value.target == s.target
    ensures r.Some? && e.FrameStart? ==> r.value.open == s.open + 1
    ensures r.Some? && e.FrameEnd? ==> r.value.open + 1 == s.open
    ensures r.Some? && e.Cell? ==> r.value.open == s.open
  {
    match e
    case FrameStart(_) => Some(s.(events := s.events + [e], open := s.open + 1))
    case FrameEnd => if s.open == 0 then None else Some(s.(events := s.events + [e], open := s.open - 1))
    case Cell(_, _) => Some(s.(events := s.events + [e]))
  }

  /** Hands an event to the top slot's writer; a failure becomes a logged
      error and leaves every slot as it was. */
  function Guarded(a: Agent, e: Event, site: WriterOp): (r: Agent)
    requires Valid(a)
    ensures Valid(r) && |r.slots| == |a.slots| && Below(r) == Below(a)
    ensures r.files == a.files && r.removed == a.removed
    ensures Append(Top(a), e).Some? ==> Top(r) == Append(Top(a), e).value && r.log == a.log
    ensures Append(Top(a), e).None? ==> r.slots == a.slots && r.log == a.log + [Error(WriterFailed(site))]
  {
    match Append(Top(a), e)
    case Some(s) => SetTop(a, s)
    case None => Log(a, Error(WriterFailed(site)))
  }

  /** The cell event a name selects: positional for an empty name. */
  function CellFor(name: string, v: Value): (e: Event)
    ensures e.Cell? && e.value == v
    ensures e.name.None? <==> name == []
    ensures e.name.Some? ==> e.name.value == name
  {
    Cell(if name == [] then None else Some(name), v)
  }

  /** writeCell: only the top slot changes, and it gains exactly one cell. */
  function WriteCell(a: Agent, name: string, v: Value): (r: Agent)
    requires Valid(a)
    ensures Valid(r) && |r.slots| == |a.slots| && Below(r) == Below(a)
    ensures Top(r).events == Top(a).events + [CellFor(name, v)]
    ensures Top(r).target == Top(a).target && Top(r).open == Top(a).open
    ensures r.log == a.log && r.files == a.files && r.removed == a.removed
  {
    Guarded(a, CellFor(name, v), OnWriteCell)
  }

  /** startFrame: a null name opens an unnamed frame. */
  function StartFrame(a: Agent, frame: Option<string>): (r: Agent)
    requires Valid(a)
    ensures Valid(r) && |r.slots| == |a.slots| && Below(r) == Below(a)
    ensures Top(r).events == Top(a).events + [FrameStart(frame)]
    ensures Top(r).open == Top(a).open + 1
    ensures r.log == a.log && r.files == a.files && r.removed == a.removed
  {
    Guarded(a, FrameStart(frame), OnStartFrame)
  }

  /** endFrame: closes the top slot's innermost frame; with none open the
      writer's failure is logged and nothing else changes. */
  function EndFrame(a: Agent): (r: Agent)
    requires Valid(a)
    ensures Valid(r) && |r.slots| == |a.slots| && Below(r) == Below(a)
    ensures Top(a).open > 0 ==> Top(r).events == Top(a).events + [FrameEnd] && Top(r).open + 1 == Top(a).open
    ensures Top(a).open > 0 ==> r.log == a.log
    ensures Top(a).open == 0 ==> r.slots == a.slots && r.log == a.log + [Error(WriterFailed(OnEndFrame))]
    ensures r.files == a.files && r.removed == a.removed
  {
    Guarded(a, FrameEnd, OnEndFrame)
  }

  /** startEmbed: pushes exactly one new, empty slot. */
  function StartEmbed(a: Agent): (r: Agent)
    requires Valid(a)
    ensures Valid(r) && |r.slots| == |a.slots| + 1
    ensures r.slots[..|a.slots|] == a.slots && Top(r) == EmptySlot
    ensures r.log == a.log && r.files == a.files && r.removed == a.removed
  {
    a.(slots := a.slots + [EmptySlot])
  }

  /** endEmbed(name): pops the top slot and writes everything it recorded as
      one blob cell into the new top slot. With only the root slot it logs
      the mismatch and changes nothing else. */
  function EndEmbed(a: Agent, name: string): (r: Agent)
    requires Valid(a)
    ensures Valid(r)
    ensures |a.slots| <= 1 ==> r.slots == a.slots && r.log == a.log + [Error(EmbedMismatch)]
    ensures |a.slots| > 1 ==> |r.slots| == |a.slots| - 1 && Below(r) == a.slots[..|a.slots| - 2]
    ensures |a.slots| > 1 ==> Top(r).events == a.slots[|a.slots| - 2].events + [CellFor(name, VBlob(Top(a).events))]
    ensures |a.slots| > 1 ==> r.log == a.log
    ensures r.files == a.files && r.removed == a.removed
  {
    if |a.slots| <= 1 then Log(a, Error(EmbedMismatch))
    else
      var blob := Top(a).events;
      WriteCell(a.(slots := Below(a)), name, VBlob(blob))
  }

  /** loadImg: a file that cannot be loaded still yields a placeholder cell
      and a logged error, and is never removed; a loaded file is removed
      only when asked to. */
  function LoadImg(a: Agent, path: string, deleteAfterwards: bool, name: string, host: Host): (r: Agent)
    requires Valid(a)
    ensures Valid(r) && |r.slots| == |a.slots| && Below(r) == Below(a)
    ensures !host.canLoad(path) ==> Top(r).events == Top(a).events + [CellFor(name, VImage(Placeholder))]
    ensures !host.canLoad(path) ==> r.log == a.log + [Error(ImageNotLoaded(path))] && r.removed == a.removed
    ensures host.canLoad(path) ==> Top(r).events == Top(a).events + [CellFor(name, VImage(Loaded(path)))]
    ensures host.canLoad(path) ==> r.log == a.log
    ensures host.canLoad(path) && deleteAfterwards ==> r.removed == a.removed + [path]
    ensures host.canLoad(path) && !deleteAfterwards ==> r.removed == a.removed
    ensures r.files == a.files && Top(r).open == Top(a).open
  {
    if !host.canLoad(path) then
      Log(WriteCell(a, name, VImage(Placeholder)), Error(ImageNotLoaded(path)))
    else
      var written := WriteCell(a, name, VImage(Loaded(path)));
      if deleteAfterwards then written.(removed := written.removed + [path]) else written
  }

  /** readImg: like loadImg without deletion; a loaded image is scaled only
      when both target dimensions are positive. */
  function ReadImg(a: Agent, path: string, w: int, h: int, name: string, host: Host): (r: Agent)
    requires Valid(a)
    ensures Valid(r) && |r.slots| == |a.slots| && Below(r) == Below(a)
    ensures r.removed == a.removed && r.files == a.files && Top(r).open == Top(a).open
    ensures !host.canLoad(path) ==> Top(r).events == Top(a).events + [CellFor(name, VImage(Placeholder))]
    ensures !host.canLoad(path) ==> r.log == a.log + [Error(ImageNotLoaded(path))]
    ensures host.canLoad(path) ==> r.log == a.log
    ensures host.canLoad(path) && w > 0 && h > 0 ==> Top(r).events == Top(a).events + [CellFor(name, VImage(Scaled(path, w, h)))]
    ensures host.canLoad(path) && !(w > 0 && h > 0) ==> Top(r).events == Top(a).events + [CellFor(name, VImage(Loaded(path)))]
  {
    if !host.canLoad(path) then
      Log(WriteCell(a, name, VImage(Placeholder)), Error(ImageNotLoaded(path)))
    else
      var img := if w > 0 && h > 0 then Scaled(path, w, h) else Loaded(path);
      WriteCell(a, name, VImage(img))
  }

  /** One operation, dispatched to the member that implements it. */
  function Apply(a: Agent, op: Op, host: Host): (r: Agent)
    requires Valid(a)
    ensures Valid(r)
    ensures a.log <= r.log
  {
    match op
    case OpenStream(name) => Open(a, name, host)
    case CloseStream => Close(a)
    case WriteValue(name, v) => WriteCell(a, name, v)
    case LoadImage(path, del, name) => LoadImg(a, path, del, name, host)
    case ReadImage(path, w, h, name) => ReadImg(a, path, w, h, name, host)
    case PasteText(name) => WriteCell(a, name, VString(host.clipboard))
    case BeginFrame(frame) => StartFrame(a, frame)
    case FinishFrame => EndFrame(a)
    case BeginEmbed => StartEmbed(a)
    case FinishEmbed(name) => EndEmbed(a, name)
  }

  /** A sequence of operations, in order. */
  function Run(a: Agent, ops: seq<Op>, host: Host): (r: Agent)
    requires Valid(a)
    ensures Valid(r)
    ensures a.log <= r.log
    decreases |ops|
  {
    if |ops| == 0 then a else Run(Apply(a, ops[0], host), ops[1..], host)
  }

  lemma RunAppend(a: Agent, ops: seq<Op>, more: seq<Op>, host: Host)
    requires Valid(a)
    ensures Run(a, ops + more, host) == Run(Run(a, ops, host), more, host)
    decreases |ops|
  {
    if |ops| > 0 {
      assert (ops + more)[1..] == ops[1..] + more;
      RunAppend(Apply(a, ops[0], host), ops[1..], more, host);
    } else {
      assert ops + more == more;
    }
  }
}
