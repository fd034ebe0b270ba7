/** Laws of the slot stack that relate several agent operations. */
module AgentLaws {
  import opened Base
  import opened StreamAgent

  /** Operations that write into the current slot and nowhere else. */
  predicate Flat(ops: seq<Op>) {
    forall k :: 0 <= k < |ops| ==>
      ops[k].WriteValue? || ops[k].LoadImage? || ops[k].ReadImage? ||
      ops[k].PasteText? || ops[k].BeginFrame? || ops[k].FinishFrame?
  }

  /** startEmbed directly followed by endEmbed(name) restores the depth and
      leaves exactly one new cell, an empty blob, in the slot that was on top. */
  lemma EmbedRoundTrip(a: Agent, name: string)
    requires Valid(a)
    ensures var r := EndEmbed(StartEmbed(a), name);
      && |r.slots| == |a.slots| && Below(r) == Below(a)
      && Top(r).events == Top(a).events + [CellFor(name, VBlob([]))]
      && Top(r).open == Top(a).open && Top(r).target == Top(a).target
      && r.log == a.log
  {
    var s := StartEmbed(a);
    assert s.slots[|s.slots| - 2] == Top(a);
    assert s.slots[..|s.slots| - 2] == Below(a);
  }

  /** Flat operations leave every slot below the top untouched, and what
      they do to the top slot depends on nothing but that slot. */
  lemma {:induction false} FlatTouchesTopOnly(a: Agent, b: Agent, ops: seq<Op>, host: Host)
    requires Valid(a) && Valid(b) && Flat(ops) && Top(a) == Top(b)
    ensures |Run(a, ops, host).slots| == |a.slots| && Below(Run(a, ops, host)) == Below(a)
    ensures Top(Run(a, ops, host)) == Top(Run(b, ops, host))
    decreases |ops|
  {
    if |ops| > 0 {
      var a1 := Apply(a, ops[0], host);
      var b1 := Apply(b, ops[0], host);
      assert Top(a1) == Top(b1) && |a1.slots| == |a.slots| && Below(a1) == Below(a) by {
        match ops[0]
        case WriteValue(name, v) =>
        case PasteText(name) =>
        case LoadImage(path, del, name) =>
        case ReadImage(path, w, h, name) =>
        case BeginFrame(frame) =>
        case FinishFrame =>
          if Top(a).open == 0 {
            assert a1.slots == a.slots && b1.slots == b.slots;
          }
      }
      assert Flat(ops[1..]);
      FlatTouchesTopOnly(a1, b1, ops[1..], host);
    }
  }

  /** startEmbed, flat operations, endEmbed(name): the slot that was on top
      gains exactly one cell, named by `name`, holding everything the flat
      operations wrote, exactly as they would have written it into a fresh
      agent; every other slot and the depth are as before. */
  lemma EmbedCapture(a: Agent, ops: seq<Op>, name: string, host: Host)
    requires Valid(a) && Flat(ops)
    ensures var r := Run(a, [BeginEmbed] + ops + [FinishEmbed(name)], host);
      && |r.slots| == |a.slots| && Below(r) == Below(a)
      && Top(r).events == Top(a).events + [CellFor(name, VBlob(Top(Run(New(), ops, host)).events))]
      && Top(r).open == Top(a).open
  {
    var s := StartEmbed(a);
    var m := Run(s, ops, host);
    RunEmbedded(a, ops, name, host);
    FlatTouchesTopOnly(s, New(), ops, host);
    CloseEmbed(a, m, name);
  }

  /** Running an embed is endEmbed after the inner operations, run from
      the pushed slot. */
  lemma RunEmbedded(a: Agent, ops: seq<Op>, name: string, host: Host)
    requires Valid(a)
    ensures Run(a, [BeginEmbed] + ops + [FinishEmbed(name)], host) == EndEmbed(Run(StartEmbed(a), ops, host), name)
  {
    var s := StartEmbed(a);
    assert [BeginEmbed] + ops + [FinishEmbed(name)] == [BeginEmbed] + (ops + [FinishEmbed(name)]);
    ApplyEmbedOps(a, name, host);
    RunCons(a, BeginEmbed, ops + [FinishEmbed(name)], host);
    var m := Run(s, ops, host);
    RunSnoc(s, ops, FinishEmbed(name), host);
    ApplyEmbedOps(m, name, host);
  }

  lemma ApplyEmbedOps(a: Agent, name: string, host: Host)
    requires Valid(a)
    ensures Apply(a, BeginEmbed, host) == StartEmbed(a)
    ensures Apply(a, FinishEmbed(name), host) == EndEmbed(a, name)
  {
  }

  lemma RunCons(a: Agent, op: Op, rest: seq<Op>, host: Host)
    requires Valid(a)
    ensures Run(a, [op] + rest, host) == Run(Apply(a, op, host), rest, host)
  {
    assert ([op] + rest)[1..] == rest;
  }

  lemma RunSnoc(a: Agent, ops: seq<Op>, op: Op, host: Host)
    requires Valid(a)
    ensures Run(a, ops + [op], host) == Apply(Run(a, ops, host), op, host)
  {
    RunAppend(a, ops, [op], host);
    RunOne(Run(a, ops, host), op, host);
  }

  lemma RunOne(a: Agent, op: Op, host: Host)
    requires Valid(a)
    ensures Run(a, [op], host) == Apply(a, op, host)
  {
    assert [op][1..] == [];
  }

  /** endEmbed on an agent one slot deeper than a, with a's slots below:
      a's top slot gains the cell holding the top slot's events. */
  lemma CloseEmbed(a: Agent, m: Agent, name: string)
    requires Valid(a) && Valid(m) && |m.slots| == |a.slots| + 1 && Below(m) == a.slots
    ensures var r := EndEmbed(m, name);
      && |r.slots| == |a.slots| && Below(r) == Below(a)
      && Top(r).events == Top(a).events + [CellFor(name, VBlob(Top(m).events))]
      && Top(r).open == Top(a).open
  {
    assert m.slots[|m.slots| - 2] == Below(m)[|m.slots| - 2] == Top(a);
    assert m.slots[..|m.slots| - 2] == Below(a);
  }
}
