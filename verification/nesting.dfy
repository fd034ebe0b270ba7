/** Stack discipline of a sequence of agent operations. A shape lists, per
    slot, how many of its frames are open; an operation sequence is well
    nested from a shape when no end-of-frame meets a slot without an open
    frame, no endEmbed meets the root slot, and close meets no open embed.
    Running a well-nested sequence on an agent of that shape logs none of
    the agent's structural errors. */
module Nesting {
  import opened Base
  import opened StreamAgent

  /** The open-frame count of every slot, root first. */
  function Shape(a: Agent): (st: seq<nat>)
    ensures |st| == |a.slots|
    ensures forall i :: 0 <= i < |st| ==> st[i] == a.slots[i].open
  {
    seq(|a.slots|, i requires 0 <= i < |a.slots| => a.slots[i].open)
  }

  function Last(st: seq<nat>): nat
    requires 1 <= |st|
  {
    st[|st| - 1]
  }

  function WithLast(st: seq<nat>, k: nat): (r: seq<nat>)
    requires 1 <= |st|
  {
    st[|st| - 1 := k]
  }

  /** The shape after one operation, or None when the operation would make
      the agent report a structural error. */
  function Next(op: Op, st: seq<nat>): (r: Option<seq<nat>>)
    requires 1 <= |st|
    ensures r.Some? ==> 1 <= |r.value|
  {
    match op
    case OpenStream(_) => Some([0])
    case CloseStream => if |st| == 1 then Some([0]) else None
    case BeginFrame(_) => Some(WithLast(st, Last(st) + 1))
    case FinishFrame => if Last(st) > 0 then Some(WithLast(st, Last(st) - 1)) else None
    case BeginEmbed => Some(st + [0])
    case FinishEmbed(_) => if |st| > 1 then Some(st[..|st| - 1]) else None
    case _ => Some(st)
  }

  predicate WellNested(ops: seq<Op>, st: seq<nat>)
    requires 1 <= |st|
    decreases |ops|
  {
    |ops| == 0 || (Next(ops[0], st).Some? && WellNested(ops[1..], Next(ops[0], st).value))
  }

  function After(ops: seq<Op>, st: seq<nat>): (r: seq<nat>)
    requires 1 <= |st| && WellNested(ops, st)
    ensures 1 <= |r|
    decreases |ops|
  {
    if |ops| == 0 then st else After(ops[1..], Next(ops[0], st).value)
  }

  /** A sequence that leaves every slot as it found it. */
  predicate Balanced(ops: seq<Op>) {
    WellNested(ops, [0]) && After(ops, [0]) == [0]
  }

  /** Operations that neither open nor close the stream. */
  predicate Inner(ops: seq<Op>) {
    forall k :: 0 <= k < |ops| ==> !ops[k].OpenStream? && !ops[k].CloseStream?
  }

  predicate Structural(r: Report) {
    r.Error? && (r.fault.EmbedMissing? || r.fault.EmbedMismatch? || r.fault.WriterFailed?)
  }

  predicate NoStructural(log: seq<Report>) {
    forall k :: 0 <= k < |log| ==> !Structural(log[k])
  }

  lemma NestedConcat(xs: seq<Op>, ys: seq<Op>, st: seq<nat>)
    requires 1 <= |st|
    ensures WellNested(xs + ys, st) <==> WellNested(xs, st) && WellNested(ys, After(xs, st))
    ensures WellNested(xs, st) && WellNested(ys, After(xs, st)) ==> After(xs + ys, st) == After(ys, After(xs, st))
    decreases |xs|
  {
    if |xs| == 0 {
      assert xs + ys == ys;
    } else {
      assert (xs + ys)[0] == xs[0];
      assert (xs + ys)[1..] == xs[1..] + ys;
      if Next(xs[0], st).Some? {
        NestedConcat(xs[1..], ys, Next(xs[0], st).value);
      }
    }
  }

  /** Two agents that differ only in their top slot differ in shape only there. */
  lemma ShapeOfNewTop(a: Agent, r: Agent)
    requires Valid(a) && Valid(r) && |r.slots| == |a.slots| && Below(r) == Below(a)
    ensures Shape(r) == WithLast(Shape(a), Top(r).open)
  {
    var n := |a.slots|;
    forall i | 0 <= i < n ensures Shape(r)[i] == WithLast(Shape(a), Top(r).open)[i] {
      if i < n - 1 {
        assert r.slots[i] == Below(r)[i] == Below(a)[i] == a.slots[i];
      }
    }
  }

  /** The operations that only write into the top slot keep the shape. */
  lemma WriteKeepsShape(a: Agent, op: Op, host: Host)
    requires Valid(a) && (op.WriteValue? || op.PasteText? || op.LoadImage? || op.ReadImage?)
    ensures Shape(Apply(a, op, host)) == Shape(a)
    ensures NoStructural(Apply(a, op, host).log[|a.log|..])
  {
    SameShape(a, Apply(a, op, host));
    WriteLogClean(a, op, host);
  }

  /** Two agents that differ at most in their top slot's cells have one shape. */
  lemma SameShape(a: Agent, r: Agent)
    requires Valid(a) && Valid(r) && |r.slots| == |a.slots| && Below(r) == Below(a) && Top(r).open == Top(a).open
    ensures Shape(r) == Shape(a)
  {
    ShapeOfNewTop(a, r);
    var st := Shape(a);
    assert st[..|st| - 1] + [st[|st| - 1]] == st;
  }

  /** Writing a cell logs nothing, an image at most the failed load. */
  lemma WriteLogClean(a: Agent, op: Op, host: Host)
    requires Valid(a) && (op.WriteValue? || op.PasteText? || op.LoadImage? || op.ReadImage?)
    ensures NoStructural(Apply(a, op, host).log[|a.log|..])
  {
    var r := Apply(a, op, host);
    if (op.LoadImage? || op.ReadImage?) && !host.canLoad(op.path) {
      assert r.log[|a.log|..] == [Error(ImageNotLoaded(op.path))];
    } else {
      assert r.log[|a.log|..] == [];
    }
  }

  lemma FrameFollowsShape(a: Agent, op: Op, host: Host)
    requires Valid(a) && (op.BeginFrame? || op.FinishFrame?) && Next(op, Shape(a)).Some?
    ensures Shape(Apply(a, op, host)) == Next(op, Shape(a)).value
    ensures NoStructural(Apply(a, op, host).log[|a.log|..])
  {
    var r := Apply(a, op, host);
    ShapeOfNewTop(a, r);
    assert r.log[|a.log|..] == [];
  }

  lemma EmbedFollowsShape(a: Agent, op: Op, host: Host)
    requires Valid(a) && (op.BeginEmbed? || op.FinishEmbed?) && Next(op, Shape(a)).Some?
    ensures Shape(Apply(a, op, host)) == Next(op, Shape(a)).value
    ensures NoStructural(Apply(a, op, host).log[|a.log|..])
  {
    var r := Apply(a, op, host);
    var st := Shape(a);
    if op.BeginEmbed? {
      assert Shape(r) == st + [0];
    } else {
      var popped := a.(slots := Below(a));
      ShapeOfNewTop(popped, r);
      assert Shape(popped) == st[..|st| - 1];
      assert Top(r).open == Top(popped).open;
    }
    assert r.log[|a.log|..] == [];
  }

  /** Running one operation from a shape it may follow moves the agent to the
      next shape and logs nothing structural. */
  lemma ApplyFollowsShape(a: Agent, op: Op, host: Host)
    requires Valid(a) && Next(op, Shape(a)).Some?
    ensures Shape(Apply(a, op, host)) == Next(op, Shape(a)).value
    ensures NoStructural(Apply(a, op, host).log[|a.log|..])
  {
    var r := Apply(a, op, host);
    if op.OpenStream? {
      assert r.log[|a.log|..] == [r.log[|a.log|]];
    } else if op.CloseStream? {
      assert r.log[|a.log|..] == [Status(Closing)];
    } else if op.BeginFrame? || op.FinishFrame? {
      FrameFollowsShape(a, op, host);
    } else if op.BeginEmbed? || op.FinishEmbed? {
      EmbedFollowsShape(a, op, host);
    } else {
      WriteKeepsShape(a, op, host);
    }
  }

  /** The agent never reports a structural error for a well-nested sequence,
      and its shape afterwards is the one the sequence predicts. */
  lemma {:induction false} NestedRunIsClean(a: Agent, ops: seq<Op>, host: Host)
    requires Valid(a) && WellNested(ops, Shape(a))
    ensures Shape(Run(a, ops, host)) == After(ops, Shape(a))
    ensures a.log <= Run(a, ops, host).log
    ensures NoStructural(Run(a, ops, host).log[|a.log|..])
    decreases |ops|
  {
    if |ops| > 0 {
      var b := Apply(a, ops[0], host);
      ApplyFollowsShape(a, ops[0], host);
      NestedRunIsClean(b, ops[1..], host);
      CleanGrowth(a.log, b.log, Run(b, ops[1..], host).log);
    }
  }

  /** A log that grew twice without a structural error grew once without. */
  lemma CleanGrowth(x: seq<Report>, y: seq<Report>, z: seq<Report>)
    requires x <= y <= z && NoStructural(y[|x|..]) && NoStructural(z[|y|..])
    ensures NoStructural(z[|x|..])
  {
    forall k | 0 <= k < |z| - |x| ensures !Structural(z[|x|..][k]) {
      if k < |y| - |x| {
        assert z[|x|..][k] == y[|x|..][k];
      } else {
        assert z[|x|..][k] == z[|y|..][k - (|y| - |x|)];
      }
    }
  }

  /** Putting slots underneath changes nothing for a sequence that never
      pops the slot it starts in. */
  lemma {:induction false} NestedUnder(ops: seq<Op>, p: seq<nat>, st: seq<nat>)
    requires 1 <= |st| && Inner(ops) && WellNested(ops, st)
    ensures WellNested(ops, p + st) && After(ops, p + st) == p + After(ops, st)
    decreases |ops|
  {
    if |ops| > 0 {
      StepUnder(ops[0], p, st);
      assert Inner(ops[1..]);
      NestedUnder(ops[1..], p, Next(ops[0], st).value);
    }
  }

  /** One step of an operation that neither opens nor closes the stream,
      under further slots. */
  lemma StepUnder(op: Op, p: seq<nat>, st: seq<nat>)
    requires 1 <= |st| && !op.OpenStream? && !op.CloseStream? && Next(op, st).Some?
    ensures Next(op, p + st) == Some(p + Next(op, st).value)
  {
    if op.BeginFrame? || op.FinishFrame? {
      assert Last(p + st) == Last(st);
      WithLastUnder(p, st, if op.BeginFrame? then Last(st) + 1 else Last(st) - 1);
    } else if op.BeginEmbed? {
      assert (p + st) + [0] == p + (st + [0]);
    } else if op.FinishEmbed? {
      assert (p + st)[..|p + st| - 1] == p + st[..|st| - 1];
    }
  }

  lemma WithLastUnder(p: seq<nat>, st: seq<nat>, k: nat)
    requires 1 <= |st|
    ensures WithLast(p + st, k) == p + WithLast(st, k)
  {
    assert (p + st)[..|p + st| - 1] == p + st[..|st| - 1];
  }

  /** Shifts the open-frame count of the bottom slot. */
  function Raise(st: seq<nat>, d: nat): (r: seq<nat>)
    requires 1 <= |st|
    ensures |r| == |st|
  {
    st[0 := st[0] + d]
  }

  /** More frames open in the bottom slot changes nothing either. */
  lemma {:induction false} NestedRaised(ops: seq<Op>, st: seq<nat>, d: nat)
    requires 1 <= |st| && Inner(ops) && WellNested(ops, st)
    ensures WellNested(ops, Raise(st, d)) && After(ops, Raise(st, d)) == Raise(After(ops, st), d)
    decreases |ops|
  {
    if |ops| > 0 {
      StepRaised(ops[0], st, d);
      assert Inner(ops[1..]);
      NestedRaised(ops[1..], Next(ops[0], st).value, d);
    }
  }

  /** One step of an operation that neither opens nor closes the stream,
      with more frames open in the bottom slot. */
  lemma StepRaised(op: Op, st: seq<nat>, d: nat)
    requires 1 <= |st| && !op.OpenStream? && !op.CloseStream? && Next(op, st).Some?
    ensures Next(op, Raise(st, d)) == Some(Raise(Next(op, st).value, d))
  {
    var r := Raise(st, d);
    if op.BeginFrame? || op.FinishFrame? {
      var k := if op.BeginFrame? then Last(st) + 1 else Last(st) - 1;
      if |st| == 1 {
        assert Last(r) == Last(st) + d;
        assert WithLast(r, k + d) == [k + d];
        assert WithLast(st, k) == [k];
        assert Raise([k], d) == [k + d];
      } else {
        assert Last(r) == Last(st);
        assert r[..|r| - 1] == Raise(st[..|st| - 1], d);
        assert WithLast(r, k) == Raise(WithLast(st, k), d);
      }
    } else if op.BeginEmbed? {
      assert r + [0] == Raise(st + [0], d);
    } else if op.FinishEmbed? {
      assert r[..|r| - 1] == Raise(st[..|st| - 1], d);
    }
  }

  /** A balanced sequence without open or close may run on top of any shape. */
  lemma BalancedAnywhere(ops: seq<Op>, st: seq<nat>)
    requires 1 <= |st| && Inner(ops) && Balanced(ops)
    ensures WellNested(ops, st) && After(ops, st) == st
  {
    NestedRaised(ops, [0], Last(st));
    assert Raise([0], Last(st)) == [Last(st)];
    NestedUnder(ops, st[..|st| - 1], [Last(st)]);
    assert st[..|st| - 1] + [Last(st)] == st;
  }

  lemma InnerConcat(xs: seq<Op>, ys: seq<Op>)
    ensures Inner(xs + ys) <==> Inner(xs) && Inner(ys)
  {
    if Inner(xs) && Inner(ys) {
      forall k | 0 <= k < |xs + ys|
        ensures !(xs + ys)[k].OpenStream? && !(xs + ys)[k].CloseStream?
      {
        if k < |xs| { assert (xs + ys)[k] == xs[k]; } else { assert (xs + ys)[k] == ys[k - |xs|]; }
      }
    }
    if Inner(xs + ys) {
      forall k | 0 <= k < |xs| ensures !xs[k].OpenStream? && !xs[k].CloseStream? {
        assert (xs + ys)[k] == xs[k];
      }
      forall k | 0 <= k < |ys| ensures !ys[k].OpenStream? && !ys[k].CloseStream? {
        assert (xs + ys)[|xs| + k] == ys[k];
      }
    }
  }

  lemma BalancedConcat(xs: seq<Op>, ys: seq<Op>)
    requires Balanced(xs) && Balanced(ys)
    ensures Balanced(xs + ys)
  {
    NestedConcat(xs, ys, [0]);
  }
}
