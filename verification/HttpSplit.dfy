/** Cutting the input anywhere does not change what the parser does. */
module HttpSplit {
  import opened Ascii
  import opened HttpTypes
  import opened HttpTrans
  import opened HttpCalls

  /** A trace with the bytes of an open mark added to it. */
  function View(t: seq<Event>, e: Element, bytes: seq<Byte>): seq<Event> {
    if bytes == [] then t else Append(t, e, bytes)
  }

  /** `x` are marks and callbacks inside a long buffer at position `i`; `y` are those of a call
      that sees only the byte at `i`. They differ by the bytes since the open mark. */
  predicate Sim(open: Open, x: Out, y: Out, data: seq<Byte>, i: nat) {
    match open
    case Closed => x.marks == map[] && y.marks == map[] && x.trace == y.trace
    case Opened(e) =>
      e in x.marks && x.marks == map[e := x.marks[e]] && x.marks[e] <= i <= |data|
      && y.marks == map[e := 0] && y.trace == View(x.trace, e, data[x.marks[e]..i])
    case Lent(e) =>
      e in x.marks && x.marks == map[e := x.marks[e]] && x.marks[e] < i <= |data|
      && y.marks == map[] && y.trace == View(x.trace, e, data[x.marks[e]..i])
  }

  lemma ViewAppend(t: seq<Event>, e: Element, a: seq<Byte>, b: seq<Byte>)
    ensures Append(View(t, e, a), e, b) == Append(t, e, a + b)
  {
    if a == [] {
      assert a + b == b;
    } else {
      AppendTwice(t, e, a, b);
    }
  }

  lemma {:induction false} FlushSim(open: Open, x: Out, y: Out, data: seq<Byte>, i: nat, k: nat)
    requires i < |data| && Sim(open, x, y, data, i) && k <= 1 && !open.Closed? && (k == 1 ==> open.Opened?)
    ensures Sim(Closed, x.FlushTo(open.e, data, i + k), y.FlushTo(open.e, [data[i]], k), data, i)
  {
    var e := open.e;
    var j := x.marks[e];
    var b := [data[i]];
    assert x.marks - {e} == map[] && y.marks - {e} == map[];
    assert Slice(b, 0, k) == b[..k];
    assert data[j..i] + b[..k] == data[j..i + k];
    ViewAppend(x.trace, e, data[j..i], b[..k]);
  }

  lemma {:induction false} DoSim(a: Action, open: Open, x: Out, y: Out, data: seq<Byte>, i: nat)
    requires i < |data| && Sim(open, x, y, data, i) && LegalAct(open, a)
    ensures Sim(OpenAct(open, a), x.Do(a, data, i), y.Do(a, [data[i]], 0), data, i)
  {
    match a
    case Mark(e) =>
    case Flush(e) => if !open.Closed? { FlushSim(open, x, y, data, i, 0); }
    case FlushIncluding(e) => FlushSim(open, x, y, data, i, 1);
    case Notify(n) =>
  }

  lemma {:induction false} DoAllSim(acts: Script, open: Open, x: Out, y: Out, data: seq<Byte>, i: nat)
    requires i < |data| && Sim(open, x, y, data, i) && Legal(open, acts)
    ensures Sim(OpenAfter(open, acts), x.DoAll(acts, data, i), y.DoAll(acts, [data[i]], 0), data, i)
    decreases acts
  {
    if acts.Act? {
      DoSim(acts.a, open, x, y, data, i);
      DoAllSim(acts.rest, OpenAct(open, acts.a), x.Do(acts.a, data, i), y.Do(acts.a, [data[i]], 0), data, i);
    }
  }

  /** Closing marks at the end of a buffer: at most one is set. */
  lemma CloseOpen(open: Open, x: Out, y: Out, data: seq<Byte>)
    requires Sim(open, x, y, data, |data|)
    ensures |x.marks| <= 1
    ensures x.Close(data) == if open.Closed? then x.trace else Append(x.trace, open.e, data[x.marks[open.e]..])
  {
    if !open.Closed? {
      assert x.marks.Keys == {open.e};
      assert x.marks - {open.e} == map[];
      assert data[x.marks[open.e]..|data|] == data[x.marks[open.e]..];
      match open.e
      case OnUrl =>
      case OnStatus =>
      case OnField =>
      case OnValue =>
      case OnBody =>
    }
  }

  predicate MarksBefore(open: Open, x: Out, i: nat) {
    open.Closed? || (open.e in x.marks && x.marks[open.e] < i)
  }

  function NextOpen(open: Open): Open {
    if open == Opened(OnBody) then Lent(OnBody) else open
  }

  lemma {:induction false} ByteSim(cfg: Config, q: Parser, open: Open, x: Out, trace: seq<Event>, data: seq<Byte>, i: nat)
    returns (open': Open)
    requires i < |data| && MayStart(q.state, open) && Sim(open, x, Out(StartMarks(q.state), trace), data, i)
    ensures
      match After(Turn(cfg, q, data[i]), x, data, i)
      case Running(p, x') =>
        Call(cfg, Machine(q, trace), [data[i]]).Ready? &&
        var m' := Call(cfg, Machine(q, trace), [data[i]]).m;
        m'.p == p && MayStart(p.state, open') && Sim(open', x', Out(StartMarks(p.state), m'.trace), data, i + 1) &&
        MarksBefore(open', x', i + 1)
      case Quitted(p, t, at) => at == i + 1 && Call(cfg, Machine(q, trace), [data[i]]) == Left(Machine(p, t), 1)
      case Failed(err) => Call(cfg, Machine(q, trace), [data[i]]) == Broken(err)
      case Crashed => Call(cfg, Machine(q, trace), [data[i]]) == Aborted
  {
    hide Turn;
    var b := [data[i]];
    var o := Turn(cfg, q, data[i]);
    open' := Closed;
    TurnWellMarked(cfg, q, data[i], open);
    var y := Out(StartMarks(q.state), trace);
    assert Bytes(cfg, q, trace, b, 1) == After(o, y, b, 0);
    if o.Next? || o.Quit? {
      DoAllSim(o.acts, open, x, y, data, i);
      if o.Next? {
        open' := NextOpen(OpenAfter(open, o.acts));
        NextByte(o.p.state, OpenAfter(open, o.acts), x.DoAll(o.acts, data, i), y.DoAll(o.acts, b, 0), data, i);
      }
    }
  }

  lemma {:induction false} NextByte(s: State, open: Open, x: Out, y: Out, data: seq<Byte>, i: nat)
    requires i < |data| && Fits(s, open) && Sim(open, x, y, data, i)
    ensures MayStart(s, NextOpen(open))
    ensures Sim(NextOpen(open), x, Out(StartMarks(s), y.Close([data[i]])), data, i + 1)
    ensures MarksBefore(NextOpen(open), x, i + 1)
  {
    var b := [data[i]];
    if open.Closed? {
    } else {
      var j := x.marks[open.e];
      assert y.marks - {open.e} == map[];
      assert Slice(b, 0, 1) == b;
      ViewAppend(x.trace, open.e, data[j..i], b);
      assert data[j..i] + b == data[j..i + 1];
    }
  }

  lemma {:induction false} BytesSim(cfg: Config, m: Machine, data: seq<Byte>, i: nat) returns (open: Open)
    requires i <= |data|
    ensures
      match Bytes(cfg, m.p, m.trace, data, i)
      case Running(p, x) =>
        Run(cfg, m, data[..i]).Ready? &&
        var m' := Run(cfg, m, data[..i]).m;
        m'.p == p && MayStart(p.state, open) && Sim(open, x, Out(StartMarks(p.state), m'.trace), data, i) &&
        (i > 0 ==> MarksBefore(open, x, i))
      case Quitted(p, t, at) => Run(cfg, m, data[..i]) == Left(Machine(p, t), at)
      case Failed(err) => Run(cfg, m, data[..i]) == Broken(err)
      case Crashed => Run(cfg, m, data[..i]) == Aborted
  {
    hide Turn, Call;
    if i == 0 {
      open := StateOpen(m.p.state);
      assert data[..0] == [];
    } else {
      open := BytesSim(cfg, m, data, i - 1);
      assert data[..i][..i - 1] == data[..i - 1];
      assert data[..i][i - 1..] == [data[i - 1]];
      var before := Bytes(cfg, m.p, m.trace, data, i - 1);
      if before.Running? {
        open := ByteSim(cfg, before.p, open, before.out, Run(cfg, m, data[..i - 1]).m.trace, data, i - 1);
      }
    }
  }

  /** A call on a whole buffer does what one call per byte does: same parser, same notifications,
      same early return, same error. */
  lemma {:induction false} CallIsRun(cfg: Config, m: Machine, data: seq<Byte>)
    requires data != []
    ensures Call(cfg, m, data) == Run(cfg, m, data)
  {
    hide Turn, Run;
    var open := BytesSim(cfg, m, data, |data|);
    assert data[..|data|] == data;
    var r := Bytes(cfg, m.p, m.trace, data, |data|);
    if r.Running? {
      var y := Out(StartMarks(r.p.state), Run(cfg, m, data).m.trace);
      CloseOpen(open, r.out, y, data);
      if !open.Closed? {
        assert data[r.out.marks[open.e]..|data|] == data[r.out.marks[open.e]..];
      }
    }
  }

  /** The last assertion of the source: a call that runs to its end leaves at most one mark open. */
  lemma {:induction false} OneMark(cfg: Config, m: Machine, data: seq<Byte>)
    ensures var r := Bytes(cfg, m.p, m.trace, data, |data|); r.Running? ==> |r.out.marks| <= 1
  {
    hide Turn, Run, Bytes;
    var open := BytesSim(cfg, m, data, |data|);
    assert data[..|data|] == data;
    var r := Bytes(cfg, m.p, m.trace, data, |data|);
    if r.Running? {
      CloseOpen(open, r.out, Out(StartMarks(r.p.state), Run(cfg, m, data).m.trace), data);
    }
  }

  /** Feeding more bytes after `a`: nothing happens any more once the parser has stopped. */
  function AndThen(cfg: Config, r: Fed, k: nat, b: seq<Byte>): Fed {
    if r.Ready? then Shift(Run(cfg, r.m, b), k) else r
  }

  lemma {:induction false} RunConcat(cfg: Config, m: Machine, a: seq<Byte>, b: seq<Byte>)
    ensures Run(cfg, m, a + b) == AndThen(cfg, Run(cfg, m, a), |a|, b)
    decreases |b|
  {
    hide Call;
    if b == [] {
      assert a + b == a;
    } else {
      var k := |b| - 1;
      assert (a + b)[..|a + b| - 1] == a + b[..k];
      assert (a + b)[|a + b| - 1..] == b[k..];
      RunConcat(cfg, m, a, b[..k]);
    }
  }

  /** Read-split invariance: cutting a stream into nonempty pieces and making one call per piece
      ends in the same state with the same notifications as one call on the whole stream. */
  lemma {:induction false} SplitInvariance(cfg: Config, m: Machine, pieces: seq<seq<Byte>>)
    requires forall i :: 0 <= i < |pieces| ==> pieces[i] != []
    ensures Calls(cfg, m, pieces) == Run(cfg, m, Joined(pieces))
    ensures pieces != [] ==> Calls(cfg, m, pieces) == Call(cfg, m, Joined(pieces))
    decreases |pieces|
  {
    hide Call;
    if pieces != [] {
      var k := |pieces| - 1;
      SplitInvariance(cfg, m, pieces[..k]);
      RunConcat(cfg, m, Joined(pieces[..k]), pieces[k]);
      var r := Run(cfg, m, Joined(pieces[..k]));
      if r.Ready? {
        CallIsRun(cfg, r.m, pieces[k]);
      }
      CallIsRun(cfg, m, Joined(pieces));
    }
  }
}
