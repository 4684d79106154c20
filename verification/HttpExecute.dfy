/** `http_parser_execute` with its bulk loops, proved against the byte-at-a-time behaviour. */
module HttpExecute {
  import opened Ascii
  import opened Options
  import opened HttpTypes
  import opened HttpTrans
  import opened HttpCalls
  import opened HttpSplit
  import opened HttpInvariant

  /** Counting ahead: after the bytes up to `i` the parser is `q` with `n` header bytes read, or the
      byte-at-a-time parser has already failed because that is more than allowed. */
  ghost predicate Reached(cfg: Config, m: Machine, data: seq<Byte>, i: nat, q: Parser, n: nat, out: Out) {
    i <= |data| &&
    var r := Bytes(cfg, m.p, m.trace, data, i);
    r == if n <= cfg.maxHeader then Running(q.(nread := n), out) else Failed(HeaderOverflow)
  }

  /** The byte-at-a-time parser fails too, with the same error unless the header limit stops it first. */
  predicate FailsToo(r: Progress, err: Errno) { r == Failed(err) || r == Failed(HeaderOverflow) }

  lemma {:induction false} StoppedStays(cfg: Config, m: Machine, data: seq<Byte>, i: nat, j: nat)
    requires i <= j <= |data| && !Bytes(cfg, m.p, m.trace, data, i).Running?
    ensures Bytes(cfg, m.p, m.trace, data, j) == Bytes(cfg, m.p, m.trace, data, i)
    decreases j
  {
    hide Turn;
    if i < j {
      StoppedStays(cfg, m, data, i, j - 1);
    }
  }

  lemma {:induction false} CountByte(cfg: Config, m: Machine, data: seq<Byte>, i: nat, q: Parser, n: nat, out: Out)
    requires Reached(cfg, m, data, i, q, n, out) && i < |data| && !q.state.InBody? && n + 1 < U32
    ensures
      var r := Bytes(cfg, m.p, m.trace, data, i + 1);
      if n + 1 > cfg.maxHeader then r == Failed(HeaderOverflow)
      else r == After(Trans(cfg, q.(nread := n + 1), data[i]), out, data, i)
  {
    hide Trans;
  }

  lemma {:induction false} FieldByte(cfg: Config, m: Machine, data: seq<Byte>, i: nat, q: Parser, n: nat, out: Out)
    requires Reached(cfg, m, data, i, q, n, out) && i < |data| && n + 1 < U32
    requires q.state == InHeader(FieldName) && IsFieldMatcher(q.matcher) && Token(data[i]) != 0
    ensures Reached(cfg, m, data, i + 1, FieldChar(q, data[i]), n + 1, out)
  {
    hide Bytes, Turn;
    CountByte(cfg, m, data, i, q, n, out);
    FieldCharKeeps(q, n + 1, data[i]);
  }

  lemma {:induction false} FieldCharKeeps(q: Parser, n: nat, ch: Byte)
    ensures FieldChar(q.(nread := n), ch) == FieldChar(q, ch).(nread := n)
    ensures FieldChar(q, ch).state == q.state && FieldChar(q, ch).nread == q.nread
    ensures IsFieldMatcher(q.matcher) ==> IsFieldMatcher(FieldChar(q, ch).matcher)
  {
    hide Literal, IsAt;
  }

  /** The loop over a header name, with its inner loop over plain token bytes. The parser it
      returns has not counted the bytes read. */
  method FieldRun(cfg: Config, data: seq<Byte>, start: nat, q0: Parser, ghost m: Machine, ghost b: nat, ghost out: Out)
    returns (q: Parser, p: nat)
    requires Reached(cfg, m, data, start, q0, b, out) && b + |data| - start < U32
    requires q0.state == InHeader(FieldName) && IsFieldMatcher(q0.matcher) && start < |data|
    ensures start <= p <= |data| && (p < |data| ==> Token(data[p]) == 0)
    ensures q.state == q0.state && q.nread == q0.nread && Reached(cfg, m, data, p, q, b + p - start, out)
  {
    hide Bytes, FieldChar, Reached;
    p := start;
    q := q0;
    while p < |data| && Token(data[p]) != 0
      invariant start <= p <= |data|
      invariant q.state == q0.state && q.nread == q0.nread && IsFieldMatcher(q.matcher)
      invariant Reached(cfg, m, data, p, q, b + p - start, out)
    {
      if q.matcher.General? {
        var pe := p + if |data| - p < cfg.maxHeader then |data| - p else cfg.maxHeader;
        GeneralStays(q, data[p]);
        while p + 1 < pe && Token(data[p + 1]) != 0
          invariant start <= p < |data| && pe <= |data| && Token(data[p]) != 0
          invariant Reached(cfg, m, data, p, q, b + p - start, out)
        {
          GeneralStays(q, data[p]);
          FieldByte(cfg, m, data, p, q, b + p - start, out);
          p := p + 1;
        }
        GeneralStays(q, data[p]);
        FieldByte(cfg, m, data, p, q, b + p - start, out);
      } else {
        FieldByte(cfg, m, data, p, q, b + p - start, out);
        FieldCharKeeps(q, 0, data[p]);
        q := FieldChar(q, data[p]);
      }
      p := p + 1;
    }
  }

  lemma GeneralStays(q: Parser, ch: Byte)
    requires q.matcher.General?
    ensures FieldChar(q, ch) == q
  {
  }

  /** A byte of a header value changes neither state nor count, and does not look at the count. */
  lemma {:induction false} ValueCharKeeps(q: Parser, n: nat, ch: Byte)
    requires IsValueMatcher(q.matcher)
    ensures
      match ValueChar(q, ch)
      case Next(p, acts) =>
        acts == Nil && p.state == q.state && p.nread == q.nread && IsValueMatcher(p.matcher)
        && ValueChar(q.(nread := n), ch) == Next(p.(nread := n), Nil)
      case Fail(e) => ValueChar(q.(nread := n), ch) == Fail(e)
      case _ => false
  {
    hide ListChar;
    ListCharMatcher(q.matcher, q.index, ch);
  }

  lemma {:induction false} ListCharMatcher(m: Matcher, index: nat, ch: Byte)
    ensures IsValueMatcher(m) ==> IsValueMatcher(ListChar(m, index, ch).matcher)
  {
    hide Literal, IsAt;
  }

  /** What one byte of a header value does, the count of header bytes apart. */
  lemma {:induction false} ValueByte(cfg: Config, m: Machine, data: seq<Byte>, i: nat, q: Parser, n: nat, out: Out)
    requires Reached(cfg, m, data, i, q, n, out) && i < |data| && n + 1 < U32
    requires q.state == InHeader(ValueText) && IsValueMatcher(q.matcher) && !IsEol(data[i])
    ensures
      var o := ValueChar(q, data[i]);
      if !cfg.lenient && !IsHeaderChar(data[i]) then FailsToo(Bytes(cfg, m.p, m.trace, data, i + 1), InvalidHeaderToken)
      else if o.Next? then Reached(cfg, m, data, i + 1, o.p, n + 1, out)
      else o.Fail? && FailsToo(Bytes(cfg, m.p, m.trace, data, i + 1), o.err)
  {
    hide Bytes, Turn, ValueChar;
    CountByte(cfg, m, data, i, q, n, out);
    ValueCharKeeps(q, n + 1, data[i]);
  }

  datatype Stop = AtEnd | AtCr | AtLf | Bad(err: Errno)

  /** The loop over a header value, with its inner loop over plain text. That inner loop looks at no
      more than `maxHeader` bytes and then steps over one byte unseen; this is harmless because the
      header count has passed the limit by then. */
  method ValueRun(cfg: Config, data: seq<Byte>, start: nat, q0: Parser, ghost m: Machine, ghost b: nat, ghost out: Out)
    returns (q: Parser, p: nat, stop: Stop)
    requires Reached(cfg, m, data, start, q0, b, out) && b + |data| - start < U32
    requires q0.state == InHeader(ValueText) && IsValueMatcher(q0.matcher) && cfg.maxHeader > 0 && start < |data|
    ensures start <= p <= |data| && q.state == q0.state && q.nread == q0.nread && IsValueMatcher(q.matcher)
    ensures
      match stop
      case AtEnd => p == |data| > start && Reached(cfg, m, data, p, q, b + p - start, out)
      case AtCr => p < |data| && data[p] == CR && Reached(cfg, m, data, p, q, b + p - start, out)
      case AtLf => p < |data| && data[p] == LF && Reached(cfg, m, data, p, q, b + p - start, out)
      case Bad(err) => FailsToo(Bytes(cfg, m.p, m.trace, data, |data|), err)
  {
    hide Bytes, ValueChar, Reached;
    p := start;
    q := q0;
    while p < |data|
      invariant start <= p <= |data|
      invariant q.state == q0.state && q.nread == q0.nread && IsValueMatcher(q.matcher)
      invariant Reached(cfg, m, data, p, q, b + p - start, out)
    {
      if data[p] == CR { return q, p, AtCr; }
      if data[p] == LF { return q, p, AtLf; }
      ValueByte(cfg, m, data, p, q, b + p - start, out);
      if !cfg.lenient && !IsHeaderChar(data[p]) {
        StoppedStays(cfg, m, data, p + 1, |data|);
        return q, p, Bad(InvalidHeaderToken);
      }
      if q.matcher.General? {
        var pe := p + if |data| - p < cfg.maxHeader then |data| - p else cfg.maxHeader;
        ghost var from := p;
        while p != pe && !IsEol(data[p])
          invariant from <= p <= pe <= |data|
          invariant p == from ==> !IsEol(data[p])
          invariant Reached(cfg, m, data, p, q, b + p - start, out)
          decreases pe - p
        {
          ValueByte(cfg, m, data, p, q, b + p - start, out);
          if !cfg.lenient && !IsHeaderChar(data[p]) {
            StoppedStays(cfg, m, data, p + 1, |data|);
            return q, p, Bad(InvalidHeaderToken);
          }
          GeneralValue(q, data[p]);
          p := p + 1;
        }
        if p != pe || p == |data| {
          p := p - 1;
        } else {
          OverLimit(cfg, m, data, p, q, b + p - start, out);
        }
      } else {
        ValueCharKeeps(q, 0, data[p]);
        var o := ValueChar(q, data[p]);
        if o.Fail? {
          StoppedStays(cfg, m, data, p + 1, |data|);
          return q, p, Bad(o.err);
        }
        q := o.p;
      }
      p := p + 1;
    }
    stop := AtEnd;
  }

  lemma GeneralValue(q: Parser, ch: Byte)
    requires q.matcher.General?
    ensures ValueChar(q, ch) == Next(q, Nil)
  {
  }

  /** With the limit reached, one more header byte fails whatever it is. */
  lemma {:induction false} OverLimit(cfg: Config, m: Machine, data: seq<Byte>, i: nat, q: Parser, n: nat, out: Out)
    requires Reached(cfg, m, data, i, q, n, out) && i < |data| && !q.state.InBody? && cfg.maxHeader <= n && n + 1 < U32
    ensures Reached(cfg, m, data, i + 1, q, n + 1, out)
  {
    CountByte(cfg, m, data, i, q, n, out);
  }

  lemma {:induction false} BodyTurn(cfg: Config, q: Parser, ch: Byte)
    requires q.state.InBody?
    ensures q.state.body.BodyIdentity? && 1 < q.length < NO_LENGTH ==>
              Turn(cfg, q, ch) == Next(q.(length := q.length - 1), One(Mark(OnBody)))
    ensures q.state.body.ChunkData? && q.flags.chunked && 1 < q.length < NO_LENGTH ==>
              Turn(cfg, q, ch) == Next(q.(length := q.length - 1), One(Mark(OnBody)))
    ensures q.state.body.BodyIdentityEof? ==> Turn(cfg, q, ch) == Next(q, One(Mark(OnBody)))
  {
    hide AtMessageDone;
  }

  lemma MarkOnce(out: Out, data: seq<Byte>, i: nat, j: nat)
    ensures out.DoAll(One(Mark(OnBody)), data, i) == out.Do(Mark(OnBody), data, i)
    ensures out.Do(Mark(OnBody), data, i).DoAll(One(Mark(OnBody)), data, j) == out.Do(Mark(OnBody), data, i)
  {
  }

  /** The bytes of a body but the last: one mark, and the length counted down. */
  lemma {:induction false} BodyBytes(cfg: Config, m: Machine, data: seq<Byte>, i: nat, k: nat, q: Parser, out: Out)
    requires 1 <= k < q.length < NO_LENGTH && i + k <= |data|
    requires q.state == InBody(BodyIdentity) || (q.state == InBody(ChunkData) && q.flags.chunked)
    requires Bytes(cfg, m.p, m.trace, data, i) == Running(q, out)
    ensures Bytes(cfg, m.p, m.trace, data, i + k) == Running(q.(length := q.length - k), out.Do(Mark(OnBody), data, i))
    decreases k
  {
    hide Turn;
    MarkOnce(out, data, i, i + k - 1);
    BodyTurn(cfg, q.(length := q.length - (k - 1)), data[i + k - 1]);
    if k > 1 {
      BodyBytes(cfg, m, data, i, k - 1, q, out);
    }
  }

  /** The bytes of a body that ends with the connection. */
  lemma {:induction false} EofBytes(cfg: Config, m: Machine, data: seq<Byte>, i: nat, k: nat, q: Parser, out: Out)
    requires 1 <= k && i + k <= |data| && q.state == InBody(BodyIdentityEof)
    requires Bytes(cfg, m.p, m.trace, data, i) == Running(q, out)
    ensures Bytes(cfg, m.p, m.trace, data, i + k) == Running(q, out.Do(Mark(OnBody), data, i))
    decreases k
  {
    hide Turn;
    MarkOnce(out, data, i, i + k - 1);
    BodyTurn(cfg, q, data[i + k - 1]);
    if k > 1 {
      EofBytes(cfg, m, data, i, k - 1, q, out);
    }
  }

  /** How many bytes a bulk copy takes. */
  function ToRead(length: nat, left: nat): nat {
    if length < left then length else left
  }

  /** COUNT_HEADER_SIZE: the 32-bit counter after `v` more bytes. */
  function Counted(nread: nat, v: nat): nat { (nread + v % U32) % U32 }

  /** Where one turn of the main loop leaves the call. */
  datatype Turned = Moved(q: Parser, out: Out, i: nat) | Leave(q: Parser, trace: seq<Event>, i: nat) | Error(err: Errno)

  ghost predicate Agrees(cfg: Config, m: Machine, data: seq<Byte>, t: Turned) {
    match t
    case Moved(q, out, i) => i <= |data| && Bytes(cfg, m.p, m.trace, data, i) == Running(q, out)
    case Leave(q, trace, i) => i <= |data| && Bytes(cfg, m.p, m.trace, data, |data|) == Quitted(q, trace, i)
    case Error(err) => FailsToo(Bytes(cfg, m.p, m.trace, data, |data|), err)
  }

  /** The byte after a header name. */
  lemma {:induction false} FieldDelim(cfg: Config, m: Machine, data: seq<Byte>, i: nat, q: Parser, n: nat, out: Out)
    requires Reached(cfg, m, data, i, q, n, out) && i < |data| && n + 1 < U32
    requires q.state == InHeader(FieldName) && Token(data[i]) == 0
    ensures
      var r := Bytes(cfg, m.p, m.trace, data, i + 1);
      if n + 1 <= cfg.maxHeader && data[i] == COLON
      then r == Running(q.(nread := n + 1, state := InHeader(DiscardWs)), out.FlushTo(OnField, data, i))
      else r == Failed(if n + 1 > cfg.maxHeader then HeaderOverflow else InvalidHeaderToken)
  {
    hide Bytes, TransLine, AtUrl, AtStatus, TransSize, TransBody;
    CountByte(cfg, m, data, i, q, n, out);
  }

  /** The end of a line of header text. */
  lemma {:induction false} ValueDelim(cfg: Config, m: Machine, data: seq<Byte>, i: nat, q: Parser, n: nat, out: Out)
    requires Reached(cfg, m, data, i, q, n, out) && i < |data| && n + 1 < U32
    requires q.state == InHeader(ValueText) && IsEol(data[i])
    ensures
      var r := Bytes(cfg, m.p, m.trace, data, i + 1);
      var next := if data[i] == CR then HeaderAlmostDone else ValueLws;
      if n + 1 <= cfg.maxHeader
      then r == Running(q.(nread := n + 1, state := InHeader(next)), out.FlushTo(OnValue, data, i))
      else r == Failed(HeaderOverflow)
  {
    hide Bytes, TransLine, AtUrl, AtStatus, TransSize, TransBody;
    CountByte(cfg, m, data, i, q, n, out);
  }

  /** `s_header_field`, the byte at `start` already counted. */
  method FieldTurn(cfg: Config, data: seq<Byte>, start: nat, q0: Parser, out: Out, ghost m: Machine)
    returns (t: Turned)
    requires start < |data| && 0 < q0.nread && q0.nread + |data| < U32 && q0.nread <= cfg.maxHeader
    requires Reached(cfg, m, data, start, q0, q0.nread - 1, out)
    requires q0.state == InHeader(FieldName) && IsFieldMatcher(q0.matcher)
    ensures Agrees(cfg, m, data, t) && (t.Moved? ==> t.i > start)
  {
    hide Bytes, IsFieldMatcher, Out.FlushTo;
    ghost var b := q0.nread - 1;
    var q, p := FieldRun(cfg, data, start, q0, m, b, out);
    if p == |data| {
      var n := Counted(q.nread, p - 1 - start);
      if n > cfg.maxHeader { return Error(HeaderOverflow); }
      return Moved(q.(nread := n), out, p);
    }
    FieldDelim(cfg, m, data, p, q, b + p - start, out);
    var n := Counted(q.nread, p - start);
    if n > cfg.maxHeader {
      StoppedStays(cfg, m, data, p + 1, |data|);
      return Error(HeaderOverflow);
    }
    if data[p] == COLON {
      return Moved(q.(nread := n, state := InHeader(DiscardWs)), out.FlushTo(OnField, data, p), p + 1);
    }
    StoppedStays(cfg, m, data, p + 1, |data|);
    return Error(InvalidHeaderToken);
  }

  /** `s_header_value`, the byte at `start` already counted. */
  method ValueTurn(cfg: Config, data: seq<Byte>, start: nat, q0: Parser, out: Out, ghost m: Machine)
    returns (t: Turned)
    requires start < |data| && 0 < q0.nread && q0.nread + |data| < U32 && q0.nread <= cfg.maxHeader
    requires Reached(cfg, m, data, start, q0, q0.nread - 1, out)
    requires q0.state == InHeader(ValueText) && IsValueMatcher(q0.matcher)
    ensures Agrees(cfg, m, data, t) && (t.Moved? ==> t.i > start)
  {
    hide Bytes, ValueChar;
    ghost var b := q0.nread - 1;
    var q, p, stop := ValueRun(cfg, data, start, q0, m, b, out);
    if stop.Bad? { return Error(stop.err); }
    if stop.AtEnd? {
      var n := Counted(q.nread, p - 1 - start);
      if n > cfg.maxHeader { return Error(HeaderOverflow); }
      return Moved(q.(nread := n), out, p);
    }
    ValueDelim(cfg, m, data, p, q, b + p - start, out);
    var n := Counted(q.nread, p - start);
    if n > cfg.maxHeader {
      StoppedStays(cfg, m, data, p + 1, |data|);
      return Error(HeaderOverflow);
    }
    var next := if stop.AtCr? then HeaderAlmostDone else ValueLws;
    return Moved(q.(nread := n, state := InHeader(next)), out.FlushTo(OnValue, data, p), p + 1);
  }

  /** Any state without a bulk loop. */
  method PlainTurn(cfg: Config, data: seq<Byte>, i: nat, q: Parser, out: Out, ghost m: Machine) returns (t: Turned)
    requires i < |data|
    requires Bytes(cfg, m.p, m.trace, data, i + 1) == After(Trans(cfg, q, data[i]), out, data, i)
    requires !Bytes(cfg, m.p, m.trace, data, i + 1).Crashed?
    ensures Agrees(cfg, m, data, t) && (t.Moved? ==> t.i > i)
  {
    hide Bytes, Trans;
    var o := Trans(cfg, q, data[i]);
    match o
    case Next(p, acts) => return Moved(p, out.DoAll(acts, data, i), i + 1);
    case Quit(p, acts) =>
      StoppedStays(cfg, m, data, i + 1, |data|);
      return Leave(p, out.DoAll(acts, data, i).trace, i + 1);
    case Fail(err) =>
      StoppedStays(cfg, m, data, i + 1, |data|);
      return Error(err);
    case Asserted => assert false;
  }

  /** `s_body_identity` and `s_chunk_data`: take as many bytes as the length and the buffer allow. */
  method BodyTake(cfg: Config, data: seq<Byte>, i: nat, q: Parser, out: Out, ghost m: Machine) returns (t: Turned)
    requires i < |data| && Bytes(cfg, m.p, m.trace, data, i) == Running(q, out)
    requires q.state == InBody(BodyIdentity) || (q.state == InBody(ChunkData) && q.flags.chunked)
    requires 0 < q.length < NO_LENGTH
    ensures Agrees(cfg, m, data, t) && (t.Moved? ==> t.i > i)
  {
    hide Turn, Bytes, AtMessageDone;
    var k := ToRead(q.length, |data| - i);
    var p := i + k - 1;
    var left := q.(length := q.length - k);
    var marked := out.Do(Mark(OnBody), data, i);
    if left.length > 0 {
      BodyBytes(cfg, m, data, i, k, q, out);
      return Moved(left, marked, p + 1);
    }
    LastBodyByte(cfg, m, data, i, q, out);
    if q.state.body.ChunkData? {
      return Moved(left.(state := InBody(ChunkDataAlmostDone)), marked, p + 1);
    }
    var flushed := marked.FlushTo(OnBody, data, p + 1);
    var o := AtMessageDone(left);
    MessageDoneOutcome(left);
    if o.Quit? {
      StoppedStays(cfg, m, data, p + 1, |data|);
      return Leave(o.p, flushed.DoAll(o.acts, data, p).trace, p + 1);
    }
    return Moved(o.p, flushed.DoAll(o.acts, data, p), p + 1);
  }

  lemma MessageDoneOutcome(p: Parser)
    ensures AtMessageDone(p).Next? || AtMessageDone(p).Quit?
  {
  }

  lemma {:induction false} LastBodyTurn(cfg: Config, q: Parser, ch: Byte)
    requires q.length == 1
    ensures q.state == InBody(BodyIdentity) ==>
              Turn(cfg, q, ch) == Before(Mark(OnBody), Before(FlushIncluding(OnBody), AtMessageDone(q.(length := 0))))
    ensures q.state == InBody(ChunkData) && q.flags.chunked ==>
              Turn(cfg, q, ch) == Next(q.(length := 0, state := InBody(ChunkDataAlmostDone)), One(Mark(OnBody)))
  {
    hide AtMessageDone;
  }

  /** The last byte of a body or chunk: the mark is flushed including that byte. */
  lemma {:induction false} LastBodyByte(cfg: Config, m: Machine, data: seq<Byte>, i: nat, q: Parser, out: Out)
    requires 0 < q.length < NO_LENGTH && i + q.length <= |data|
    requires Bytes(cfg, m.p, m.trace, data, i) == Running(q, out)
    requires q.state == InBody(BodyIdentity) || (q.state == InBody(ChunkData) && q.flags.chunked)
    ensures
      var p := i + q.length - 1;
      var marked := out.Do(Mark(OnBody), data, i);
      Bytes(cfg, m.p, m.trace, data, p + 1) ==
        if q.state.body.ChunkData? then Running(q.(length := 0, state := InBody(ChunkDataAlmostDone)), marked)
        else After(AtMessageDone(q.(length := 0)), marked.FlushTo(OnBody, data, p + 1), data, p)
  {
    hide Turn, AtMessageDone;
    var p := i + q.length - 1;
    if q.length > 1 {
      BodyBytes(cfg, m, data, i, q.length - 1, q, out);
    }
    var mid := if q.length > 1 then out.Do(Mark(OnBody), data, i) else out;
    LastBodyTurn(cfg, q.(length := 1), data[p]);
    MarkOnce(out, data, i, p);
    MessageDoneOutcome(q.(length := 0));
    var marked := out.Do(Mark(OnBody), data, i);
    assert mid.Do(Mark(OnBody), data, p) == marked;
    assert mid.DoAll(One(Mark(OnBody)), data, p) == marked;
    var acts := AtMessageDone(q.(length := 0)).acts;
    assert marked.DoAll(Act(FlushIncluding(OnBody), acts), data, p) == marked.FlushTo(OnBody, data, p + 1).DoAll(acts, data, p);
    assert Bytes(cfg, m.p, m.trace, data, p) == Running(q.(length := 1), mid);
  }

  // ---------- invariants over the bytes of one call ----------

  lemma {:induction false} BytesSound(cfg: Config, m: Machine, data: seq<Byte>, i: nat)
    requires Inv(cfg, m.p) && i <= |data|
    ensures
      match Bytes(cfg, m.p, m.trace, data, i)
      case Running(p, _) => Inv(cfg, p)
      case Quitted(p, _, at) => Inv(cfg, p) && at <= i
      case Failed(_) => true
      case Crashed => false
  {
    hide Turn, Inv;
    if i > 0 {
      BytesSound(cfg, m, data, i - 1);
      var before := Bytes(cfg, m.p, m.trace, data, i - 1);
      if before.Running? {
        TurnSound(cfg, before.p, data[i - 1]);
      }
    }
  }

  /** No C assertion of the parser can fail in any run, and every run keeps the invariant; a call that runs
      to its end leaves at most one mark open. */
  lemma {:induction false} RunSound(cfg: Config, m: Machine, data: seq<Byte>)
    requires Inv(cfg, m.p)
    ensures
      match Run(cfg, m, data)
      case Ready(m') => Inv(cfg, m'.p)
      case Left(m', at) => Inv(cfg, m'.p) && at <= |data|
      case Broken(_) => true
      case Aborted => false
    ensures var r := Bytes(cfg, m.p, m.trace, data, |data|); r.Running? ==> |r.out.marks| <= 1
  {
    hide Inv, Bytes;
    OneMark(cfg, m, data);
    if data != [] {
      CallIsRun(cfg, m, data);
      BytesSound(cfg, m, data, |data|);
    }
  }

  // ---------- the header limit ----------

  /** An outcome that neither reports the limit nor raises the count. */
  predicate Counts(o: Outcome, n: nat) {
    match o
    case Next(p, _) => p.nread <= n
    case Quit(p, _) => p.nread <= n
    case Fail(e) => e != HeaderOverflow
    case Asserted => true
  }

  lemma LineCounts(p: Parser, s: LineState, ch: Byte)
    ensures Counts(TransLine(p, s, ch), p.nread)
  {
    hide ParseUrlChar, OtherMethod, MethodName, FirstMethod;
  }

  lemma HeadersDoneCounts(cfg: Config, p: Parser, ch: Byte)
    ensures Counts(AtHeadersAlmostDone(cfg, p, ch), p.nread)
  {
    hide MessageNeedsEof, ShouldKeepAlive, LengthConflict, WithUpgrade;
    UpgradeCounts(p);
  }

  lemma UpgradeCounts(p: Parser)
    ensures WithUpgrade(p).nread == p.nread
  {
  }

  lemma ValueCounts(cfg: Config, p: Parser, ch: Byte)
    ensures Counts(AtValueStart(p, ch), p.nread) && Counts(AtValue(cfg, p, ch), p.nread)
  {
    hide ListChar, ConnTokenFirst, FinishedConnToken;
  }

  lemma HeaderCounts(cfg: Config, p: Parser, s: HeaderPhase, ch: Byte)
    ensures Counts(TransHeader(cfg, p, s, ch), p.nread)
  {
    hide AtHeadersAlmostDone, AtValueStart, AtValue, NameChar, FinishedHeader;
    ValueCounts(cfg, p, ch);
    ValueCounts(cfg, p.(matcher := if p.matcher.ContentLengthNum? then ContentLengthWs else p.matcher), ch);
    HeadersDoneCounts(cfg, p, ch);
    HeadersDoneCounts(cfg, p.(state := InHeader(HeadersAlmostDone)), ch);
    HeadersDoneCounts(cfg, p.(flags := FinishedHeader(p), state := InHeader(HeadersAlmostDone)), ch);
  }

  lemma RestCounts(cfg: Config, p: Parser, ch: Byte)
    ensures p.state.InUrl? ==> Counts(AtUrl(p, p.state.url, ch), p.nread)
    ensures Counts(AtStatus(p, ch), p.nread)
    ensures p.state.InSize? ==> Counts(TransSize(p, p.state.size, ch), p.nread)
    ensures p.state.InBody? ==> Counts(TransBody(p, p.state.body, ch), p.nread)
  {
    hide ParseUrlChar, MessageNeedsEof, ShouldKeepAlive;
  }

  lemma {:induction false} TurnCounts(cfg: Config, p: Parser, ch: Byte)
    requires p.nread < cfg.maxHeader
    ensures Counts(Turn(cfg, p, ch), p.nread + 1)
  {
    hide TransLine, AtUrl, AtStatus, TransHeader, TransSize, TransBody;
    var q := p.(nread := p.nread + 1);
    RestCounts(cfg, p, ch);
    RestCounts(cfg, q, ch);
    match p.state
    case InLine(s) => LineCounts(q, s, ch);
    case InHeader(s) => HeaderCounts(cfg, q, s, ch);
    case _ =>
  }

  /** While the bytes fit the header limit as a whole, the limit is never the error; the bulk loops then
      report exactly the error of the byte machine. */
  lemma {:induction false} WithinLimit(cfg: Config, m: Machine, data: seq<Byte>)
    requires m.p.nread + |data| <= cfg.maxHeader
    ensures Run(cfg, m, data) != Broken(HeaderOverflow)
  {
    hide Bytes;
    if data != [] {
      CallIsRun(cfg, m, data);
      BytesWithin(cfg, m, data, |data|);
    }
  }

  lemma {:induction false} BytesWithin(cfg: Config, m: Machine, data: seq<Byte>, i: nat)
    requires i <= |data| && m.p.nread + |data| <= cfg.maxHeader
    ensures
      match Bytes(cfg, m.p, m.trace, data, i)
      case Running(p, _) => p.nread <= m.p.nread + i
      case Failed(e) => e != HeaderOverflow
      case _ => true
  {
    hide Turn;
    if i > 0 {
      BytesWithin(cfg, m, data, i - 1);
      var r := Bytes(cfg, m.p, m.trace, data, i - 1);
      if r.Running? {
        TurnCounts(cfg, r.p, data[i - 1]);
      }
    }
  }

  /** The late count of a stretch of `v` bytes is right unless it wraps to a value within the limit. */
  lemma CountedExact(nread: nat, v: nat, limit: nat)
    requires nread <= limit < U32
    ensures (Counted(nread, v) > limit <==> nread + v > limit) <==> !(nread + v > limit && (nread + v) % U32 <= limit)
    ensures Counted(1, U32) == 1
  {
  }

  /** `http_parser_init`. */
  function InitialParser(kind: Kind): Parser {
    var s := if kind.Request? then StartReq else if kind.Response? then StartRes else StartReqOrRes;
    Parser(kind, NO_FLAGS, InLine(s), General, 0, false, 0, 0, 0, 0, 0, DELETE, false, 0)
  }

  /** The states in which the stream may end. */
  predicate MayEnd(s: State) {
    s.InLine? && (s.line.Dead? || s.line.StartReqOrRes? || s.line.StartRes? || s.line.StartReq?)
  }

  class HttpParser {
    const cfg: Config
    var parser: Parser
    var errno: Option<Errno>
    /** Everything the callbacks have been told, in normal form. */
    var trace: seq<Event>

    ghost predicate Valid()
      reads this
    {
      errno.None? ==> Inv(cfg, parser)
    }

    ghost function Now(): Machine
      reads this
    {
      Machine(parser, trace)
    }

    constructor (cfg: Config, kind: Kind)
      ensures Valid() && errno.None? && this.cfg == cfg
      ensures Now() == Machine(InitialParser(kind), [])
    {
      this.cfg := cfg;
      parser := InitialParser(kind);
      errno := None;
      trace := [];
    }

    /** One call of `http_parser_execute` on a nonempty buffer. */
    method Execute(data: seq<Byte>) returns (consumed: nat)
      requires Valid() && data != [] && |data| + cfg.maxHeader < U32
      modifies this
      ensures Valid()
      ensures old(errno).Some? ==> consumed == 0 && errno == old(errno) && Now() == old(Now())
      ensures old(errno).None? ==>
        match Run(cfg, old(Now()), data)
        case Ready(m) => errno.None? && Now() == m && consumed == |data|
        case Left(m, at) => errno.None? && Now() == m && consumed == at
        case Broken(e) => errno == Some(e) || (errno.Some? && e == HeaderOverflow)
        case Aborted => false
    {
      hide Bytes, Turn, Inv, Agrees, Run, Trans;
      if errno.Some? { return 0; }
      ghost var m := Now();
      CallIsRun(cfg, m, data);
      var q := parser;
      var out := Out(StartMarks(q.state), trace);
      var i := 0;
      StartOfBytes(cfg, m, data);
      while i < |data|
        invariant i <= |data| && Now() == m && errno.None? && Inv(cfg, m.p)
        invariant Bytes(cfg, m.p, m.trace, data, i) == Running(q, out)
      {
        BytesSound(cfg, m, data, i);
        var t := OneTurn(cfg, data, i, q, out, m);
        AgreesMeans(cfg, m, data, t);
        match t
        case Moved(q', out', i') => q, out, i := q', out', i';
        case Leave(q', trace', i') =>
          BytesSound(cfg, m, data, |data|);
          parser, trace := q', trace';
          return i';
        case Error(err) =>
          errno := Some(err);
          return i;
      }
      BytesSound(cfg, m, data, |data|);
      parser, trace := q, out.Close(data);
      return |data|;
    }

    /** The call with length zero that reports the end of the stream. */
    method ExecuteEof() returns (r: nat)
      requires Valid()
      modifies this
      ensures Valid() && parser == old(parser)
      ensures old(errno).Some? ==> r == 0 && errno == old(errno) && trace == old(trace)
      ensures old(errno).None? && parser.state == InBody(BodyIdentityEof) ==>
        r == 0 && errno.None? && trace == old(trace) + [Note(MessageComplete)]
      ensures old(errno).None? && parser.state != InBody(BodyIdentityEof) ==>
        trace == old(trace) && (if MayEnd(parser.state) then r == 0 && errno.None? else r == 1 && errno == Some(InvalidEofState))
    {
      if errno.Some? { return 0; }
      if parser.state == InBody(BodyIdentityEof) {
        trace := trace + [Note(MessageComplete)];
        return 0;
      }
      if MayEnd(parser.state) { return 0; }
      errno := Some(InvalidEofState);
      return 1;
    }
  }

  lemma StartOfBytes(cfg: Config, m: Machine, data: seq<Byte>)
    ensures Bytes(cfg, m.p, m.trace, data, 0) == Running(m.p, Out(StartMarks(m.p.state), m.trace))
  {
  }

  lemma AgreesMeans(cfg: Config, m: Machine, data: seq<Byte>, t: Turned)
    requires Agrees(cfg, m, data, t)
    ensures t.Moved? ==> t.i <= |data| && Bytes(cfg, m.p, m.trace, data, t.i) == Running(t.q, t.out)
    ensures t.Leave? ==> t.i <= |data| && Bytes(cfg, m.p, m.trace, data, |data|) == Quitted(t.q, t.trace, t.i)
    ensures t.Error? ==> FailsToo(Bytes(cfg, m.p, m.trace, data, |data|), t.err)
  {
    hide Bytes;
  }

  /** The body of the main loop. */
  method OneTurn(cfg: Config, data: seq<Byte>, i: nat, q0: Parser, out: Out, ghost m: Machine) returns (t: Turned)
    requires i < |data| && |data| + cfg.maxHeader < U32 && Inv(cfg, m.p)
    requires Inv(cfg, q0) && Bytes(cfg, m.p, m.trace, data, i) == Running(q0, out)
    ensures Agrees(cfg, m, data, t) && (t.Moved? ==> t.i > i)
  {
    hide Bytes, Turn, Trans, Agrees;
    BytesSound(cfg, m, data, i + 1);
    if q0.state == InBody(BodyIdentity) || q0.state == InBody(ChunkData) {
      t := BodyTake(cfg, data, i, q0, out, m);
      return;
    }
    if q0.state == InBody(BodyIdentityEof) {
      t := EofTake(cfg, data, i, q0, out, m);
      return;
    }
    NextTurn(cfg, m, data, i, q0, out);
    if q0.state.InBody? {
      t := PlainTurn(cfg, data, i, q0, out, m);
      return;
    }
    var n := Counted(q0.nread, 1);
    if n > cfg.maxHeader {
      StoppedStays(cfg, m, data, i + 1, |data|);
      ErrorAgrees(cfg, m, data, HeaderOverflow);
      return Error(HeaderOverflow);
    }
    var q := q0.(nread := n);
    if q.state == InHeader(FieldName) {
      Recount(cfg, m, data, i, q0, n, out);
      t := FieldTurn(cfg, data, i, q, out, m);
    } else if q.state == InHeader(ValueText) {
      Recount(cfg, m, data, i, q0, n, out);
      t := ValueTurn(cfg, data, i, q, out, m);
    } else {
      t := PlainTurn(cfg, data, i, q, out, m);
    }
  }

  method EofTake(cfg: Config, data: seq<Byte>, i: nat, q: Parser, out: Out, ghost m: Machine) returns (t: Turned)
    requires i < |data| && q.state == InBody(BodyIdentityEof) && Bytes(cfg, m.p, m.trace, data, i) == Running(q, out)
    ensures Agrees(cfg, m, data, t) && (t.Moved? ==> t.i > i)
  {
    hide Bytes;
    EofBytes(cfg, m, data, i, |data| - i, q, out);
    return Moved(q, out.Do(Mark(OnBody), data, i), |data|);
  }

  lemma ErrorAgrees(cfg: Config, m: Machine, data: seq<Byte>, err: Errno)
    requires FailsToo(Bytes(cfg, m.p, m.trace, data, |data|), err)
    ensures Agrees(cfg, m, data, Error(err))
  {
    hide Bytes;
  }

  lemma Recount(cfg: Config, m: Machine, data: seq<Byte>, i: nat, q0: Parser, n: nat, out: Out)
    requires i <= |data| && n == q0.nread + 1 <= cfg.maxHeader
    requires Bytes(cfg, m.p, m.trace, data, i) == Running(q0, out)
    ensures Reached(cfg, m, data, i, q0.(nread := n), n - 1, out)
  {
    hide Bytes;
    assert q0.(nread := n).(nread := n - 1) == q0;
  }

  lemma {:induction false} NextTurn(cfg: Config, m: Machine, data: seq<Byte>, i: nat, q: Parser, out: Out)
    requires i < |data| && Bytes(cfg, m.p, m.trace, data, i) == Running(q, out)
    ensures q.state.InBody? ==> Bytes(cfg, m.p, m.trace, data, i + 1) == After(Trans(cfg, q, data[i]), out, data, i)
    ensures !q.state.InBody? ==>
      var n := Counted(q.nread, 1);
      Bytes(cfg, m.p, m.trace, data, i + 1) ==
        if n > cfg.maxHeader then Failed(HeaderOverflow) else After(Trans(cfg, q.(nread := n), data[i]), out, data, i)
  {
    hide Trans;
  }
}
