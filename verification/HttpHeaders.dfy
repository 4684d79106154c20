/** The header section (section 3.2 of RFC 7230): any list of headers, each delivered name by name and value by
    value, and what the list as a whole says about the framing of the message. */
module HttpHeaders {
  import opened Ascii
  import opened Options
  import opened HttpTypes
  import opened HttpTrans
  import opened HttpCalls
  import opened HttpSplit
  import opened HttpFraming
  import opened HttpLength
  import opened HttpNames
  import opened HttpLine
  import HttpLists

  /** A header line: name, colon, blanks, value, more lines of the value, line end. */
  datatype Header = Header(name: seq<Byte>, blanks: seq<Byte>, value: seq<Byte>, folds: seq<Fold>, end: seq<Byte>)

  /** A line end inside a value, with a blank behind it, and what follows (section 3.2.4 of RFC 7230). */
  datatype Fold = Fold(end: seq<Byte>, blank: Byte, more: seq<Byte>)

  predicate IsFold(cfg: Config, f: Fold) {
    IsEnd(f.end) && IsWs(f.blank) && forall i :: 0 <= i < |f.more| ==> !IsEol(f.more[i]) && (cfg.lenient || IsHeaderChar(f.more[i]))
  }

  function FoldsText(fs: seq<Fold>): seq<Byte> {
    if fs == [] then [] else FoldsText(fs[..|fs| - 1]) + (fs[|fs| - 1].end + [fs[|fs| - 1].blank] + fs[|fs| - 1].more)
  }

  /** The lines of a value are joined; the line ends are left out. */
  function FoldsValue(fs: seq<Fold>): seq<Byte> {
    if fs == [] then [] else FoldsValue(fs[..|fs| - 1]) + ([fs[|fs| - 1].blank] + fs[|fs| - 1].more)
  }

  function LinesText(h: Header): seq<Byte> { h.value + FoldsText(h.folds) }

  function FullValue(h: Header): seq<Byte> { h.value + FoldsValue(h.folds) }

  /** What a header is about. */
  datatype Sort = Ordinary | Upgrading | Connecting | Sizing | Coding

  function SortOf(name: seq<Byte>): Sort {
    var t := LowerName(name);
    if Is("connection", t) || Is("proxy-connection", t) then Connecting
    else if Is("content-length", t) then Sizing
    else if Is("transfer-encoding", t) then Coding
    else if Is("upgrade", t) then Upgrading
    else Ordinary
  }

  /** The first byte of a value may be anything but a blank and a line end. */
  predicate IsValue(cfg: Config, v: seq<Byte>) {
    v == [] || (v[0] != SP && v[0] != HT && CR !in v && LF !in v
                && forall i :: 1 <= i < |v| ==> cfg.lenient || IsHeaderChar(v[i]))
  }

  /** A number without the spaces behind it. */
  function Trimmed(v: seq<Byte>): seq<Byte> {
    if v != [] && v[|v| - 1] == SP then Trimmed(v[..|v| - 1]) else v
  }

  predicate IsLength(v: seq<Byte>) { IsDecString(Trimmed(v)) && Representable(Trimmed(v)) }

  predicate IsHeader(cfg: Config, h: Header) {
    IsToken(h.name) && IsBlank(h.blanks) && IsValue(cfg, h.value) && IsEnd(h.end)
    && (SortOf(h.name).Sizing? ==> IsLength(h.value))
    && (h.folds != [] ==> h.value != [] && (SortOf(h.name).Ordinary? || SortOf(h.name).Upgrading?))
    && forall i :: 0 <= i < |h.folds| ==> IsFold(cfg, h.folds[i])
  }

  function Text(h: Header): seq<Byte> { HeaderStart(h.name, h.blanks) + LinesText(h) + h.end }

  function Events(h: Header): seq<Event> { [Data(OnField, h.name), Data(OnValue, FullValue(h))] }

  // ---------- the framing of a message so far ----------

  datatype Frame = Frame(flags: Flags, length: nat, usesTE: bool)

  function FrameOf(p: Parser): Frame { Frame(p.flags, p.length, p.usesTE) }

  function Effect(f: Frame, h: Header): Frame {
    match SortOf(h.name)
    case Ordinary => f.(usesTE := f.usesTE || BeginsTE(LowerName(h.name)))
    case Upgrading => if h.value == [] then f else f.(flags := f.flags.(upgrade := true))
    case Connecting => f.(flags := HttpLists.ListFlags(f.flags, h.value))
    case Sizing =>
      f.(flags := f.flags.(contentLength := true), length := if IsLength(h.value) then DecValue(Trimmed(h.value)) else f.length)
    case Coding => f.(usesTE := true, flags := f.flags.(chunked := f.flags.chunked || HttpLists.EndsChunked(h.value)))
  }

  // ---------- between two headers ----------

  /** At the start of a header line: behind another line, or behind a header whose value is over when the next
      byte is no blank. */
  predicate AtHeader(p: Parser) {
    p.state == InHeader(FieldStart) || p.state == InHeader(ValueLws)
    || (p.state == InHeader(DiscardLws) && !p.matcher.ContentLength?)
  }

  /** What the parser is as far as the next line is concerned. */
  function Settled(m: Machine): Machine {
    var p := m.p.(flags := FinishedHeader(m.p), state := InHeader(FieldStart));
    match m.p.state
    case InHeader(ValueLws) => Machine(p, m.trace)
    case InHeader(DiscardLws) => Machine(p, Append(m.trace, OnValue, []))
    case _ => m
  }

  lemma {:induction false} LwsTurn(cfg: Config, p: Parser, ch: Byte)
    requires ch != SP && ch != HT
    ensures p.state == InHeader(ValueLws) ==>
              Turn(cfg, p, ch) == Turn(cfg, p.(flags := FinishedHeader(p), state := InHeader(FieldStart)), ch)
    ensures p.state == InHeader(DiscardLws) && !p.matcher.ContentLength? ==>
              Turn(cfg, p, ch) == Before(Mark(OnValue), Before(Flush(OnValue),
                                    Turn(cfg, p.(flags := FinishedHeader(p), state := InHeader(FieldStart)), ch)))
  {
    hide AtFieldStart, AtValueStart;
  }

  lemma {:induction false} FlushedFirst(cfg: Config, m: Machine, ch: Byte, q: Parser)
    requires StateOpen(m.p.state).Closed? && StateOpen(q.state).Closed?
    requires Turn(cfg, m.p, ch) == Before(Mark(OnValue), Before(Flush(OnValue), Turn(cfg, q, ch)))
    ensures Call(cfg, m, [ch]) == Call(cfg, Machine(q, Append(m.trace, OnValue, [])), [ch])
  {
    hide Turn, Append;
    var t := Append(m.trace, OnValue, []);
    SingleByte(cfg, m, ch);
    SingleByte(cfg, Machine(q, t), ch);
    var out := Out(map[OnValue := 0], m.trace);
    assert out.marks - {OnValue} == map[] && Slice([ch], 0, 0) == [];
    assert Out(map[], m.trace).Do(Mark(OnValue), [ch], 0) == out;
    assert out.Do(Flush(OnValue), [ch], 0) == Out(map[], t);
    var o := Turn(cfg, q, ch);
    if o.Next? || o.Quit? {
      var acts := Act(Flush(OnValue), o.acts);
      assert out.DoAll(acts, [ch], 0) == Out(map[], t).DoAll(o.acts, [ch], 0);
      assert Out(map[], m.trace).DoAll(Act(Mark(OnValue), acts), [ch], 0) == out.DoAll(acts, [ch], 0);
    }
  }

  lemma {:induction false} SettleByte(cfg: Config, m: Machine, ch: Byte)
    requires AtHeader(m.p) && ch != SP && ch != HT
    ensures Call(cfg, m, [ch]) == Call(cfg, Settled(m), [ch])
  {
    hide Turn, Append, FinishedHeader;
    LwsTurn(cfg, m.p, ch);
    SingleByte(cfg, m, ch);
    SingleByte(cfg, Settled(m), ch);
    if m.p.state == InHeader(DiscardLws) {
      FlushedFirst(cfg, m, ch, Settled(m).p);
    }
  }

  lemma {:induction false} SettleRun(cfg: Config, m: Machine, data: seq<Byte>)
    requires AtHeader(m.p) && data != [] && data[0] != SP && data[0] != HT
    ensures Run(cfg, m, data) == Run(cfg, Settled(m), data)
  {
    hide Run, Call, Settled, AtHeader;
    SettleByte(cfg, m, data[0]);
    SingleByte(cfg, m, data[0]);
    SingleByte(cfg, Settled(m), data[0]);
    assert data == [data[0]] + data[1..];
    RunConcat(cfg, m, [data[0]], data[1..]);
    RunConcat(cfg, Settled(m), [data[0]], data[1..]);
  }

  // ---------- line ends ----------

  lemma {:induction false} EndTurns(cfg: Config, p: Parser, ch: Byte)
    requires p.nread + 1 <= cfg.maxHeader
    ensures p.state == InHeader(ValueText) && ch == CR ==>
              Turn(cfg, p, ch) == Next(p.(nread := p.nread + 1, state := InHeader(HeaderAlmostDone)), One(Flush(OnValue)))
    ensures p.state == InHeader(ValueText) && ch == LF ==>
              Turn(cfg, p, ch) == Next(p.(nread := p.nread + 1, state := InHeader(ValueLws)), One(Flush(OnValue)))
    ensures p.state == InHeader(HeaderAlmostDone) && ch == LF ==>
              Turn(cfg, p, ch) == Next(p.(nread := p.nread + 1, state := InHeader(ValueLws)), Nil)
  {
    hide AtFieldStart, AtValueStart, AtHeadersAlmostDone, ValueChar, AtDiscardLws;
  }

  /** The line end behind a value that has been delivered. */
  lemma {:induction false} EndRead(cfg: Config, m: Machine, before: seq<Event>, value: seq<Byte>, end: seq<Byte>)
    requires m.p.state == InHeader(ValueText) && m.trace == Append(before, OnValue, value) && IsEnd(end)
    requires m.p.nread + |end| <= cfg.maxHeader
    ensures Run(cfg, m, end) == Ready(Machine(m.p.(state := InHeader(ValueLws), nread := m.p.nread + |end|), m.trace))
  {
    hide Turn, Run, Append;
    AppendTwice(before, OnValue, value, []);
    assert value + [] == value;
    EndTurns(cfg, m.p, end[0]);
    EndValueByte(cfg, m, end[0], Turn(cfg, m.p, end[0]).p);
    if end == [CR, LF] {
      var m1 := Machine(m.p.(state := InHeader(HeaderAlmostDone), nread := m.p.nread + 1), m.trace);
      EndTurns(cfg, m1.p, LF);
      var m2 := Machine(m1.p.(state := InHeader(ValueLws), nread := m1.p.nread + 1), m.trace);
      QuietByte(cfg, m1, LF, m2.p);
      Continue(cfg, m, [CR], m1, [LF], m2);
      assert end == [CR] + [LF];
    }
  }

  // ---------- values ----------

  /** A value is read byte by byte into the parsers `q(n)`: the first byte marks it, the others go on. */
  predicate ValueSteps(cfg: Config, p: Parser, v: seq<Byte>, q: seq<Parser>) {
    |q| == |v| + 1 && q[0] == p && StateOpen(p.state).Closed?
    && (forall i :: 1 <= i <= |v| ==> q[i].state == InHeader(ValueText))
    && (v != [] ==> Turn(cfg, p, v[0]) == Next(q[1], One(Mark(OnValue))))
    && forall i :: 1 <= i < |v| ==> Turn(cfg, q[i], v[i]) == Next(q[i + 1], Nil)
  }

  lemma {:induction false} ValueRead(cfg: Config, m: Machine, v: seq<Byte>, q: seq<Parser>, n: nat)
    requires ValueSteps(cfg, m.p, v, q) && 1 <= n <= |v|
    ensures Run(cfg, m, v[..n]) == Ready(Machine(q[n], Append(m.trace, OnValue, v[..n])))
    decreases n
  {
    hide Turn, Run;
    if n == 1 {
      assert v[..1] == [v[0]];
      FirstValueByte(cfg, m, v[0], q[1]);
    } else {
      var k := n - 1;
      ValueRead(cfg, m, v, q, k);
      var m1 := Machine(q[k], Append(m.trace, OnValue, v[..k]));
      ValueTextByte(cfg, m1, v[k], q[n]);
      AppendTwice(m.trace, OnValue, v[..k], [v[k]]);
      assert v[..n] == v[..k] + [v[k]];
      Continue(cfg, m, v[..k], m1, [v[k]], Machine(q[n], Append(m.trace, OnValue, v[..n])));
    }
  }

  /** A header whose name says nothing about the framing, or only that the connection may change its protocol. */
  function PlainRead(p: Parser, n: nat): Parser {
    if n == 0 then p
    else p.(state := InHeader(ValueText), index := 0, matcher := General, nread := p.nread + n,
            flags := if p.matcher.Upgrade? then p.flags.(upgrade := true) else p.flags)
  }

  predicate IsPlain(m: Matcher) { IsFieldMatcher(m) && !m.Connection? && !m.ContentLength? && !m.TransferEncoding? }

  lemma {:induction false} PlainTurns(cfg: Config, p: Parser, n: nat, ch: Byte)
    requires p.state == InHeader(DiscardWs) && IsPlain(p.matcher) && p.nread + n + 1 <= cfg.maxHeader && ch != CR && ch != LF
    requires if n == 0 then ch != SP && ch != HT else cfg.lenient || IsHeaderChar(ch)
    ensures Turn(cfg, PlainRead(p, n), ch) == Next(PlainRead(p, n + 1), if n == 0 then One(Mark(OnValue)) else Nil)
  {
    hide AtFieldStart, AtHeadersAlmostDone;
  }

  /** The values of Connection and Transfer-Encoding headers. */
  function ListParser(p: Parser, h: HttpLists.Held, n: nat): Parser {
    p.(state := InHeader(ValueText), index := h.index, matcher := h.matcher, flags := h.flags, nread := p.nread + n)
  }

  function ListRead(p: Parser, v: seq<Byte>, n: nat): Parser
    requires n <= |v|
  {
    if n == 0 then p else ListParser(p, HttpLists.ValueHeld(p.matcher.TransferEncoding?, p.flags, v[..n]), n)
  }

  predicate IsListed(m: Matcher) { m.Connection? || m.TransferEncoding? }

  lemma {:induction false} ListFirstTurn(cfg: Config, p: Parser, ch: Byte)
    requires p.state == InHeader(DiscardWs) && IsListed(p.matcher) && p.nread + 1 <= cfg.maxHeader
    requires ch != CR && ch != LF && ch != SP && ch != HT
    ensures Turn(cfg, p, ch) == Next(ListParser(p, HttpLists.Begun(p.matcher.TransferEncoding?, p.flags, ch), 1), One(Mark(OnValue)))
  {
    hide AtFieldStart, AtHeadersAlmostDone;
  }

  lemma {:induction false} ListTurn(cfg: Config, p: Parser, h: HttpLists.Held, n: nat, ch: Byte)
    requires HttpLists.IsListMatcher(h.matcher) && p.nread + n + 1 <= cfg.maxHeader
    requires ch != CR && ch != LF && (cfg.lenient || IsHeaderChar(ch))
    ensures Turn(cfg, ListParser(p, h, n), ch) == Next(ListParser(p, HttpLists.NextHeld(h, ch), n + 1), Nil)
  {
    hide AtFieldStart, AtHeadersAlmostDone, AtValueStart;
    if h.matcher.General? {
      assert HttpLists.NextHeld(h, ch) == h;
    } else {
      hide ListChar;
    }
  }

  /** Reading a value and its line end, from the reading of the value. */
  lemma {:induction false} ValueEnds(cfg: Config, m: Machine, text: seq<Byte>, v: seq<Byte>, end: seq<Byte>, p: Parser) returns (q: Machine)
    requires Run(cfg, m, text) == Ready(Machine(p, Append(m.trace, OnValue, v))) && p.state == InHeader(ValueText)
    requires IsEnd(end) && p.nread + |end| <= cfg.maxHeader
    ensures Run(cfg, m, text + end) == Ready(q) && AtHeader(q.p)
    ensures Settled(q) == Machine(p.(state := InHeader(FieldStart), nread := p.nread + |end|, flags := FinishedHeader(p)),
                                  Append(m.trace, OnValue, v))
  {
    hide Run, Append;
    var m1 := Machine(p, Append(m.trace, OnValue, v));
    EndRead(cfg, m1, m.trace, v, end);
    q := Machine(p.(state := InHeader(ValueLws), nread := p.nread + |end|), m1.trace);
    Continue(cfg, m, text, m1, end, q);
  }

  predicate MayRead(cfg: Config, p: Parser, v: seq<Byte>, end: seq<Byte>) {
    p.state == InHeader(DiscardWs) && IsValue(cfg, v) && v != [] && IsEnd(end) && p.nread + |v| + |end| <= cfg.maxHeader
  }

  /** The value a header list stands for has been read: what is left of it in the parser. */
  predicate ReadAs(m: Machine, q: Machine, v: seq<Byte>, n: nat, flags: Flags, length: nat) {
    AtHeader(q.p) && Settled(q) == Machine(m.p.(state := InHeader(FieldStart), nread := m.p.nread + n, flags := flags, length := length,
                                                matcher := q.p.matcher, index := q.p.index), Append(m.trace, OnValue, v))
  }

  lemma {:induction false} PlainValue(cfg: Config, m: Machine, v: seq<Byte>)
    requires m.p.state == InHeader(DiscardWs) && IsPlain(m.p.matcher) && IsValue(cfg, v) && v != [] && m.p.nread + |v| <= cfg.maxHeader
    ensures Run(cfg, m, v) == Ready(Machine(PlainRead(m.p, |v|), Append(m.trace, OnValue, v)))
  {
    hide Run, Turn, IsEnd, Append;
    var ps := seq(|v| + 1, i requires 0 <= i <= |v| => PlainRead(m.p, i));
    forall i | 0 <= i < |v|
      ensures Turn(cfg, ps[i], v[i]) == Next(ps[i + 1], if i == 0 then One(Mark(OnValue)) else Nil)
    {
      InValue(cfg, v, i);
      PlainTurns(cfg, m.p, i, v[i]);
    }
    ValueRead(cfg, m, v, ps, |v|);
    assert v[..|v|] == v;
  }

  lemma {:induction false} FoldTurn(cfg: Config, p: Parser, ch: Byte)
    requires p.state == InHeader(ValueLws) && p.matcher.General? && IsWs(ch) && p.nread + 1 <= cfg.maxHeader
    ensures Turn(cfg, p, ch) == Next(p.(state := InHeader(ValueText), index := 0, nread := p.nread + 1), One(Mark(OnValue)))
  {
    hide AtFieldStart, AtHeadersAlmostDone;
  }

  /** More bytes of a plain value. */
  lemma {:induction false} MoreRead(cfg: Config, p: Parser, n: nat, t: seq<Event>, more: seq<Byte>)
    requires p.state == InHeader(DiscardWs) && IsPlain(p.matcher) && n > 0 && p.nread + n + |more| <= cfg.maxHeader
    requires forall i :: 0 <= i < |more| ==> !IsEol(more[i]) && (cfg.lenient || IsHeaderChar(more[i]))
    ensures Run(cfg, Machine(PlainRead(p, n), t), more) ==
              Ready(Machine(PlainRead(p, n + |more|), if more == [] then t else Append(t, OnValue, more)))
    decreases |more|
  {
    hide Run, Turn, Append;
    var m := Machine(PlainRead(p, n), t);
    if more == [] {
      EmptyRun(cfg, m);
    } else {
      var k := |more| - 1;
      MoreRead(cfg, p, n, t, more[..k]);
      PlainTurns(cfg, p, n + k, more[k]);
      var m1 := Run(cfg, m, more[..k]).m;
      ValueTextByte(cfg, m1, more[k], PlainRead(p, n + |more|));
      assert more == more[..k] + [more[k]];
      if k == 0 {
        assert more[..k] == [] && more == [more[k]];
      } else {
        AppendTwice(t, OnValue, more[..k], [more[k]]);
      }
      Continue(cfg, m, more[..k], m1, [more[k]], Machine(PlainRead(p, n + |more|), Append(t, OnValue, more)));
    }
  }

  /** One more line of a value. */
  lemma {:induction false} FoldRead(cfg: Config, p: Parser, n: nat, t: seq<Event>, v: seq<Byte>, f: Fold)
    requires p.state == InHeader(DiscardWs) && IsPlain(p.matcher) && n > 0 && IsFold(cfg, f)
    requires p.nread + n + |f.end| + 1 + |f.more| <= cfg.maxHeader
    ensures Run(cfg, Machine(PlainRead(p, n), Append(t, OnValue, v)), f.end + [f.blank] + f.more) ==
              Ready(Machine(PlainRead(p, n + |f.end| + 1 + |f.more|), Append(t, OnValue, v + ([f.blank] + f.more))))
  {
    hide Run, Turn, Append, IsHeaderChar, IsEnd;
    var m := Machine(PlainRead(p, n), Append(t, OnValue, v));
    EndRead(cfg, m, t, v, f.end);
    var m1 := Machine(PlainRead(p, n + |f.end|).(state := InHeader(ValueLws)), m.trace);
    FoldTurn(cfg, m1.p, f.blank);
    FirstValueByte(cfg, m1, f.blank, PlainRead(p, n + |f.end| + 1));
    AppendTwice(t, OnValue, v, [f.blank]);
    var m2 := Machine(PlainRead(p, n + |f.end| + 1), Append(t, OnValue, v + [f.blank]));
    Continue(cfg, m, f.end, m1, [f.blank], m2);
    MoreRead(cfg, p, n + |f.end| + 1, m2.trace, f.more);
    AppendTwice(t, OnValue, v + [f.blank], f.more);
    assert v + [f.blank] + f.more == v + ([f.blank] + f.more);
    if f.more == [] {
      assert v + [f.blank] + f.more == v + [f.blank];
    }
    Continue(cfg, m, f.end + [f.blank], m2, f.more, Machine(PlainRead(p, n + |f.end| + 1 + |f.more|), Append(t, OnValue, v + ([f.blank] + f.more))));
  }

  lemma FoldsMore(v: seq<Byte>, fs: seq<Fold>)
    requires fs != []
    ensures
      var k := |fs| - 1;
      var f := fs[k];
      v + FoldsText(fs[..k]) + (f.end + [f.blank] + f.more) == v + FoldsText(fs)
      && v + FoldsValue(fs[..k]) + ([f.blank] + f.more) == v + FoldsValue(fs)
  {
    var k := |fs| - 1;
    Regroup(v, FoldsText(fs[..k]), fs[k].end + [fs[k].blank] + fs[k].more);
    Regroup(v, FoldsValue(fs[..k]), [fs[k].blank] + fs[k].more);
  }

  lemma Regroup(a: seq<Byte>, b: seq<Byte>, c: seq<Byte>)
    ensures a + b + c == a + (b + c)
  {
  }

  lemma NoFoldsText(v: seq<Byte>, fs: seq<Fold>)
    requires fs == []
    ensures v + FoldsText(fs) == v && v + FoldsValue(fs) == v
  {
  }

  lemma {:induction false} FoldsRead(cfg: Config, m: Machine, v: seq<Byte>, fs: seq<Fold>)
    requires m.p.state == InHeader(DiscardWs) && IsPlain(m.p.matcher) && IsValue(cfg, v) && v != []
    requires forall i :: 0 <= i < |fs| ==> IsFold(cfg, fs[i])
    requires m.p.nread + |v + FoldsText(fs)| <= cfg.maxHeader
    ensures Run(cfg, m, v + FoldsText(fs)) == Ready(Machine(PlainRead(m.p, |v + FoldsText(fs)|), Append(m.trace, OnValue, v + FoldsValue(fs))))
    decreases |fs|
  {
    hide Run, Turn, Append, IsFold, PlainRead, IsValue, IsPlain, FoldsText, FoldsValue;
    if fs == [] {
      PlainValue(cfg, m, v);
      NoFoldsText(v, fs);
    } else {
      var k := |fs| - 1;
      var f, text := fs[k], FoldsText(fs[..k]);
      FoldsMore(v, fs);
      assert |v + FoldsText(fs)| == |v + text| + (|f.end| + 1 + |f.more|);
      FoldsRead(cfg, m, v, fs[..k]);
      FoldRead(cfg, m.p, |v + text|, m.trace, v + FoldsValue(fs[..k]), f);
      RunConcat(cfg, m, v + text, f.end + [f.blank] + f.more);
    }
  }

  lemma {:induction false} FoldedValue(cfg: Config, m: Machine, h: Header) returns (q: Machine)
    requires m.p.state == InHeader(DiscardWs) && IsPlain(m.p.matcher) && IsValue(cfg, h.value) && h.value != [] && IsEnd(h.end)
    requires forall i :: 0 <= i < |h.folds| ==> IsFold(cfg, h.folds[i])
    requires m.p.nread + |LinesText(h)| + |h.end| <= cfg.maxHeader
    ensures Run(cfg, m, LinesText(h) + h.end) == Ready(q)
    ensures ReadAs(m, q, FullValue(h), |LinesText(h)| + |h.end|, if m.p.matcher.Upgrade? then m.p.flags.(upgrade := true) else m.p.flags, m.p.length)
  {
    hide Run, IsEnd, Append, FoldsText, FoldsValue;
    FoldsRead(cfg, m, h.value, h.folds);
    q := ValueEnds(cfg, m, LinesText(h), FullValue(h), h.end, PlainRead(m.p, |LinesText(h)|));
  }

  lemma InValue(cfg: Config, v: seq<Byte>, i: nat)
    requires IsValue(cfg, v) && i < |v|
    ensures v[i] != CR && v[i] != LF && if i == 0 then v[i] != SP && v[i] != HT else cfg.lenient || IsHeaderChar(v[i])
  {
    hide IsHeaderChar;
    assert v[i] in v;
  }

  lemma {:induction false} ListStep(p: Parser, v: seq<Byte>, i: nat)
    requires 1 <= i < |v|
    ensures var c := p.matcher.TransferEncoding?;
            HttpLists.ValueHeld(c, p.flags, v[..i + 1]) == HttpLists.NextHeld(HttpLists.ValueHeld(c, p.flags, v[..i]), v[i])
    ensures HttpLists.IsListMatcher(HttpLists.ValueHeld(p.matcher.TransferEncoding?, p.flags, v[..i]).matcher)
  {
    hide HttpLists.NextHeld;
    var h := HttpLists.Begun(p.matcher.TransferEncoding?, p.flags, v[0]);
    HttpLists.FeedKeeps(h, v[..i][1..]);
    assert v[..i + 1][1..][..i - 1] == v[..i][1..];
  }

  lemma {:induction false} ListSteps(cfg: Config, p: Parser, v: seq<Byte>, i: nat)
    requires p.state == InHeader(DiscardWs) && IsListed(p.matcher) && IsValue(cfg, v) && i < |v|
    requires p.nread + |v| <= cfg.maxHeader
    ensures Turn(cfg, ListRead(p, v, i), v[i]) == Next(ListRead(p, v, i + 1), if i == 0 then One(Mark(OnValue)) else Nil)
  {
    hide Turn, IsValue, HttpLists.IsListMatcher, HttpLists.NextHeld, HttpLists.Feed;
    InValue(cfg, v, i);
    if i == 0 {
      ListFirstTurn(cfg, p, v[0]);
      OneHeld(p.matcher.TransferEncoding?, p.flags, v);
    } else {
      ListStep(p, v, i);
      ListTurn(cfg, p, HttpLists.ValueHeld(p.matcher.TransferEncoding?, p.flags, v[..i]), i, v[i]);
    }
  }

  lemma OneHeld(coding: bool, f: Flags, v: seq<Byte>)
    requires v != []
    ensures HttpLists.ValueHeld(coding, f, v[..1]) == HttpLists.Begun(coding, f, v[0])
  {
    assert v[..1][1..] == [];
  }

  lemma {:induction false} ListedRead(cfg: Config, m: Machine, v: seq<Byte>, end: seq<Byte>) returns (q: Machine)
    requires MayRead(cfg, m.p, v, end) && IsListed(m.p.matcher)
    ensures Run(cfg, m, v + end) == Ready(q)
    ensures ReadAs(m, q, v, |v| + |end|, FinishedHeader(ListRead(m.p, v, |v|)), m.p.length)
  {
    hide Run, Turn, IsEnd, Append, FinishedHeader, HttpLists.ValueHeld;
    var ps := seq(|v| + 1, i requires 0 <= i <= |v| => ListRead(m.p, v, i));
    forall i | 0 <= i < |v|
      ensures Turn(cfg, ps[i], v[i]) == Next(ps[i + 1], if i == 0 then One(Mark(OnValue)) else Nil)
    {
      ListSteps(cfg, m.p, v, i);
    }
    ValueRead(cfg, m, v, ps, |v|);
    assert v[..|v|] == v;
    q := ValueEnds(cfg, m, v, v, end, ps[|v|]);
  }

  lemma {:induction false} ListedFlags(p: Parser, v: seq<Byte>)
    requires v != [] && IsListed(p.matcher)
    ensures FinishedHeader(ListRead(p, v, |v|)) ==
              if p.matcher.TransferEncoding? then p.flags.(chunked := p.flags.chunked || HttpLists.EndsChunked(v))
              else HttpLists.ListFlags(p.flags, v)
  {
    hide HttpLists.ValueHeld, HttpLists.EndsChunked;
    assert v[..|v|] == v;
    HttpLists.ValueKind(p.matcher.TransferEncoding?, p.flags, v);
  }

  // ---------- the value of a Content-Length ----------

  function LengthParser(p: Parser, v: seq<Byte>): Parser
    requires IsLength(v)
  {
    LengthRead(p, |v|, DecValue(Trimmed(v))).(matcher := if v == Trimmed(v) then ContentLengthNum else ContentLengthWs)
  }

  lemma {:induction false} LengthSpaceTurn(cfg: Config, p: Parser)
    requires p.state == InHeader(ValueText) && (p.matcher.ContentLengthNum? || p.matcher.ContentLengthWs?)
    requires p.nread + 1 <= cfg.maxHeader
    ensures Turn(cfg, p, SP) == Next(p.(nread := p.nread + 1, matcher := ContentLengthWs), Nil)
  {
    hide AtFieldStart, AtHeadersAlmostDone, AtValueStart, ListChar;
  }

  lemma {:induction false} LengthValueRead(cfg: Config, m: Machine, v: seq<Byte>)
    requires AtLength(m.p) && IsLength(v) && m.p.nread + |v| <= cfg.maxHeader
    ensures Run(cfg, m, v) == Ready(Machine(LengthParser(m.p, v), Append(m.trace, OnValue, v)))
    decreases |v|
  {
    hide Turn, Run, Append, DecValue, Representable;
    if v == Trimmed(v) {
      ContentLengthExact(cfg, m, v);
    } else {
      var k := |v| - 1;
      TrimmedShorter(v);
      LengthValueRead(cfg, m, v[..k]);
      var m1 := Machine(LengthParser(m.p, v[..k]), Append(m.trace, OnValue, v[..k]));
      LengthSpaceTurn(cfg, m1.p);
      ValueTextByte(cfg, m1, SP, LengthParser(m.p, v));
      AppendTwice(m.trace, OnValue, v[..k], [SP]);
      assert v == v[..k] + [SP];
      Continue(cfg, m, v[..k], m1, [SP], Machine(LengthParser(m.p, v), Append(m.trace, OnValue, v)));
    }
  }

  lemma TrimmedShorter(v: seq<Byte>)
    ensures v != Trimmed(v) ==> v != [] && v[|v| - 1] == SP && Trimmed(v) == Trimmed(v[..|v| - 1])
  {
  }

  lemma {:induction false} SizedValue(cfg: Config, m: Machine, v: seq<Byte>, end: seq<Byte>) returns (q: Machine)
    requires MayRead(cfg, m.p, v, end) && AtLength(m.p) && IsLength(v)
    ensures Run(cfg, m, v + end) == Ready(q)
    ensures ReadAs(m, q, v, |v| + |end|, m.p.flags.(contentLength := true), DecValue(Trimmed(v)))
  {
    hide Run, IsEnd, Append, IsLength, DecValue, Trimmed, IsValue;
    LengthValueRead(cfg, m, v);
    q := ValueEnds(cfg, m, v, v, end, LengthParser(m.p, v));
  }

  lemma {:induction false} EmptyValue(cfg: Config, m: Machine, end: seq<Byte>) returns (q: Machine)
    requires m.p.state == InHeader(DiscardWs) && IsEnd(end) && m.p.nread + |end| <= cfg.maxHeader
    requires IsFieldMatcher(m.p.matcher) && !m.p.matcher.ContentLength?
    ensures Run(cfg, m, end) == Ready(q)
    ensures ReadAs(m, q, [], |end|, m.p.flags, m.p.length)
  {
    hide Run, IsEnd, Append;
    EmptyRead(cfg, m, end);
    q := Machine(m.p.(state := InHeader(DiscardLws), nread := m.p.nread + |end|), m.trace);
  }

  // ---------- a header, and a list of headers ----------

  /** The parser at the next header line. */
  function NextLine(p: Parser, f: Frame, n: nat, q: Parser): Parser {
    p.(state := InHeader(FieldStart), nread := p.nread + n, flags := f.flags, length := f.length, usesTE := f.usesTE,
       matcher := q.matcher, index := q.index)
  }

  /** Behind some lines the parser is at the next one. */
  predicate ReadTo(m: Machine, q: Machine, f: Frame, n: nat, t: seq<Event>) {
    AtHeader(q.p) && Settled(q) == Machine(NextLine(m.p, f, n, q.p), t)
  }

  /** A header name that comes next is not joined to another one. */
  predicate Separate(t: seq<Event>) { t == [] || t[|t| - 1].Note? || t[|t| - 1].e != OnField }

  lemma {:induction false} NoneBegins(t: seq<Byte>)
    ensures Is("connection", t) || Is("proxy-connection", t) || Is("content-length", t) || Is("upgrade", t) ==> !BeginsTE(t)
    ensures Is("transfer-encoding", t) ==> BeginsTE(t)
    ensures !(Is("connection", t) && (Is("content-length", t) || Is("transfer-encoding", t) || Is("upgrade", t)))
    ensures !(Is("proxy-connection", t) && (Is("content-length", t) || Is("transfer-encoding", t) || Is("upgrade", t)))
    ensures !(Is("content-length", t) && (Is("transfer-encoding", t) || Is("upgrade", t)))
    ensures !(Is("transfer-encoding", t) && Is("upgrade", t))
  {
    FramingNames(t);
  }

  /** The parser in front of the value of a header, as its name has left it. */
  predicate ValueStarts(cfg: Config, m: Machine, h: Header, f: Frame) {
    IsHeader(cfg, h) && m.p.state == InHeader(DiscardWs) && IsFieldMatcher(m.p.matcher)
    && m.p.nread + |LinesText(h)| + |h.end| <= cfg.maxHeader
    && (m.p.matcher.ContentLength? <==> SortOf(h.name).Sizing?) && (m.p.matcher.TransferEncoding? <==> SortOf(h.name).Coding?)
    && (m.p.matcher.Connection? <==> SortOf(h.name).Connecting?) && (m.p.matcher.Upgrade? <==> SortOf(h.name).Upgrading?)
    && (SortOf(h.name).Sizing? ==> !m.p.flags.contentLength)
    && m.p.flags == f.flags && m.p.length == f.length && (m.p.usesTE <==> f.usesTE || BeginsTE(LowerName(h.name)))
    && m.p.usesTE == Effect(f, h).usesTE
  }

  lemma {:induction false} OneLineValue(cfg: Config, m: Machine, h: Header, f: Frame) returns (q: Machine)
    requires ValueStarts(cfg, m, h, f) && h.folds == [] && LinesText(h) == h.value && !(IsPlain(m.p.matcher) && h.value != [])
    ensures Run(cfg, m, h.value + h.end) == Ready(q)
    ensures ReadTo(m, q, Effect(f, h), |h.value| + |h.end|, Append(m.trace, OnValue, h.value))
  {
    hide Run, IsEnd, IsValue, IsLength, DecValue, Append, Settled, AtHeader, HttpLists.ListFlags,
      HttpLists.EndsChunked, IsToken, IsBlank, SortOf, BeginsTE, LowerName, LinesText, FullValue, IsFold;
    if h.value == [] {
      NotEmpty(h.value);
      q := EmptyValue(cfg, m, h.end);
      assert h.value + h.end == h.end;
      EmptyLists(f.flags);
    } else if m.p.matcher.ContentLength? {
      q := SizedValue(cfg, m, h.value, h.end);
    } else {
      q := ListedRead(cfg, m, h.value, h.end);
      ListedFlags(m.p, h.value);
    }
  }

  lemma {:induction false} PlainEffect(cfg: Config, m: Machine, h: Header, f: Frame, q: Machine)
    requires ValueStarts(cfg, m, h, f) && IsPlain(m.p.matcher) && h.value != []
    requires ReadAs(m, q, FullValue(h), |LinesText(h)| + |h.end|, if m.p.matcher.Upgrade? then m.p.flags.(upgrade := true) else m.p.flags, m.p.length)
    ensures ReadTo(m, q, Effect(f, h), |LinesText(h)| + |h.end|, Append(m.trace, OnValue, FullValue(h)))
  {
    hide IsEnd, IsValue, IsLength, DecValue, Append, Settled, AtHeader, HttpLists.ListFlags,
      HttpLists.EndsChunked, IsToken, IsBlank, SortOf, BeginsTE, LowerName, LinesText, FullValue, IsFold;
  }

  /** The value of a header, from its first byte to the line end, as the sort of its name has it. */
  lemma {:induction false} SortedValue(cfg: Config, m: Machine, h: Header, f: Frame) returns (q: Machine)
    requires ValueStarts(cfg, m, h, f)
    ensures Run(cfg, m, LinesText(h) + h.end) == Ready(q)
    ensures ReadTo(m, q, Effect(f, h), |LinesText(h)| + |h.end|, Append(m.trace, OnValue, FullValue(h)))
  {
    hide Run, IsEnd, IsValue, IsLength, DecValue, Append, Settled, AtHeader, Effect, IsFieldMatcher,
      IsToken, IsBlank, BeginsTE, LowerName, LinesText, FullValue, IsFold, ReadTo, ReadAs;
    if IsPlain(m.p.matcher) && h.value != [] {
      q := FoldedValue(cfg, m, h);
      PlainEffect(cfg, m, h, f, q);
    } else {
      PlainSorts(m.p.matcher, h);
      NoFolds(h);
      q := OneLineValue(cfg, m, h, f);
    }
  }

  lemma PlainSorts(matcher: Matcher, h: Header)
    requires (matcher.ContentLength? <==> SortOf(h.name).Sizing?) && (matcher.TransferEncoding? <==> SortOf(h.name).Coding?)
    requires (matcher.Connection? <==> SortOf(h.name).Connecting?) && IsFieldMatcher(matcher)
    ensures IsPlain(matcher) <==> SortOf(h.name).Ordinary? || SortOf(h.name).Upgrading?
  {
    hide SortOf;
  }

  lemma NoFolds(h: Header)
    requires h.folds == []
    ensures LinesText(h) == h.value && FullValue(h) == h.value
  {
  }

  lemma NotEmpty(v: seq<Byte>)
    ensures v == [] ==> !IsLength(v)
  {
  }

  lemma EmptyLists(f: Flags)
    ensures HttpLists.ListFlags(f, []) == f && !HttpLists.EndsChunked([])
  {
  }

  lemma HeaderParts(h: Header, t: seq<Event>)
    requires Separate(t)
    ensures Text(h) == HeaderStart(h.name, h.blanks) + (LinesText(h) + h.end)
    ensures Append(Append(t, OnField, h.name), OnValue, FullValue(h)) == t + Events(h)
  {
    hide HeaderStart, LinesText, FullValue;
    Regroup(HeaderStart(h.name, h.blanks), LinesText(h), h.end);
    TwoData(t, h.name, FullValue(h));
  }

  lemma TwoData(t: seq<Event>, name: seq<Byte>, value: seq<Byte>)
    requires Separate(t)
    ensures Append(Append(t, OnField, name), OnValue, value) == t + [Data(OnField, name), Data(OnValue, value)]
  {
    assert Append(t, OnField, name) == t + [Data(OnField, name)];
  }

  lemma {:induction false} HeaderRead(cfg: Config, m: Machine, h: Header) returns (q: Machine)
    requires m.p.state == InHeader(FieldStart) && IsHeader(cfg, h) && Separate(m.trace)
    requires SortOf(h.name).Sizing? ==> !m.p.flags.contentLength
    requires m.p.nread + |Text(h)| <= cfg.maxHeader
    ensures Run(cfg, m, Text(h)) == Ready(q)
    ensures ReadTo(m, q, Effect(FrameOf(m.p), h), |Text(h)|, m.trace + Events(h))
  {
    hide Run, IsEnd, IsValue, IsLength, DecValue, AtHeader, HttpLists.ListFlags, HttpLists.EndsChunked, IsToken,
      IsBlank, IsFieldMatcher, LowerName, Is, BeginsTE, HeaderStart, Settled, LinesText, FullValue, IsFold, Text, Append, Events;
    HeaderParts(h, m.trace);
    var start := HeaderStart(h.name, h.blanks);
    var q0 := HeaderStartRead(cfg, m, h.name, h.blanks);
    var f := FrameOf(m.p);
    var m0 := Machine(q0, Append(m.trace, OnField, h.name));
    NoneBegins(LowerName(h.name));
    q := SortedValue(cfg, m0, h, f);
    Continue(cfg, m, start, m0, LinesText(h) + h.end, q);
  }

  /** What one header can say about the message. */
  datatype Claim = HasLength | HasCoding | Chunked | KeepsAlive | Closes | ConnUpgrades | Upgrades

  predicate Makes(h: Header, c: Claim) {
    var s := SortOf(h.name);
    match c
    case HasLength => s.Sizing?
    case HasCoding => BeginsTE(LowerName(h.name))
    case Chunked => s.Coding? && HttpLists.EndsChunked(h.value)
    case KeepsAlive => s.Connecting? && HttpLists.ListFlags(NO_FLAGS, h.value).keepAlive
    case Closes => s.Connecting? && HttpLists.ListFlags(NO_FLAGS, h.value).close
    case ConnUpgrades => s.Connecting? && HttpLists.ListFlags(NO_FLAGS, h.value).connUpgrade
    case Upgrades => s.Upgrading? && h.value != []
  }

  predicate Holds(f: Frame, c: Claim) {
    match c
    case HasLength => f.flags.contentLength
    case HasCoding => f.usesTE
    case Chunked => f.flags.chunked
    case KeepsAlive => f.flags.keepAlive
    case Closes => f.flags.close
    case ConnUpgrades => f.flags.connUpgrade
    case Upgrades => f.flags.upgrade
  }

  /** Some header says so. */
  predicate Claims(hs: seq<Header>, c: Claim) { exists i :: 0 <= i < |hs| && Makes(hs[i], c) }

  /** At most one Content-Length. */
  predicate OneLength(hs: seq<Header>) {
    forall i, j :: 0 <= i < j < |hs| ==> !(SortOf(hs[i].name).Sizing? && SortOf(hs[j].name).Sizing?)
  }

  predicate IsHeaders(cfg: Config, hs: seq<Header>) {
    (forall i :: 0 <= i < |hs| ==> IsHeader(cfg, hs[i])) && OneLength(hs)
  }

  function HeaderText(hs: seq<Header>): seq<Byte> {
    if hs == [] then [] else HeaderText(hs[..|hs| - 1]) + Text(hs[|hs| - 1])
  }

  function HeaderEvents(hs: seq<Header>): seq<Event> {
    if hs == [] then [] else HeaderEvents(hs[..|hs| - 1]) + Events(hs[|hs| - 1])
  }

  function FrameAfter(f: Frame, hs: seq<Header>): Frame {
    if hs == [] then f else Effect(FrameAfter(f, hs[..|hs| - 1]), hs[|hs| - 1])
  }

  lemma {:induction false} ClaimsMore(hs: seq<Header>, c: Claim)
    requires hs != []
    ensures Claims(hs, c) <==> Claims(hs[..|hs| - 1], c) || Makes(hs[|hs| - 1], c)
  {
    hide Makes;
    var k := |hs| - 1;
    if i :| 0 <= i < |hs| && Makes(hs[i], c) {
      assert i < k ==> hs[..k][i] == hs[i];
    }
    if j :| 0 <= j < k && Makes(hs[..k][j], c) {
      assert hs[j] == hs[..k][j];
    }
  }

  lemma {:induction false} OneMore(cfg: Config, hs: seq<Header>)
    requires hs != [] && IsHeaders(cfg, hs)
    ensures IsHeaders(cfg, hs[..|hs| - 1]) && IsHeader(cfg, hs[|hs| - 1])
    ensures SortOf(hs[|hs| - 1].name).Sizing? ==> !Claims(hs[..|hs| - 1], HasLength)
  {
    hide IsHeader, SortOf;
  }

  /** A header adds what it says, and takes nothing back. */
  lemma {:induction false} EffectClaims(f: Frame, h: Header, c: Claim)
    ensures Holds(Effect(f, h), c) <==> Holds(f, c) || Makes(h, c)
    ensures Effect(f, h).flags.trailing == f.flags.trailing && Effect(f, h).flags.skipBody == f.flags.skipBody
  {
    hide Is, IsLength, DecValue, HttpLists.ListFlags, HttpLists.EndsChunked, BeginsTE, LowerName, Trimmed;
    NoneBegins(LowerName(h.name));
    match SortOf(h.name)
    case Ordinary =>
    case Upgrading =>
    case Connecting => HttpLists.ListFlagsUnion(f.flags, h.value);
    case Sizing =>
    case Coding =>
  }

  /** The framing holds exactly what some header has said. */
  lemma {:induction false} FrameClaims(f: Frame, hs: seq<Header>, c: Claim)
    ensures Holds(FrameAfter(f, hs), c) <==> Holds(f, c) || Claims(hs, c)
    ensures FrameAfter(f, hs).flags.trailing == f.flags.trailing && FrameAfter(f, hs).flags.skipBody == f.flags.skipBody
  {
    hide Effect, Holds, Makes, Claims;
    if hs == [] {
      NoClaims(c);
    } else {
      var k := |hs| - 1;
      FrameClaims(f, hs[..k], c);
      ClaimsMore(hs, c);
      EffectClaims(FrameAfter(f, hs[..k]), hs[k], c);
    }
  }

  lemma NoClaims(c: Claim)
    ensures !Claims([], c)
  {
  }

  /** The length is the number in the one Content-Length header. */
  lemma {:induction false} FrameLength(cfg: Config, f: Frame, hs: seq<Header>, i: nat)
    requires IsHeaders(cfg, hs) && i < |hs| && SortOf(hs[i].name).Sizing?
    ensures FrameAfter(f, hs).length == DecValue(Trimmed(hs[i].value))
  {
    hide IsHeader, SortOf, IsLength, Trimmed, DecValue;
    var k := |hs| - 1;
    LengthEffect(cfg, FrameAfter(f, hs[..k]), hs[k]);
    if i < k {
      OneMore(cfg, hs);
      assert hs[..k][i] == hs[i];
      FrameLength(cfg, f, hs[..k], i);
    }
  }

  lemma {:induction false} LengthEffect(cfg: Config, f: Frame, h: Header)
    requires IsHeader(cfg, h)
    ensures Effect(f, h).length == if SortOf(h.name).Sizing? then DecValue(Trimmed(h.value)) else f.length
  {
    hide SortOf, IsLength, Trimmed, DecValue, IsValue, IsBlank, IsToken;
  }

  lemma {:induction false} FrameNoLength(cfg: Config, f: Frame, hs: seq<Header>)
    requires IsHeaders(cfg, hs) && !Claims(hs, HasLength)
    ensures FrameAfter(f, hs).length == f.length
  {
    hide IsHeader, SortOf, Effect;
    if hs != [] {
      var k := |hs| - 1;
      OneMore(cfg, hs);
      ClaimsMore(hs, HasLength);
      FrameNoLength(cfg, f, hs[..k]);
      LengthEffect(cfg, FrameAfter(f, hs[..k]), hs[k]);
    }
  }

  /** The next header, behind others. */
  lemma {:induction false} HeaderBehind(cfg: Config, q1: Machine, h: Header) returns (q: Machine)
    requires AtHeader(q1.p) && IsHeader(cfg, h) && Separate(Settled(q1).trace)
    requires SortOf(h.name).Sizing? ==> !Settled(q1).p.flags.contentLength
    requires Settled(q1).p.state == InHeader(FieldStart) && Settled(q1).p.nread + |Text(h)| <= cfg.maxHeader
    ensures Run(cfg, q1, Text(h)) == Ready(q)
    ensures ReadTo(Settled(q1), q, Effect(FrameOf(Settled(q1).p), h), |Text(h)|, Settled(q1).trace + Events(h))
  {
    hide Run, IsHeader, Text, Effect, SortOf, Settled, AtHeader, ReadTo;
    q := HeaderRead(cfg, Settled(q1), h);
    TextStarts(cfg, h);
    SettleRun(cfg, q1, Text(h));
  }

  lemma ReadOn(m: Machine, q1: Machine, f1: Frame, n1: nat, t1: seq<Event>, q: Machine, f: Frame, n: nat, t: seq<Event>)
    requires ReadTo(m, q1, f1, n1, t1) && ReadTo(Settled(q1), q, f, n, t)
    ensures ReadTo(m, q, f, n1 + n, t)
  {
    hide Settled, AtHeader;
  }

  lemma SettledIs(m: Machine, q: Machine, f: Frame, n: nat, t: seq<Event>)
    requires ReadTo(m, q, f, n, t)
    ensures AtHeader(q.p) && Settled(q).trace == t && FrameOf(Settled(q).p) == f
    ensures Settled(q).p.state == InHeader(FieldStart) && Settled(q).p.nread == m.p.nread + n
  {
    hide Settled, AtHeader;
  }

  /** A list of headers is delivered name by name and value by value, in order, and leaves the framing it says. */
  lemma {:induction false} HeadersRead(cfg: Config, m: Machine, hs: seq<Header>) returns (q: Machine)
    requires m.p.state == InHeader(FieldStart) && IsHeaders(cfg, hs) && Separate(m.trace)
    requires m.p.flags.contentLength ==> !Claims(hs, HasLength)
    requires m.p.nread + |HeaderText(hs)| <= cfg.maxHeader
    ensures Run(cfg, m, HeaderText(hs)) == Ready(q)
    ensures ReadTo(m, q, FrameAfter(FrameOf(m.p), hs), |HeaderText(hs)|, m.trace + HeaderEvents(hs))
    ensures Separate(m.trace + HeaderEvents(hs))
    decreases |hs|
  {
    hide Run, IsHeaders, IsHeader, Text, Effect, SortOf, Claims, Settled, AtHeader, Holds, ReadTo, Separate, Events;
    if hs == [] {
      q := m;
      EmptyRun(cfg, m);
      NothingYet(m);
      assert m.trace + [] == m.trace;
    } else {
      var k := |hs| - 1;
      OneMore(cfg, hs);
      ClaimsMore(hs, HasLength);
      var q1 := HeadersRead(cfg, m, hs[..k]);
      var t := m.trace + HeaderEvents(hs[..k]);
      NoLengthYet(m.p, hs[..k]);
      SettledIs(m, q1, FrameAfter(FrameOf(m.p), hs[..k]), |HeaderText(hs[..k])|, t);
      q := HeaderBehind(cfg, q1, hs[k]);
      ReadOn(m, q1, FrameAfter(FrameOf(m.p), hs[..k]), |HeaderText(hs[..k])|, t,
             q, FrameAfter(FrameOf(m.p), hs), |Text(hs[k])|, t + Events(hs[k]));
      Continue(cfg, m, HeaderText(hs[..k]), q1, Text(hs[k]), q);
      MoreEvents(m.trace, hs);
    }
  }

  lemma NothingYet(m: Machine)
    requires m.p.state == InHeader(FieldStart)
    ensures ReadTo(m, m, FrameOf(m.p), 0, m.trace)
  {
  }

  lemma NoLengthYet(p: Parser, hs: seq<Header>)
    requires p.flags.contentLength ==> !Claims(hs, HasLength)
    ensures FrameAfter(FrameOf(p), hs).flags.contentLength ==> p.flags.contentLength || Claims(hs, HasLength)
  {
    hide FrameAfter, Claims;
    FrameClaims(FrameOf(p), hs, HasLength);
  }

  lemma MoreEvents(t: seq<Event>, hs: seq<Header>)
    requires hs != []
    ensures t + HeaderEvents(hs[..|hs| - 1]) + Events(hs[|hs| - 1]) == t + HeaderEvents(hs)
    ensures Separate(t + HeaderEvents(hs))
  {
    hide FullValue;
    var k := |hs| - 1;
    assert t + HeaderEvents(hs[..k]) + Events(hs[k]) == t + HeaderEvents(hs);
    assert (t + HeaderEvents(hs))[|t + HeaderEvents(hs)| - 1] == Data(OnValue, FullValue(hs[k]));
  }

  lemma {:induction false} TextStarts(cfg: Config, h: Header)
    requires IsHeader(cfg, h)
    ensures Text(h) != [] && Text(h)[0] != SP && Text(h)[0] != HT
  {
    assert Text(h)[0] == h.name[0];
  }

  // ---------- lengths that are refused ----------

  lemma {:induction false} LengthFailTurn(cfg: Config, p: Parser, ch: Byte)
    requires p.state == InHeader(DiscardWs) && p.matcher.ContentLength? && p.nread + 1 <= cfg.maxHeader
    requires ch != SP && ch != HT && !IsEol(ch) && (IsNum(ch) ==> p.flags.contentLength)
    ensures Turn(cfg, p, ch) == Fail(if IsNum(ch) then UnexpectedContentLength else InvalidContentLength)
  {
    hide AtFieldStart, AtHeadersAlmostDone;
  }

  lemma {:induction false} LengthFails(cfg: Config, m: Machine, name: seq<Byte>, blanks: seq<Byte>, ch: Byte)
    requires m.p.state == InHeader(FieldStart) && IsToken(name) && SortOf(name).Sizing? && IsBlank(blanks)
    requires ch != SP && ch != HT && !IsEol(ch) && (IsNum(ch) ==> m.p.flags.contentLength)
    requires m.p.nread + |HeaderStart(name, blanks)| + 1 <= cfg.maxHeader
    ensures Run(cfg, m, HeaderStart(name, blanks) + [ch]) == Broken(if IsNum(ch) then UnexpectedContentLength else InvalidContentLength)
  {
    hide Turn, Run, IsToken, IsBlank, HeaderStart, Is, LowerName, IsNum, IsFieldMatcher;
    var q := HeaderStartRead(cfg, m, name, blanks);
    var err := if IsNum(ch) then UnexpectedContentLength else InvalidContentLength;
    LengthFailTurn(cfg, q, ch);
    FailingByte(cfg, Machine(q, Append(m.trace, OnField, name)), ch, err);
    RunConcat(cfg, m, HeaderStart(name, blanks), [ch]);
  }

  lemma StartsPlain(name: seq<Byte>, blanks: seq<Byte>, ch: Byte)
    requires IsToken(name)
    ensures var s := HeaderStart(name, blanks) + [ch]; s != [] && s[0] != SP && s[0] != HT
  {
    assert (HeaderStart(name, blanks) + [ch])[0] == name[0];
  }
}
