/** First lines (sections 3.1.1 and 3.1.2 of RFC 7230): what is written is what is delivered. */
module HttpLine {
  import opened Ascii
  import opened Options
  import opened HttpTypes
  import opened HttpTrans
  import opened HttpCalls
  import opened HttpSplit
  import opened HttpFraming
  import opened HttpLength
  import opened HttpNames
  import opened Url
  import opened UrlSplit
  import opened UrlGrammar

  // ---------- versions ----------

  /** The states of "TTP/a.b" after its first H, in a request or a response. */
  function VersionState(req: bool, k: nat): LineState
    requires k <= 7
  {
    match k
    case 0 => if req then ReqHttpH else ResH
    case 1 => if req then ReqHttpHT else ResHT
    case 2 => if req then ReqHttpHTT else ResHTT
    case 3 => if req then ReqHttpHTTP else ResHTTP
    case 4 => if req then ReqMajor else ResMajor
    case 5 => if req then ReqDot else ResDot
    case 6 => if req then ReqMinor else ResMinor
    case _ => if req then ReqEnd else ResEnd
  }

  function VersionText(a: Byte, b: Byte): (s: seq<Byte>)
    ensures |s| == 7
  {
    [84, 84, 80, SLASH, a, DOT, b]
  }

  function AtVersion(p: Parser, req: bool, a: Byte, b: Byte, k: nat): Parser
    requires k <= 7 && IsNum(a) && IsNum(b)
  {
    p.(state := InLine(VersionState(req, k)), nread := p.nread + k,
       major := if k > 4 then a - 48 else p.major, minor := if k > 6 then b - 48 else p.minor)
  }

  lemma {:induction false} VersionTurn(cfg: Config, p: Parser, req: bool, a: Byte, b: Byte, k: nat)
    requires k < 7 && IsNum(a) && IsNum(b) && p.nread + k + 1 <= cfg.maxHeader
    ensures Turn(cfg, AtVersion(p, req, a, b, k), VersionText(a, b)[k]) == Next(AtVersion(p, req, a, b, k + 1), Nil)
  {
  }

  /** A stretch of it. */
  lemma {:induction false} VersionPiece(cfg: Config, p: Parser, t: seq<Event>, req: bool, a: Byte, b: Byte, j: nat, k: nat)
    requires j <= k <= 7 && IsNum(a) && IsNum(b) && p.nread + k <= cfg.maxHeader
    ensures Run(cfg, Machine(AtVersion(p, req, a, b, j), t), VersionText(a, b)[j..k]) == Ready(Machine(AtVersion(p, req, a, b, k), t))
    decreases k
  {
    hide Turn, Run, VersionText;
    var m := Machine(AtVersion(p, req, a, b, j), t);
    if k == j {
      assert VersionText(a, b)[j..j] == [];
      EmptyRun(cfg, m);
    } else {
      VersionPiece(cfg, p, t, req, a, b, j, k - 1);
      var v := VersionText(a, b);
      var m1 := Machine(AtVersion(p, req, a, b, k - 1), t);
      var m2 := Machine(AtVersion(p, req, a, b, k), t);
      VersionTurn(cfg, p, req, a, b, k - 1);
      QuietByte(cfg, m1, v[k - 1], m2.p);
      Continue(cfg, m, v[j..k - 1], m1, [v[k - 1]], m2);
      assert v[j..k] == v[j..k - 1] + [v[k - 1]];
    }
  }

  lemma {:induction false} VersionRead(cfg: Config, m: Machine, req: bool, a: Byte, b: Byte)
    requires IsNum(a) && IsNum(b) && m.p.state == InLine(VersionState(req, 0)) && m.p.nread + 7 <= cfg.maxHeader
    ensures Run(cfg, m, VersionText(a, b)) == Ready(Machine(AtVersion(m.p, req, a, b, 7), m.trace))
  {
    hide Turn, Run, VersionText;
    VersionPiece(cfg, m.p, m.trace, req, a, b, 0, 7);
    assert AtVersion(m.p, req, a, b, 0) == m.p;
    assert VersionText(a, b)[0..7] == VersionText(a, b);
  }

  lemma {:induction false} IceTurn(cfg: Config, p: Parser)
    requires p.nread + 1 <= cfg.maxHeader
    ensures p.state == InLine(ReqHttpI) ==> Turn(cfg, p, 67) == Next(p.(state := InLine(ReqHttpIC), nread := p.nread + 1), Nil)
    ensures p.state == InLine(ReqHttpIC) ==> Turn(cfg, p, 69) == Next(p.(state := InLine(ReqHttpHTTP), nread := p.nread + 1), Nil)
  {
  }

  /** "CE/a.b", behind an I. */
  lemma {:induction false} IceRead(cfg: Config, m: Machine, a: Byte, b: Byte)
    requires IsNum(a) && IsNum(b) && m.p.state == InLine(ReqHttpI) && 1 <= m.p.nread && m.p.nread + 6 <= cfg.maxHeader
    ensures Run(cfg, m, [67, 69] + VersionText(a, b)[3..7]) == Ready(Machine(AtVersion(m.p, true, a, b, 7).(nread := m.p.nread + 6), m.trace))
  {
    hide Turn, Run, VersionText;
    IceTurn(cfg, m.p);
    var m1 := Machine(m.p.(state := InLine(ReqHttpIC), nread := m.p.nread + 1), m.trace);
    QuietByte(cfg, m, 67, m1.p);
    IceTurn(cfg, m1.p);
    var m2 := Machine(m1.p.(state := InLine(ReqHttpHTTP), nread := m1.p.nread + 1), m.trace);
    QuietByte(cfg, m1, 69, m2.p);
    Continue(cfg, m, [67], m1, [69], m2);
    var p := m.p.(nread := m.p.nread - 1);
    assert AtVersion(p, true, a, b, 3) == m2.p;
    VersionPiece(cfg, p, m.trace, true, a, b, 3, 7);
    assert [67] + [69] == [67, 69];
    Continue(cfg, m, [67, 69], m2, VersionText(a, b)[3..7], Machine(AtVersion(p, true, a, b, 7), m.trace));
  }

  lemma EmptyRun(cfg: Config, m: Machine)
    ensures Run(cfg, m, []) == Ready(m)
  {
  }

  // ---------- status codes and reasons ----------

  function CodeRead(p: Parser, n: nat, v: nat): Parser {
    p.(state := InLine(ResStatusCode), nread := p.nread + n, status := v)
  }

  lemma {:induction false} CodeTurn(cfg: Config, p: Parser, ch: Byte)
    requires p.nread + 1 <= cfg.maxHeader && IsNum(ch)
    ensures p.state == InLine(ResFirstStatusCode) ==> Turn(cfg, p, ch) == Next(CodeRead(p, 1, ch - 48), Nil)
    ensures p.state == InLine(ResStatusCode) ==>
              Turn(cfg, p, ch) == if p.status * 10 + (ch - 48) > 999 then Fail(InvalidStatus)
                                  else Next(CodeRead(p, 1, p.status * 10 + (ch - 48)), Nil)
  {
  }

  /** A status code is accepted if and only if its decimal value is at most 999, and then is that value. */
  lemma {:induction false} StatusCodeExact(cfg: Config, m: Machine, code: seq<Byte>)
    requires m.p.state == InLine(ResFirstStatusCode) && IsDecString(code) && m.p.nread + |code| <= cfg.maxHeader
    ensures Run(cfg, m, code) == if DecValue(code) <= 999 then Ready(Machine(CodeRead(m.p, |code|, DecValue(code)), m.trace))
                                 else Broken(InvalidStatus)
    decreases |code|
  {
    hide Turn, Run;
    var k := |code| - 1;
    if k == 0 {
      assert code == [code[0]];
      CodeTurn(cfg, m.p, code[0]);
      QuietByte(cfg, m, code[0], CodeRead(m.p, 1, DecValue(code)));
    } else {
      StatusCodeExact(cfg, m, code[..k]);
      assert code == code[..k] + [code[k]];
      RunConcat(cfg, m, code[..k], [code[k]]);
      if DecValue(code[..k]) <= 999 {
        var m1 := Machine(CodeRead(m.p, k, DecValue(code[..k])), m.trace);
        CodeTurn(cfg, m1.p, code[k]);
        if DecValue(code) <= 999 {
          QuietByte(cfg, m1, code[k], CodeRead(m.p, |code|, DecValue(code)));
        } else {
          FailingByte(cfg, m1, code[k], InvalidStatus);
        }
      }
    }
  }

  // ---------- blanks and line ends ----------

  predicate IsGap(s: seq<Byte>) { forall i :: 0 <= i < |s| ==> s[i] == SP }

  predicate IsEnd(s: seq<Byte>) { s == [CR, LF] || s == [LF] }

  /** States in which more spaces are passed over. */
  predicate InGap(s: State) { s == InLine(ReqSpacesBeforeUrl) || s == InLine(ReqHttpStart) || s == InLine(ResFirstStatusCode) }

  lemma {:induction false} GapTurn(cfg: Config, p: Parser)
    requires InGap(p.state) && p.nread + 1 <= cfg.maxHeader
    ensures Turn(cfg, p, SP) == Next(p.(nread := p.nread + 1), Nil)
  {
  }

  lemma {:induction false} GapRead(cfg: Config, m: Machine, gap: seq<Byte>)
    requires InGap(m.p.state) && IsGap(gap) && m.p.nread + |gap| <= cfg.maxHeader
    ensures Run(cfg, m, gap) == Ready(Machine(m.p.(nread := m.p.nread + |gap|), m.trace))
    decreases |gap|
  {
    hide Turn, Run, InGap;
    if gap == [] {
      EmptyRun(cfg, m);
    } else {
      var k := |gap| - 1;
      GapRead(cfg, m, gap[..k]);
      var m1 := Machine(m.p.(nread := m.p.nread + k), m.trace);
      GapTurn(cfg, m1.p);
      GapQuiet(m1.p.state);
      QuietByte(cfg, m1, SP, m.p.(nread := m.p.nread + |gap|));
      Continue(cfg, m, gap[..k], m1, [SP], Machine(m.p.(nread := m.p.nread + |gap|), m.trace));
      assert gap == gap[..k] + [SP];
    }
  }

  lemma GapQuiet(s: State)
    requires InGap(s)
    ensures StateOpen(s).Closed?
  {
  }

  lemma {:induction false} AlmostTurn(cfg: Config, p: Parser)
    requires p.nread + 1 <= cfg.maxHeader && (p.state == InLine(ResLineAlmostDone) || p.state == InLine(ReqLineAlmostDone))
    ensures Turn(cfg, p, LF) == Next(p.(state := InHeader(FieldStart), nread := p.nread + 1), Nil)
  {
  }

  function BehindEnd(ch: Byte, req: bool): State {
    if ch == LF then InHeader(FieldStart) else InLine(if req then ReqLineAlmostDone else ResLineAlmostDone)
  }

  /** A line end whose first byte leaves the parser in `p`. */
  lemma {:induction false} LineEnds(cfg: Config, m: Machine, end: seq<Byte>, req: bool, p: Parser, t: seq<Event>)
    requires IsEnd(end) && Run(cfg, m, [end[0]]) == Ready(Machine(p, t)) && p.state == BehindEnd(end[0], req)
    requires p.nread + |end| - 1 <= cfg.maxHeader
    ensures Run(cfg, m, end) == Ready(Machine(p.(state := InHeader(FieldStart), nread := p.nread + |end| - 1), t))
  {
    hide Turn, Run;
    if end == [CR, LF] {
      AlmostTurn(cfg, p);
      var q := p.(state := InHeader(FieldStart), nread := p.nread + 1);
      QuietByte(cfg, Machine(p, t), LF, q);
      Continue(cfg, m, [CR], Machine(p, t), [LF], Machine(q, t));
      assert end == [CR] + [LF];
    }
  }

  // ---------- the status line ----------

  predicate IsReason(s: seq<Byte>) { forall i :: 0 <= i < |s| ==> !IsEol(s[i]) }

  lemma {:induction false} ReasonTurn(cfg: Config, p: Parser, ch: Byte)
    requires p.nread + 1 <= cfg.maxHeader
    ensures p.state == InLine(ResStatusStart) && !IsEol(ch) ==>
              Turn(cfg, p, ch) == Next(p.(state := InStatus, index := 0, nread := p.nread + 1), One(Mark(OnStatus)))
    ensures p.state == InStatus && !IsEol(ch) ==> Turn(cfg, p, ch) == Next(p.(nread := p.nread + 1), Nil)
    ensures p.state == InStatus && IsEol(ch) ==>
              Turn(cfg, p, ch) == Next(p.(state := BehindEnd(ch, false), nread := p.nread + 1), One(Flush(OnStatus)))
    ensures p.state == InLine(ResEnd) && ch == SP ==>
              Turn(cfg, p, ch) == Next(p.(state := InLine(ResFirstStatusCode), nread := p.nread + 1), Nil)
    ensures p.state == InLine(ResStatusCode) && ch == SP ==>
              Turn(cfg, p, ch) == Next(p.(state := InLine(ResStatusStart), nread := p.nread + 1), Nil)
  {
  }

  /** A line that ends without a reason reports an empty one. */
  lemma {:induction false} NoReasonTurn(cfg: Config, p: Parser, ch: Byte)
    requires p.nread + 1 <= cfg.maxHeader && IsEol(ch) && (p.state == InLine(ResStatusStart) || p.state == InLine(ResStatusCode))
    ensures Turn(cfg, p, ch) == Next(p.(state := BehindEnd(ch, false), index := 0, nread := p.nread + 1),
                                     Act(Mark(OnStatus), One(Flush(OnStatus))))
  {
  }

  /** A byte of the element whose mark a call starts with, or which this byte marks. */
  lemma {:induction false} OpenByte(cfg: Config, m: Machine, e: Element, ch: Byte, p: Parser)
    requires e == OnStatus || e == OnUrl
    requires (StateOpen(m.p.state) == Closed && Turn(cfg, m.p, ch) == Next(p, One(Mark(e))))
          || (StateOpen(m.p.state) == Opened(e) && Turn(cfg, m.p, ch) == Next(p, Nil))
    ensures Run(cfg, m, [ch]) == Ready(Machine(p, Append(m.trace, e, [ch])))
  {
    hide Turn;
    SingleByte(cfg, m, ch);
    var out := Out(map[e := 0], m.trace);
    assert out.marks - {e} == map[] && Slice([ch], 0, 1) == [ch];
    assert out.Close([ch]) == Append(m.trace, e, [ch]);
  }

  /** The byte behind an element: the callback at its end adds nothing to the bytes. */
  lemma {:induction false} EndByte(cfg: Config, m: Machine, e: Element, ch: Byte, p: Parser)
    requires StateOpen(m.p.state) == Opened(e) && Turn(cfg, m.p, ch) == Next(p, One(Flush(e)))
    ensures Run(cfg, m, [ch]) == Ready(Machine(p, Append(m.trace, e, [])))
  {
    hide Turn;
    SingleByte(cfg, m, ch);
    var out := Out(map[e := 0], m.trace);
    assert out.marks - {e} == map[] && Slice([ch], 0, 0) == [];
  }

  /** A byte that marks an element and ends it at once. */
  lemma {:induction false} EmptyByte(cfg: Config, m: Machine, e: Element, ch: Byte, p: Parser)
    requires StateOpen(m.p.state).Closed? && Turn(cfg, m.p, ch) == Next(p, Act(Mark(e), One(Flush(e))))
    ensures Run(cfg, m, [ch]) == Ready(Machine(p, Append(m.trace, e, [])))
  {
    hide Turn, Append;
    SingleByte(cfg, m, ch);
    var out := Out(map[e := 0], m.trace);
    assert out.marks - {e} == map[] && Slice([ch], 0, 0) == [];
    assert Out(map[], m.trace).Do(Mark(e), [ch], 0) == out;
    assert out.DoAll(One(Flush(e)), [ch], 0) == Out(map[], Append(m.trace, e, []));
  }

  lemma {:induction false} ReasonRead(cfg: Config, m: Machine, reason: seq<Byte>)
    requires m.p.state == InLine(ResStatusStart) && IsReason(reason) && reason != [] && m.p.nread + |reason| <= cfg.maxHeader
    ensures Run(cfg, m, reason) ==
              Ready(Machine(m.p.(state := InStatus, index := 0, nread := m.p.nread + |reason|), Append(m.trace, OnStatus, reason)))
    decreases |reason|
  {
    hide Turn, Run;
    var k := |reason| - 1;
    var q := m.p.(state := InStatus, index := 0, nread := m.p.nread + |reason|);
    if k == 0 {
      assert reason == [reason[0]];
      ReasonTurn(cfg, m.p, reason[0]);
      OpenByte(cfg, m, OnStatus, reason[0], q);
    } else {
      ReasonRead(cfg, m, reason[..k]);
      var m1 := Machine(q.(nread := m.p.nread + k), Append(m.trace, OnStatus, reason[..k]));
      ReasonTurn(cfg, m1.p, reason[k]);
      OpenByte(cfg, m1, OnStatus, reason[k], q);
      AppendTwice(m.trace, OnStatus, reason[..k], [reason[k]]);
      assert reason == reason[..k] + [reason[k]];
      Continue(cfg, m, reason[..k], m1, [reason[k]], Machine(q, Append(m.trace, OnStatus, reason)));
    }
  }

  function StatusHead(a: Byte, b: Byte): seq<Byte> { [72] + VersionText(a, b) + [SP] }

  /** A status line: version, more spaces, code, and the reason behind a space, or neither. */
  datatype StatusLine = StatusLine(a: Byte, b: Byte, gap: seq<Byte>, code: seq<Byte>, spaced: bool, reason: seq<Byte>, end: seq<Byte>)

  predicate IsStatusLine(x: StatusLine) {
    IsNum(x.a) && IsNum(x.b) && IsGap(x.gap) && IsDecString(x.code) && IsReason(x.reason) && (!x.spaced ==> x.reason == [])
    && IsEnd(x.end)
  }

  function ReasonText(x: StatusLine): seq<Byte> { if x.spaced then [SP] + x.reason else [] }

  function StatusText(x: StatusLine): seq<Byte> { StatusHead(x.a, x.b) + x.gap + x.code + (ReasonText(x) + x.end) }

  /** The parser behind the status line. */
  function AfterStatus(p: Parser, x: StatusLine): Parser
    requires IsStatusLine(x)
  {
    ResetMessage(p).(state := InHeader(FieldStart), major := x.a - 48, minor := x.b - 48, status := DecValue(x.code), index := 0,
                     nread := p.nread + |StatusText(x)|)
  }

  lemma {:induction false} StatusHeadRead(cfg: Config, m: Machine, a: Byte, b: Byte)
    requires m.p.state == InLine(StartRes) && IsNum(a) && IsNum(b) && m.p.nread + 9 <= cfg.maxHeader
    ensures Run(cfg, m, StatusHead(a, b)) ==
              Ready(Machine(ResetMessage(m.p).(state := InLine(ResFirstStatusCode), major := a - 48, minor := b - 48,
                                               nread := m.p.nread + 9), m.trace + [Note(MessageBegin)]))
  {
    hide Turn, Run, VersionText;
    var t := m.trace + [Note(MessageBegin)];
    var p1 := ResetMessage(m.p).(state := InLine(ResH), nread := m.p.nread + 1);
    StartResTurn(cfg, m.p);
    NotingByte(cfg, m, 72, p1, MessageBegin);
    VersionRead(cfg, Machine(p1, t), false, a, b);
    var p2 := AtVersion(p1, false, a, b, 7);
    Continue(cfg, m, [72], Machine(p1, t), VersionText(a, b), Machine(p2, t));
    var p3 := p2.(state := InLine(ResFirstStatusCode), nread := p2.nread + 1);
    ReasonTurn(cfg, p2, SP);
    QuietByte(cfg, Machine(p2, t), SP, p3);
    Continue(cfg, m, [72] + VersionText(a, b), Machine(p2, t), [SP], Machine(p3, t));
  }

  lemma {:induction false} StartResTurn(cfg: Config, p: Parser)
    requires p.state == InLine(StartRes) && p.nread + 1 <= cfg.maxHeader
    ensures Turn(cfg, p, 72) == Next(ResetMessage(p).(state := InLine(ResH), nread := p.nread + 1), One(Notify(MessageBegin)))
  {
  }

  /** The line end behind a reason that has been delivered, or in its place. */
  lemma {:induction false} ReasonEnd(cfg: Config, m: Machine, before: seq<Event>, reason: seq<Byte>, end: seq<Byte>)
    requires IsEnd(end) && m.p.nread + |end| <= cfg.maxHeader
    requires if m.p.state == InStatus then m.trace == Append(before, OnStatus, reason)
             else m.trace == before && reason == [] && (m.p.state == InLine(ResStatusStart) || m.p.state == InLine(ResStatusCode))
    ensures Run(cfg, m, end) ==
              Ready(Machine(m.p.(state := InHeader(FieldStart), nread := m.p.nread + |end|,
                                 index := if m.p.state == InStatus then m.p.index else 0), Append(before, OnStatus, reason)))
  {
    hide Turn, Run, Append;
    if m.p.state == InStatus {
      AppendTwice(before, OnStatus, reason, []);
      assert reason + [] == reason;
      ReasonTurn(cfg, m.p, end[0]);
      EndByte(cfg, m, OnStatus, end[0], Turn(cfg, m.p, end[0]).p);
    } else {
      NoReasonTurn(cfg, m.p, end[0]);
      EmptyByte(cfg, m, OnStatus, end[0], Turn(cfg, m.p, end[0]).p);
    }
    LineEnds(cfg, m, end, false, Turn(cfg, m.p, end[0]).p, Append(before, OnStatus, reason));
  }

  /** What follows the code. */
  lemma {:induction false} StatusTailRead(cfg: Config, m: Machine, x: StatusLine)
    requires m.p.state == InLine(ResStatusCode) && IsStatusLine(x) && m.p.nread + |ReasonText(x)| + |x.end| <= cfg.maxHeader
    ensures Run(cfg, m, ReasonText(x) + x.end) ==
              Ready(Machine(m.p.(state := InHeader(FieldStart), index := 0, nread := m.p.nread + |ReasonText(x)| + |x.end|),
                            Append(m.trace, OnStatus, x.reason)))
  {
    hide Turn, Run, IsReason, Append, IsEnd;
    if !x.spaced {
      ReasonEnd(cfg, m, m.trace, [], x.end);
      assert ReasonText(x) + x.end == x.end;
    } else {
      var m1 := Machine(m.p.(state := InLine(ResStatusStart), nread := m.p.nread + 1), m.trace);
      ReasonTurn(cfg, m.p, SP);
      QuietByte(cfg, m, SP, m1.p);
      var m2 := m1;
      if x.reason == [] {
        assert [SP] + x.reason == [SP];
      } else {
        ReasonRead(cfg, m1, x.reason);
        m2 := Machine(m1.p.(state := InStatus, index := 0, nread := m1.p.nread + |x.reason|), Append(m.trace, OnStatus, x.reason));
        Continue(cfg, m, [SP], m1, x.reason, m2);
      }
      ReasonEnd(cfg, m2, m.trace, x.reason, x.end);
      Continue(cfg, m, [SP] + x.reason, m2, x.end,
               Machine(m2.p.(state := InHeader(FieldStart), nread := m2.p.nread + |x.end|, index := 0), Append(m.trace, OnStatus, x.reason)));
    }
  }

  /** A status line is accepted if and only if its code is at most 999; the version and the code are the
      numbers written, and the reason is delivered, if only an empty one. */
  lemma {:induction false} StatusLineRead(cfg: Config, m: Machine, x: StatusLine)
    requires m.p.state == InLine(StartRes) && IsStatusLine(x) && m.p.nread + |StatusText(x)| <= cfg.maxHeader
    ensures Run(cfg, m, StatusText(x)) ==
              if DecValue(x.code) <= 999 then
                Ready(Machine(AfterStatus(m.p, x), m.trace + [Note(MessageBegin), Data(OnStatus, x.reason)]))
              else Broken(InvalidStatus)
  {
    hide Turn, Run, VersionText, ReasonText, IsReason, IsEnd;
    StatusHeadRead(cfg, m, x.a, x.b);
    var head := StatusHead(x.a, x.b);
    var m0 := Run(cfg, m, head).m;
    GapRead(cfg, m0, x.gap);
    var m1 := Machine(m0.p.(nread := m0.p.nread + |x.gap|), m0.trace);
    Continue(cfg, m, head, m0, x.gap, m1);
    StatusCodeExact(cfg, m1, x.code);
    RunConcat(cfg, m, head + x.gap, x.code);
    var tail := ReasonText(x) + x.end;
    RunConcat(cfg, m, head + x.gap + x.code, tail);
    if DecValue(x.code) <= 999 {
      var m2 := Machine(CodeRead(m1.p, |x.code|, DecValue(x.code)), m1.trace);
      StatusTailRead(cfg, m2, x);
      assert Append(m1.trace, OnStatus, x.reason) == m.trace + [Note(MessageBegin), Data(OnStatus, x.reason)];
    }
  }

  // ---------- the request line ----------

  lemma {:induction false} TargetEndTurn(cfg: Config, p: Parser, ch: Byte)
    requires p.nread + 1 <= cfg.maxHeader
    ensures p.state.InUrl? && !UrlCannotEnd(p.state.url) && ch == SP ==>
              Turn(cfg, p, ch) == Next(p.(state := InLine(ReqHttpStart), nread := p.nread + 1), One(Flush(OnUrl)))
    ensures p.state.InUrl? && !UrlCannotEnd(p.state.url) && IsEol(ch) ==>
              Turn(cfg, p, ch) == Next(p.(state := BehindEnd(ch, true), major := 0, minor := 9, nread := p.nread + 1), One(Flush(OnUrl)))
  {
    hide ParseUrlChar;
  }

  lemma {:induction false} VersionEndTurn(cfg: Config, p: Parser, ch: Byte)
    requires p.nread + 1 <= cfg.maxHeader
    ensures p.state == InLine(ReqHttpStart) && ch == 72 ==>
              Turn(cfg, p, ch) == Next(p.(state := InLine(ReqHttpH), nread := p.nread + 1), Nil)
    ensures p.state == InLine(ReqHttpStart) && ch == 73 && p.verb.SOURCE? ==>
              Turn(cfg, p, ch) == Next(p.(state := InLine(ReqHttpI), nread := p.nread + 1), Nil)
    ensures p.state == InLine(ReqEnd) && IsEol(ch) ==>
              Turn(cfg, p, ch) == Next(p.(state := BehindEnd(ch, true), nread := p.nread + 1), Nil)
  {
  }

  /** The version of a request line: none at all stands for 0.9. The protocol is HTTP, or ICE behind the method SOURCE. */
  datatype Version = NoVersion | Version(gap: seq<Byte>, a: Byte, b: Byte) | IceVersion(gap: seq<Byte>, a: Byte, b: Byte)

  predicate IsVersion(v: Version) { !v.NoVersion? ==> IsGap(v.gap) && IsNum(v.a) && IsNum(v.b) }

  function Major(v: Version): nat
    requires IsVersion(v)
  {
    if v.NoVersion? then 0 else v.a - 48
  }

  function Minor(v: Version): nat
    requires IsVersion(v)
  {
    if v.NoVersion? then 9 else v.b - 48
  }

  function VersionPart(v: Version): seq<Byte> {
    match v
    case NoVersion => []
    case Version(gap, a, b) => [SP] + gap + [72] + VersionText(a, b)
    case IceVersion(gap, a, b) => [SP] + gap + [73] + ([67, 69] + VersionText(a, b)[3..7])
  }

  /** The space behind a target that has been delivered, and the version. */
  lemma {:induction false} VersionPartRead(cfg: Config, m: Machine, before: seq<Event>, target: seq<Byte>, v: Version)
    requires m.p.state.InUrl? && !UrlCannotEnd(m.p.state.url) && m.trace == Append(before, OnUrl, target)
    requires IsVersion(v) && !v.NoVersion? && (v.IceVersion? ==> m.p.verb.SOURCE?) && m.p.nread + |VersionPart(v)| <= cfg.maxHeader
    ensures Run(cfg, m, VersionPart(v)) ==
              Ready(Machine(m.p.(state := InLine(ReqEnd), major := Major(v), minor := Minor(v), nread := m.p.nread + |VersionPart(v)|), m.trace))
  {
    hide Turn, Run, VersionText, UrlCannotEnd, Append, IsGap, VersionPart, ProtocolText;
    PartIs(v);
    var m1 := Machine(m.p.(state := InLine(ReqHttpStart), nread := m.p.nread + 1), m.trace);
    TargetEndTurn(cfg, m.p, SP);
    AppendTwice(before, OnUrl, target, []);
    assert target + [] == target;
    EndByte(cfg, m, OnUrl, SP, m1.p);
    GapRead(cfg, m1, v.gap);
    var m2 := Machine(m1.p.(nread := m1.p.nread + |v.gap|), m.trace);
    Continue(cfg, m, [SP], m1, v.gap, m2);
    ProtocolRead(cfg, m2, v);
    var text := ProtocolText(v);
    Continue(cfg, m, [SP] + v.gap, m2, text, Run(cfg, m2, text).m);
  }

  function ProtocolText(v: Version): seq<Byte>
    requires !v.NoVersion?
  {
    if v.Version? then [72] + VersionText(v.a, v.b) else [73] + ([67, 69] + VersionText(v.a, v.b)[3..7])
  }

  lemma PartIs(v: Version)
    requires !v.NoVersion?
    ensures VersionPart(v) == [SP] + v.gap + ProtocolText(v)
  {
  }

  lemma {:induction false} ProtocolRead(cfg: Config, m: Machine, v: Version)
    requires m.p.state == InLine(ReqHttpStart) && IsVersion(v) && !v.NoVersion? && (v.IceVersion? ==> m.p.verb.SOURCE?)
    requires m.p.nread + |ProtocolText(v)| <= cfg.maxHeader
    ensures Run(cfg, m, ProtocolText(v)) ==
              Ready(Machine(m.p.(state := InLine(ReqEnd), major := Major(v), minor := Minor(v), nread := m.p.nread + |ProtocolText(v)|), m.trace))
  {
    hide Turn, Run, VersionText, IsGap;
    var c := if v.Version? then 72 else 73;
    var m3 := Machine(m.p.(state := InLine(if v.Version? then ReqHttpH else ReqHttpI), nread := m.p.nread + 1), m.trace);
    VersionEndTurn(cfg, m.p, c);
    QuietByte(cfg, m, c, m3.p);
    if v.Version? {
      VersionRead(cfg, m3, true, v.a, v.b);
      Continue(cfg, m, [72], m3, VersionText(v.a, v.b), Machine(AtVersion(m3.p, true, v.a, v.b, 7), m.trace));
    } else {
      IceRead(cfg, m3, v.a, v.b);
      Continue(cfg, m, [73], m3, [67, 69] + VersionText(v.a, v.b)[3..7],
               Machine(AtVersion(m3.p, true, v.a, v.b, 7).(nread := m3.p.nread + 6), m.trace));
    }
  }

  /** The rest of a request line. */
  lemma {:induction false} LineTailRead(cfg: Config, m: Machine, before: seq<Event>, target: seq<Byte>, v: Version, end: seq<Byte>)
    requires m.p.state.InUrl? && !UrlCannotEnd(m.p.state.url) && m.trace == Append(before, OnUrl, target)
    requires IsVersion(v) && (v.IceVersion? ==> m.p.verb.SOURCE?) && IsEnd(end) && m.p.nread + |VersionPart(v)| + |end| <= cfg.maxHeader
    ensures Run(cfg, m, VersionPart(v) + end) ==
              Ready(Machine(m.p.(state := InHeader(FieldStart), major := Major(v), minor := Minor(v),
                                 nread := m.p.nread + |VersionPart(v)| + |end|), m.trace))
  {
    hide Turn, Run, VersionText, UrlCannotEnd, Append, IsGap;
    if v.NoVersion? {
      TargetEndTurn(cfg, m.p, end[0]);
      AppendTwice(before, OnUrl, target, []);
      assert target + [] == target;
      EndByte(cfg, m, OnUrl, end[0], Turn(cfg, m.p, end[0]).p);
      LineEnds(cfg, m, end, true, Turn(cfg, m.p, end[0]).p, m.trace);
      assert VersionPart(v) + end == end;
    } else {
      VersionPartRead(cfg, m, before, target, v);
      var m1 := Run(cfg, m, VersionPart(v)).m;
      VersionEndTurn(cfg, m1.p, end[0]);
      QuietByte(cfg, m1, end[0], Turn(cfg, m1.p, end[0]).p);
      LineEnds(cfg, m1, end, true, Turn(cfg, m1.p, end[0]).p, m.trace);
      Continue(cfg, m, VersionPart(v), m1, end, Run(cfg, m1, end).m);
    }
  }

  datatype RequestLine = RequestLine(verb: seq<Byte>, gap: seq<Byte>, target: seq<Byte>, version: Version, end: seq<Byte>)

  predicate Connects(x: RequestLine) { Is(MethodName(CONNECT), x.verb) }

  ghost predicate IsRequestLine(x: RequestLine) {
    IsMethodName(x.verb) && IsGap(x.gap) && IsTargetText(Connects(x), x.target) && IsVersion(x.version)
    && (x.version.IceVersion? ==> Is(MethodName(SOURCE), x.verb)) && IsEnd(x.end)
  }

  function RequestText(x: RequestLine): seq<Byte> { x.verb + [SP] + x.gap + x.target + (VersionPart(x.version) + x.end) }

  lemma ConnectIsOne(v: Method, w: seq<Byte>)
    requires Is(MethodName(v), w)
    ensures v.CONNECT? <==> Is(MethodName(CONNECT), w)
  {
    if Is(MethodName(CONNECT), w) && !v.CONNECT? {
      SeventhLetter(v, w);
    }
  }

  /** No other name of seven letters begins with C, O, N. */
  lemma SeventhLetter(v: Method, w: seq<Byte>)
    requires Is(MethodName(v), w) && |w| == 7 && w[0] == 67 && w[2] == 78
    ensures v.CONNECT?
  {
  }

  lemma SourceIsOne(v: Method, w: seq<Byte>)
    requires Is(MethodName(v), w) && Is(MethodName(SOURCE), w)
    ensures v.SOURCE?
  {
    assert |w| == 6 && w[0] == 83 && w[1] == 79;
  }

  /** A request line: the method recognised is the one written, the target is delivered, the version is the one
      written, or 0.9. */
  lemma {:induction false} RequestLineRead(cfg: Config, m: Machine, x: RequestLine) returns (q: Parser)
    requires MayBeMethod(cfg, m, x.verb) && IsRequestLine(x) && m.p.nread + |RequestText(x)| <= cfg.maxHeader
    ensures Run(cfg, m, RequestText(x)) == Ready(Machine(q, m.trace + [Note(MessageBegin), Data(OnUrl, x.target)]))
    ensures OnlyLine(ResetMessage(m.p).(major := Major(x.version), minor := Minor(x.version)), q, |RequestText(x)|)
    ensures q.state == InHeader(FieldStart) && Is(MethodName(q.verb), x.verb) && (q.verb.CONNECT? <==> Connects(x))
  {
    hide Turn, Run, VersionText, UrlCannotEnd, StateAt, MethodName, IsMethodName, VersionPart, IsVersion, IsEnd, IsGap,
      Is, IsTargetText;
    MethodExact(cfg, m, x.verb);
    var m0 := Run(cfg, m, x.verb + [SP]).m;
    ConnectIsOne(m0.p.verb, x.verb);
    if x.version.IceVersion? { SourceIsOne(m0.p.verb, x.verb); }
    GapRead(cfg, m0, x.gap);
    var m1 := Machine(m0.p.(nread := m0.p.nread + |x.gap|), m0.trace);
    Continue(cfg, m, x.verb + [SP], m0, x.gap, m1);
    TargetsAre(Connects(x), x.target);
    TargetRead(cfg, m1, x.target);
    var s := StateAt(x.target, StartOf(Connects(x)), |x.target|);
    var m2 := Machine(m1.p.(state := InUrl(s), nread := m1.p.nread + |x.target|), Append(m1.trace, OnUrl, x.target));
    Continue(cfg, m, x.verb + [SP] + x.gap, m1, x.target, m2);
    var tail := VersionPart(x.version) + x.end;
    LineTailRead(cfg, m2, m1.trace, x.target, x.version, x.end);
    q := m2.p.(state := InHeader(FieldStart), major := Major(x.version), minor := Minor(x.version), nread := m2.p.nread + |tail|);
    Continue(cfg, m, x.verb + [SP] + x.gap + x.target, m2, tail, Machine(q, m2.trace));
    assert Append(m1.trace, OnUrl, x.target) == m.trace + [Note(MessageBegin), Data(OnUrl, x.target)];
  }

  // ---------- header names ----------

  /** Spaces and tabs, and line ends with a space or tab behind them. */
  predicate IsBlank(s: seq<Byte>) {
    s == [] || (IsWs(s[|s| - 1]) && (IsBlank(s[..|s| - 1]) || (0 < EndBefore(s) < |s| && IsBlank(s[..|s| - 1 - EndBefore(s)]))))
  }

  predicate IsWs(c: Byte) { c == SP || c == HT }

  /** The size of the line end in front of the last byte. */
  function EndBefore(s: seq<Byte>): nat {
    var k := |s| - 1;
    if k >= 2 && s[k - 2] == CR && s[k - 1] == LF then 2 else if k >= 1 && s[k - 1] == LF then 1 else 0
  }

  lemma EndBeforeIs(s: seq<Byte>)
    ensures var n := EndBefore(s); n > 0 ==> n < |s| && IsEnd(s[|s| - 1 - n..|s| - 1])
  {
    var k, n := |s| - 1, EndBefore(s);
    if n == 2 {
      assert s[k - 2..k] == [CR, LF];
    } else if n == 1 {
      assert s[k - 1..k] == [LF];
    }
  }

  lemma {:induction false} ColonTurn(cfg: Config, p: Parser, ch: Byte)
    requires p.nread + 1 <= cfg.maxHeader
    ensures p.state == InHeader(FieldName) && ch == COLON ==>
              Turn(cfg, p, ch) == Next(p.(state := InHeader(DiscardWs), nread := p.nread + 1), One(Flush(OnField)))
    ensures p.state == InHeader(DiscardWs) && IsWs(ch) ==> Turn(cfg, p, ch) == Next(p.(nread := p.nread + 1), Nil)
    ensures p.state == InHeader(DiscardLws) && IsWs(ch) ==>
              Turn(cfg, p, ch) == Next(p.(nread := p.nread + 1, state := InHeader(DiscardWs)), Nil)
  {
    hide NameChar, AtHeadersAlmostDone, AtValueStart, AtFieldStart;
  }

  lemma {:induction false} EmptyTurns(cfg: Config, p: Parser, ch: Byte)
    requires p.nread + 1 <= cfg.maxHeader
    ensures p.state == InHeader(DiscardWs) && ch == CR ==>
              Turn(cfg, p, ch) == Next(p.(nread := p.nread + 1, state := InHeader(DiscardWsAlmostDone)), Nil)
    ensures p.state == InHeader(DiscardWs) && ch == LF ==>
              Turn(cfg, p, ch) == Next(p.(nread := p.nread + 1, state := InHeader(DiscardLws)), Nil)
    ensures p.state == InHeader(DiscardWsAlmostDone) && ch == LF ==>
              Turn(cfg, p, ch) == Next(p.(nread := p.nread + 1, state := InHeader(DiscardLws)), Nil)
  {
    hide AtFieldStart, AtValueStart, AtHeadersAlmostDone, ValueChar, AtDiscardLws;
  }

  /** A line end where a value has not begun yet. */
  lemma {:induction false} EmptyRead(cfg: Config, m: Machine, end: seq<Byte>)
    requires m.p.state == InHeader(DiscardWs) && IsEnd(end) && m.p.nread + |end| <= cfg.maxHeader
    ensures Run(cfg, m, end) == Ready(Machine(m.p.(state := InHeader(DiscardLws), nread := m.p.nread + |end|), m.trace))
  {
    hide Turn, Run;
    EmptyTurns(cfg, m.p, end[0]);
    QuietByte(cfg, m, end[0], Turn(cfg, m.p, end[0]).p);
    if end == [CR, LF] {
      var m1 := Machine(m.p.(state := InHeader(DiscardWsAlmostDone), nread := m.p.nread + 1), m.trace);
      EmptyTurns(cfg, m1.p, LF);
      var m2 := Machine(m1.p.(state := InHeader(DiscardLws), nread := m1.p.nread + 1), m.trace);
      QuietByte(cfg, m1, LF, m2.p);
      Continue(cfg, m, [CR], m1, [LF], m2);
      assert end == [CR] + [LF];
    }
  }

  lemma {:induction false} BlanksRead(cfg: Config, m: Machine, blanks: seq<Byte>)
    requires m.p.state == InHeader(DiscardWs) && IsBlank(blanks) && m.p.nread + |blanks| <= cfg.maxHeader
    ensures Run(cfg, m, blanks) == Ready(Machine(m.p.(nread := m.p.nread + |blanks|), m.trace))
    decreases |blanks|
  {
    hide Turn, Run;
    if blanks == [] {
      EmptyRun(cfg, m);
    } else {
      var k := |blanks| - 1;
      var n := if IsBlank(blanks[..k]) then 0 else EndBefore(blanks);
      EndBeforeIs(blanks);
      BlanksRead(cfg, m, blanks[..k - n]);
      var m1 := Machine(m.p.(nread := m.p.nread + (k - n)), m.trace);
      var m2 := Machine(m.p.(nread := m.p.nread + k, state := if n == 0 then InHeader(DiscardWs) else InHeader(DiscardLws)), m.trace);
      if n > 0 {
        EmptyRead(cfg, m1, blanks[k - n..k]);
        Continue(cfg, m, blanks[..k - n], m1, blanks[k - n..k], m2);
        assert blanks[..k] == blanks[..k - n] + blanks[k - n..k];
      }
      ColonTurn(cfg, m2.p, blanks[k]);
      QuietByte(cfg, m2, blanks[k], m.p.(nread := m.p.nread + |blanks|));
      Continue(cfg, m, blanks[..k], m2, [blanks[k]], Machine(m.p.(nread := m.p.nread + |blanks|), m.trace));
      assert blanks == blanks[..k] + [blanks[k]];
    }
  }

  function HeaderStart(name: seq<Byte>, blanks: seq<Byte>): seq<Byte> { name + [COLON] + blanks }

  /** The name of a header with its colon and the blanks before the value. */
  lemma {:induction false} HeaderStartRead(cfg: Config, m: Machine, name: seq<Byte>, blanks: seq<Byte>) returns (q: Parser)
    requires m.p.state == InHeader(FieldStart) && IsToken(name) && IsBlank(blanks)
    requires m.p.nread + |HeaderStart(name, blanks)| <= cfg.maxHeader
    ensures Run(cfg, m, HeaderStart(name, blanks)) == Ready(Machine(q, Append(m.trace, OnField, name)))
    ensures q == m.p.(state := InHeader(DiscardWs), matcher := q.matcher, index := q.index, usesTE := q.usesTE,
                      nread := m.p.nread + |HeaderStart(name, blanks)|)
    ensures q.usesTE <==> m.p.usesTE || BeginsTE(LowerName(name))
    ensures q.matcher.ContentLength? <==> Is("content-length", LowerName(name))
    ensures q.matcher.TransferEncoding? <==> Is("transfer-encoding", LowerName(name))
    ensures q.matcher.Connection? <==> Is("connection", LowerName(name)) || Is("proxy-connection", LowerName(name))
    ensures q.matcher.Upgrade? <==> Is("upgrade", LowerName(name))
    ensures IsFieldMatcher(q.matcher)
  {
    hide Turn, Run, Is, BeginsTE, IsToken, LowerName, Knows, IsFieldMatcher;
    HeaderNameExact(cfg, m, name);
    var m1 := Run(cfg, m, name).m;
    ColonRead(cfg, m1, m.trace, name, blanks);
    q := m1.p.(state := InHeader(DiscardWs), nread := m1.p.nread + 1 + |blanks|);
    Continue(cfg, m, name, m1, [COLON] + blanks, Machine(q, m1.trace));
    assert HeaderStart(name, blanks) == name + ([COLON] + blanks);
  }

  /** What follows a header name that has been delivered. */
  lemma {:induction false} ColonRead(cfg: Config, m: Machine, before: seq<Event>, name: seq<Byte>, blanks: seq<Byte>)
    requires m.p.state == InHeader(FieldName) && m.trace == Append(before, OnField, name) && IsBlank(blanks)
    requires m.p.nread + 1 + |blanks| <= cfg.maxHeader
    ensures Run(cfg, m, [COLON] + blanks) ==
              Ready(Machine(m.p.(state := InHeader(DiscardWs), nread := m.p.nread + 1 + |blanks|), m.trace))
  {
    hide Turn, Run, IsBlank, Append;
    var m1 := Machine(m.p.(state := InHeader(DiscardWs), nread := m.p.nread + 1), m.trace);
    ColonTurn(cfg, m.p, COLON);
    AppendTwice(before, OnField, name, []);
    assert name + [] == name;
    EndByte(cfg, m, OnField, COLON, m1.p);
    BlanksRead(cfg, m1, blanks);
    Continue(cfg, m, [COLON], m1, blanks, Machine(m1.p.(nread := m1.p.nread + |blanks|), m.trace));
  }

  lemma FramingNames(t: seq<Byte>)
    ensures Is("content-length", t) || Is("connection", t) || Is("proxy-connection", t) ==> !BeginsTE(t)
    ensures Is("transfer-encoding", t) ==> BeginsTE(t)
  {
    if Is("transfer-encoding", t) {
      assert t[..17] == t;
    }
  }
}
