/** Calls of the parser on buffers, byte by byte, with the marks and callbacks of the source;
    cutting the input into pieces does not change what a run does. */
module HttpCalls {
  import opened Ascii
  import opened Options
  import opened HttpTypes
  import opened HttpTrans

  /** Notifications in normal form: neighbouring data callbacks for one element are joined,
      as the interface of the parser asks its users to do. */
  datatype Event = Note(n: Notice) | Data(e: Element, bytes: seq<Byte>)

  function Append(t: seq<Event>, e: Element, bytes: seq<Byte>): seq<Event> {
    if |t| > 0 && t[|t| - 1].Data? && t[|t| - 1].e == e
    then t[..|t| - 1] + [Data(e, t[|t| - 1].bytes + bytes)]
    else t + [Data(e, bytes)]
  }

  lemma AppendTwice(t: seq<Event>, e: Element, a: seq<Byte>, b: seq<Byte>)
    ensures Append(Append(t, e, a), e, b) == Append(t, e, a + b)
  {
    if |t| > 0 && t[|t| - 1].Data? && t[|t| - 1].e == e {
      assert t[|t| - 1].bytes + a + b == t[|t| - 1].bytes + (a + b);
    }
  }

  function Slice(data: seq<Byte>, a: nat, b: nat): seq<Byte> {
    if a <= b <= |data| then data[a..b] else []
  }

  type Marks = map<Element, nat>

  /** The callback macros at position `i` of a buffer. */
  datatype Out = Out(marks: Marks, trace: seq<Event>) {
    function FlushTo(e: Element, data: seq<Byte>, i: nat): Out {
      if e in marks then Out(marks - {e}, Append(trace, e, Slice(data, marks[e], i))) else this
    }

    function Do(a: Action, data: seq<Byte>, i: nat): Out {
      match a
      case Mark(e) => if e in marks then this else this.(marks := marks[e := i])
      case Flush(e) => FlushTo(e, data, i)
      case FlushIncluding(e) => FlushTo(e, data, i + 1)
      case Notify(n) => this.(trace := trace + [Note(n)])
    }

    function DoAll(acts: Script, data: seq<Byte>, i: nat): Out
      decreases acts
    {
      match acts
      case Nil => this
      case Act(a, rest) => Do(a, data, i).DoAll(rest, data, i)
    }

    /** The callbacks for the marks left over at the end of a call. */
    function Close(data: seq<Byte>): seq<Event> {
      FlushTo(OnField, data, |data|).FlushTo(OnValue, data, |data|).FlushTo(OnUrl, data, |data|)
        .FlushTo(OnBody, data, |data|).FlushTo(OnStatus, data, |data|).trace
    }
  }

  datatype Open = Closed | Lent(e: Element) | Opened(e: Element)

  /** The element whose mark is set again when a call starts in state `s`. */
  function StateOpen(s: State): Open {
    match s
    case InUrl(_) => Opened(OnUrl)
    case InStatus => Opened(OnStatus)
    case InHeader(FieldName) => Opened(OnField)
    case InHeader(ValueText) => Opened(OnValue)
    case _ => Closed
  }

  /** States in which the body mark may be left over from earlier bytes of the same call. */
  predicate BodyMayBeOpen(s: State) { s.InBody? && !s.body.ChunkDataDone? }

  function StartMarks(s: State): Marks {
    match StateOpen(s)
    case Opened(e) => map[e := 0]
    case _ => map[]
  }

  /** Where a call stands after some bytes of its buffer. */
  datatype Progress =
    | Running(p: Parser, out: Out)
    | Quitted(p: Parser, trace: seq<Event>, at: nat)
    | Failed(err: Errno)
    | Crashed

  function Bytes(cfg: Config, p: Parser, trace: seq<Event>, data: seq<Byte>, i: nat): Progress
    requires i <= |data|
  {
    if i == 0 then Running(p, Out(StartMarks(p.state), trace))
    else match Bytes(cfg, p, trace, data, i - 1)
      case Running(q, out) => After(Turn(cfg, q, data[i - 1]), out, data, i - 1)
      case stopped => stopped
  }

  function After(o: Outcome, out: Out, data: seq<Byte>, i: nat): Progress {
    match o
    case Next(q, acts) => Running(q, out.DoAll(acts, data, i))
    case Quit(q, acts) => Quitted(q, out.DoAll(acts, data, i).trace, i + 1)
    case Fail(err) => Failed(err)
    case Asserted => Crashed
  }

  /** A parser and the notifications it has sent. */
  datatype Machine = Machine(p: Parser, trace: seq<Event>)

  /** What feeding bytes led to. `Left` is the early return of a protocol upgrade. */
  datatype Fed = Ready(m: Machine) | Left(m: Machine, at: nat) | Broken(err: Errno) | Aborted

  /** One call on one nonempty buffer. */
  function Call(cfg: Config, m: Machine, data: seq<Byte>): Fed {
    match Bytes(cfg, m.p, m.trace, data, |data|)
    case Running(p, out) => Ready(Machine(p, out.Close(data)))
    case Quitted(p, trace, at) => Left(Machine(p, trace), at)
    case Failed(err) => Broken(err)
    case Crashed => Aborted
  }

  function Shift(r: Fed, k: nat): Fed {
    if r.Left? then r.(at := r.at + k) else r
  }

  /** One call per byte: the reference behaviour. */
  function Run(cfg: Config, m: Machine, data: seq<Byte>): Fed
    decreases |data|
  {
    if data == [] then Ready(m)
    else
      var k := |data| - 1;
      match Run(cfg, m, data[..k])
      case Ready(m') => Shift(Call(cfg, m', data[k..]), k)
      case stopped => stopped
  }

  /** One call per piece. */
  function Calls(cfg: Config, m: Machine, pieces: seq<seq<Byte>>): Fed
    decreases |pieces|
  {
    if pieces == [] then Ready(m)
    else
      var k := |pieces| - 1;
      match Calls(cfg, m, pieces[..k])
      case Ready(m') => Shift(Call(cfg, m', pieces[k]), |Joined(pieces[..k])|)
      case stopped => stopped
  }

  function Joined(pieces: seq<seq<Byte>>): seq<Byte> {
    if pieces == [] then [] else Joined(pieces[..|pieces| - 1]) + pieces[|pieces| - 1]
  }

  // ---------- which marks can be open ----------

  predicate LegalAct(open: Open, a: Action) {
    match a
    case Mark(e) => open.Closed? || open.e == e
    case Flush(e) => open.Closed? || open.e == e
    case FlushIncluding(e) => open == Opened(e)
    case Notify(_) => open.Closed?
  }

  function OpenAct(open: Open, a: Action): Open {
    match a
    case Mark(e) => Opened(e)
    case Flush(_) => Closed
    case FlushIncluding(_) => Closed
    case Notify(_) => Closed
  }

  predicate Legal(open: Open, acts: Script)
    decreases acts
  {
    match acts
    case Nil => true
    case Act(a, rest) => LegalAct(open, a) && Legal(OpenAct(open, a), rest)
  }

  function OpenAfter(open: Open, acts: Script): Open
    decreases acts
  {
    match acts
    case Nil => open
    case Act(a, rest) => OpenAfter(OpenAct(open, a), rest)
  }

  /** The marks that fit the state: exactly the element being read, or possibly the body. */
  predicate Fits(s: State, open: Open) {
    open == StateOpen(s) || (open == Opened(OnBody) && BodyMayBeOpen(s))
  }

  predicate WellMarked(o: Outcome, open: Open) {
    match o
    case Next(p, acts) => Legal(open, acts) && Fits(p.state, OpenAfter(open, acts))
    case Quit(p, acts) => Legal(open, acts) && OpenAfter(open, acts).Closed?
    case _ => true
  }

  lemma BeforeWellMarked(a: Action, o: Outcome, open: Open)
    requires LegalAct(open, a) && WellMarked(o, OpenAct(open, a))
    ensures WellMarked(Before(a, o), open)
  {
  }

  lemma PlainWellMarked(p: Parser)
    requires StateOpen(p.state).Closed?
    ensures WellMarked(Next(p, Nil), Closed) && forall err :: WellMarked(Fail(err), Closed)
  {
  }

  lemma {:induction false} LineWellMarked(p: Parser, s: LineState, ch: Byte)
    requires p.state == InLine(s)
    ensures WellMarked(TransLine(p, s, ch), Closed)
  {
  }

  lemma {:induction false} HeadersDoneWellMarked(cfg: Config, p: Parser, ch: Byte)
    ensures WellMarked(AtHeadersAlmostDone(cfg, p, ch), Closed)
  {
  }

  lemma {:induction false} FieldStartWellMarked(cfg: Config, p: Parser, ch: Byte)
    ensures WellMarked(AtFieldStart(cfg, p, ch), Closed)
  {
    HeadersDoneWellMarked(cfg, p.(state := InHeader(HeadersAlmostDone)), ch);
  }

  lemma {:induction false} FieldWellMarked(p: Parser, ch: Byte)
    requires p.state == InHeader(FieldName)
    ensures WellMarked(AtField(p, ch), Opened(OnField))
  {
  }

  lemma {:induction false} ValueStartWellMarked(p: Parser, ch: Byte)
    ensures WellMarked(AtValueStart(p, ch), Closed)
  {
  }

  lemma {:induction false} ValueWellMarked(cfg: Config, p: Parser, ch: Byte)
    requires p.state == InHeader(ValueText)
    ensures WellMarked(AtValue(cfg, p, ch), Opened(OnValue))
  {
  }

  lemma {:induction false} DiscardLwsWellMarked(cfg: Config, p: Parser, ch: Byte)
    requires p.state == InHeader(DiscardLws)
    ensures WellMarked(AtDiscardLws(cfg, p, ch), Closed)
  {
    hide AtFieldStart, WellMarked;
    var q := p.(flags := FinishedHeader(p), state := InHeader(FieldStart));
    FieldStartWellMarked(cfg, q, ch);
    BeforeWellMarked(Flush(OnValue), AtFieldStart(cfg, q, ch), Opened(OnValue));
    BeforeWellMarked(Mark(OnValue), Before(Flush(OnValue), AtFieldStart(cfg, q, ch)), Closed);
    PlainWellMarked(p.(state := InHeader(DiscardWs)));
  }

  lemma {:induction false} HeaderWellMarked(cfg: Config, p: Parser, s: HeaderPhase, ch: Byte)
    requires p.state == InHeader(s)
    ensures WellMarked(TransHeader(cfg, p, s, ch), StateOpen(InHeader(s)))
  {
    match s
    case FieldStart => FieldStartWellMarked(cfg, p, ch);
    case FieldName => FieldWellMarked(p, ch);
    case DiscardWs => ValueStartWellMarked(p, ch);
    case DiscardWsAlmostDone =>
    case DiscardLws => DiscardLwsWellMarked(cfg, p, ch);
    case ValueText => ValueWellMarked(cfg, p, ch);
    case ValueLws =>
      FieldStartWellMarked(cfg, p.(flags := FinishedHeader(p), state := InHeader(FieldStart)), ch);
      ValueStartWellMarked(p.(matcher := if p.matcher.ContentLengthNum? then ContentLengthWs else p.matcher), ch);
    case HeaderAlmostDone =>
    case HeadersAlmostDone => HeadersDoneWellMarked(cfg, p, ch);
  }

  lemma {:induction false} BodyWellMarked(p: Parser, s: BodyState, ch: Byte, open: Open)
    requires p.state == InBody(s)
    requires open.Closed? || open == Lent(OnBody)
    requires s.ChunkDataDone? ==> open.Closed?
    ensures WellMarked(TransBody(p, s, ch), open)
  {
  }

  /** The marks open at the start of a byte: those of the state, or a body mark of this call. */
  predicate MayStart(s: State, open: Open) {
    open == StateOpen(s) || (open == Lent(OnBody) && BodyMayBeOpen(s))
  }

  lemma {:induction false} TransWellMarked(cfg: Config, p: Parser, ch: Byte, open: Open)
    requires MayStart(p.state, open)
    ensures WellMarked(Trans(cfg, p, ch), open)
  {
    match p.state
    case InLine(s) => LineWellMarked(p, s, ch);
    case InUrl(s) =>
    case InStatus =>
    case InHeader(s) => HeaderWellMarked(cfg, p, s, ch);
    case InSize(s) =>
    case InBody(s) => BodyWellMarked(p, s, ch, open);
  }

  lemma {:induction false} TurnWellMarked(cfg: Config, p: Parser, ch: Byte, open: Open)
    requires MayStart(p.state, open)
    ensures WellMarked(Turn(cfg, p, ch), open)
  {
    hide Trans;
    TransWellMarked(cfg, p, ch, open);
    TransWellMarked(cfg, p.(nread := (p.nread + 1) % U32), ch, open);
  }
}
