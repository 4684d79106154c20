/** Several messages on one connection (section 6.3 of RFC 7230): messages back to back are read one after the
    other, and nothing is read behind the one that closes the connection. */
module HttpConnection {
  import opened Ascii
  import opened Options
  import opened HttpTypes
  import opened HttpTrans
  import opened HttpCalls
  import opened HttpSplit
  import opened HttpFraming
  import opened HttpLength
  import opened HttpLine
  import opened HttpHeaders
  import opened HttpMessage

  /** A message, and the empty lines in front of it. */
  datatype Message =
    | AsRequest(lead: seq<Byte>, ask: RequestLine, rest: Rest)
    | AsResponse(lead: seq<Byte>, reply: StatusLine, rest: Rest)

  /** Nothing but CR and LF. */
  predicate OnlyBreaks(s: seq<Byte>) { forall i :: 0 <= i < |s| ==> s[i] == 13 || s[i] == 10 }

  function SenderOf(x: Message): Sender
    requires x.AsResponse? ==> IsAccepted(x.reply)
  {
    if x.AsRequest? then Asking(Connects(x.ask)) else Answering(DecValue(x.reply.code))
  }

  /** A message that ends by itself, behind which the connection is not handed over. */
  ghost predicate IsMessage(cfg: Config, x: Message) {
    OnlyBreaks(x.lead) && (if x.AsRequest? then IsRequestLine(x.ask) else IsAccepted(x.reply))
    && IsRest(cfg, x.rest) && Suits(cfg, SenderOf(x), x.rest.headers, x.rest.body)
    && !x.rest.body.UntilClose? && !Switches(SenderOf(x), x.rest.headers)
  }

  function LineText(x: Message): seq<Byte> { if x.AsRequest? then RequestText(x.ask) else StatusText(x.reply) }

  function MessageText(x: Message): seq<Byte> { x.lead + (LineText(x) + RestText(x.rest)) }

  function MessageEvents(x: Message): seq<Event> {
    if x.AsRequest? then RequestEvents(x.ask, x.rest) else ResponseEvents(x.reply, x.rest)
  }

  /** What its headers and its version say: another message may follow. */
  predicate LeavesOpen(x: Message) {
    if x.AsRequest? then IsVersion(x.ask.version) && Persists(Major(x.ask.version), Minor(x.ask.version), x.rest)
    else x.reply.a >= 48 && x.reply.b >= 48 && Persists(x.reply.a - 48, x.reply.b - 48, x.rest)
  }

  /** The parser waits for a message of this sender. */
  predicate Waits(p: Parser, request: bool) {
    p.state == InLine(if request then StartReq else StartRes) && (if request then p.kind.Request? else p.kind.Response?)
    && (!request ==> !p.verb.CONNECT?)
  }

  /** The head of the message is within the limit when `n` bytes are counted already. */
  predicate WithinLimit(cfg: Config, n: nat, x: Message) {
    n + |x.lead| + |LineText(x)| + |Section(x.rest)| <= cfg.maxHeader
  }

  // ---------- breaks between messages ----------

  lemma BreakTurn(cfg: Config, p: Parser, ch: Byte)
    requires p.nread + 1 <= cfg.maxHeader
    ensures p.state == InLine(StartReq) || p.state == InLine(StartRes) || p.state == InLine(Dead) ==>
      (ch == 13 || ch == 10 ==> Turn(cfg, p, ch) == Next(p.(nread := p.nread + 1), Nil))
    ensures p.state == InLine(Dead) && ch != 13 && ch != 10 ==> Turn(cfg, p, ch) == Fail(ClosedConnection)
  {
  }

  /** Empty lines are skipped in front of a message and behind the last one. */
  lemma {:induction false} BreaksRead(cfg: Config, m: Machine, s: seq<Byte>)
    requires m.p.state == InLine(StartReq) || m.p.state == InLine(StartRes) || m.p.state == InLine(Dead)
    requires OnlyBreaks(s) && m.p.nread + |s| <= cfg.maxHeader
    ensures Run(cfg, m, s) == Ready(Machine(m.p.(nread := m.p.nread + |s|), m.trace))
    decreases |s|
  {
    hide Turn, Run;
    if s == [] {
      EmptyRun(cfg, m);
    } else {
      var k := |s| - 1;
      BreaksRead(cfg, m, s[..k]);
      var m1 := Machine(m.p.(nread := m.p.nread + k), m.trace);
      var m2 := Machine(m.p.(nread := m.p.nread + |s|), m.trace);
      BreakTurn(cfg, m1.p, s[k]);
      QuietByte(cfg, m1, s[k], m2.p);
      Continue(cfg, m, s[..k], m1, [s[k]], m2);
      assert s == s[..k] + [s[k]];
    }
  }

  /** Behind a message that closes the connection only empty lines are taken. */
  lemma {:induction false} ClosedRead(cfg: Config, m: Machine, s: seq<Byte>)
    requires m.p.state == InLine(Dead) && m.p.nread + |s| <= cfg.maxHeader
    ensures Run(cfg, m, s) ==
      if OnlyBreaks(s) then Ready(Machine(m.p.(nread := m.p.nread + |s|), m.trace)) else Broken(ClosedConnection)
    decreases |s|
  {
    hide Turn, Run;
    if OnlyBreaks(s) {
      BreaksRead(cfg, m, s);
    } else {
      var k := |s| - 1;
      var t := s[..k];
      assert s == t + [s[k]];
      RunConcat(cfg, m, t, [s[k]]);
      ClosedRead(cfg, m, t);
      if OnlyBreaks(t) {
        var m1 := Machine(m.p.(nread := m.p.nread + k), m.trace);
        BreakTurn(cfg, m1.p, s[k]);
        FailingByte(cfg, m1, s[k], ClosedConnection);
      }
    }
  }

  // ---------- one message, and many ----------

  lemma {:induction false} MessageRead(cfg: Config, m: Machine, x: Message) returns (q: Parser)
    requires IsMessage(cfg, x) && Waits(m.p, x.AsRequest?) && WithinLimit(cfg, m.p.nread, x) && cfg.answer(m.p.blocks) == Proceed
    ensures Run(cfg, m, MessageText(x)) == Ready(Machine(q, m.trace + MessageEvents(x)))
    ensures q.blocks == m.p.blocks + 1 && q.nread == Counted(x.rest.body)
    ensures if LeavesOpen(x) then Waits(q, x.AsRequest?) else q.state == InLine(Dead)
  {
    hide Run, RequestText, StatusText, RestText, Section, IsRest, Suits, Switches, IsRequestLine, Persists, Connects, DecValue, RequestEvents, ResponseEvents, OnlyBreaks,
         IsStatusLine;
    var m1 := Machine(m.p.(nread := m.p.nread + |x.lead|), m.trace);
    BreaksRead(cfg, m, x.lead);
    if x.AsRequest? {
      q := RequestRead(cfg, m1, x.ask, x.rest);
      LineHasVersion(x.ask);
    } else {
      q := ResponseRead(cfg, m1, x.reply, x.rest);
      CodesAreDigits(x.reply);
    }
    Continue(cfg, m, x.lead, m1, LineText(x) + RestText(x.rest), Machine(q, m.trace + MessageEvents(x)));
  }

  lemma LineHasVersion(x: RequestLine)
    requires IsRequestLine(x)
    ensures IsVersion(x.version)
  {
  }

  lemma CodesAreDigits(x: StatusLine)
    requires IsStatusLine(x)
    ensures x.a >= 48 && x.b >= 48
  {
  }

  function AllText(xs: seq<Message>): seq<Byte> {
    if xs == [] then [] else AllText(xs[..|xs| - 1]) + MessageText(xs[|xs| - 1])
  }

  function AllMessageEvents(xs: seq<Message>): seq<Event> {
    if xs == [] then [] else AllMessageEvents(xs[..|xs| - 1]) + MessageEvents(xs[|xs| - 1])
  }

  /** What is counted of the header limit in front of the i-th message. */
  function CountedBefore(n: nat, xs: seq<Message>, i: nat): nat
    requires i <= |xs|
  {
    if i == 0 then n else Counted(xs[i - 1].rest.body)
  }

  /** The i-th message is within the limit, and leaves the connection open if another one follows. */
  ghost predicate InTurn(cfg: Config, request: bool, n: nat, b: nat, xs: seq<Message>, i: nat)
    requires i < |xs|
  {
    IsMessage(cfg, xs[i]) && xs[i].AsRequest? == request && WithinLimit(cfg, CountedBefore(n, xs, i), xs[i])
    && cfg.answer(b + i) == Proceed && (i < |xs| - 1 ==> LeavesOpen(xs[i]))
  }

  /** Messages of one sender, one behind the other. */
  ghost predicate Follow(cfg: Config, request: bool, n: nat, b: nat, xs: seq<Message>) {
    forall i :: 0 <= i < |xs| ==> InTurn(cfg, request, n, b, xs, i)
  }

  lemma {:induction false} FollowFront(cfg: Config, request: bool, n: nat, b: nat, xs: seq<Message>)
    requires xs != [] && Follow(cfg, request, n, b, xs)
    ensures Follow(cfg, request, n, b, xs[..|xs| - 1]) && (|xs| > 1 ==> LeavesOpen(xs[..|xs| - 1][|xs| - 2]))
  {
    hide IsMessage, WithinLimit, LeavesOpen, Counted;
    var k := |xs| - 1;
    forall i | 0 <= i < k ensures InTurn(cfg, request, n, b, xs[..k], i) {
      assert InTurn(cfg, request, n, b, xs, i);
    }
    if k > 0 {
      assert InTurn(cfg, request, n, b, xs, k - 1);
    }
  }

  lemma {:induction false} FollowLast(cfg: Config, request: bool, n: nat, b: nat, xs: seq<Message>)
    requires xs != [] && Follow(cfg, request, n, b, xs)
    ensures
      var k := |xs| - 1;
      IsMessage(cfg, xs[k]) && xs[k].AsRequest? == request && WithinLimit(cfg, CountedBefore(n, xs[..k], k), xs[k])
      && cfg.answer(b + k) == Proceed
  {
    hide IsMessage, WithinLimit, LeavesOpen, Counted;
    assert InTurn(cfg, request, n, b, xs, |xs| - 1);
  }

  lemma {:induction false} MessagesRead(cfg: Config, m: Machine, request: bool, xs: seq<Message>) returns (q: Parser)
    requires Waits(m.p, request) && Follow(cfg, request, m.p.nread, m.p.blocks, xs)
    ensures Run(cfg, m, AllText(xs)) == Ready(Machine(q, m.trace + AllMessageEvents(xs)))
    ensures q.blocks == m.p.blocks + |xs| && q.nread == CountedBefore(m.p.nread, xs, |xs|)
    ensures if xs == [] || LeavesOpen(xs[|xs| - 1]) then Waits(q, request) else q.state == InLine(Dead)
    decreases |xs|
  {
    hide Run, IsMessage, WithinLimit, LeavesOpen, MessageText, MessageEvents, Counted, Waits, Follow;
    if xs == [] {
      EmptyRun(cfg, m);
      q := m.p;
      assert m.trace + [] == m.trace;
    } else {
      var k := |xs| - 1;
      FollowFront(cfg, request, m.p.nread, m.p.blocks, xs);
      FollowLast(cfg, request, m.p.nread, m.p.blocks, xs);
      var p := MessagesRead(cfg, m, request, xs[..k]);
      var m1 := Machine(p, m.trace + AllMessageEvents(xs[..k]));
      q := MessageRead(cfg, m1, xs[k]);
      Continue(cfg, m, AllText(xs[..k]), m1, MessageText(xs[k]), Machine(q, m1.trace + MessageEvents(xs[k])));
      assert m1.trace + MessageEvents(xs[k]) == m.trace + AllMessageEvents(xs);
    }
  }

  /** Messages back to back, cut into calls anywhere, are delivered one after the other. */
  lemma {:induction false} Pipeline(cfg: Config, m: Machine, request: bool, xs: seq<Message>, pieces: seq<seq<Byte>>) returns (q: Parser)
    requires Waits(m.p, request) && Follow(cfg, request, m.p.nread, m.p.blocks, xs)
    requires Joined(pieces) == AllText(xs) && forall i :: 0 <= i < |pieces| ==> pieces[i] != []
    ensures Calls(cfg, m, pieces) == Ready(Machine(q, m.trace + AllMessageEvents(xs)))
    ensures if xs == [] || LeavesOpen(xs[|xs| - 1]) then Waits(q, request) else q.state == InLine(Dead)
  {
    hide Run, Calls, AllText, AllMessageEvents, LeavesOpen, Waits, Follow;
    SplitInvariance(cfg, m, pieces);
    q := MessagesRead(cfg, m, request, xs);
  }

  /** Behind a message that does not leave the connection open, empty lines are skipped without a callback; anything
      else, another message as well, is an error. */
  lemma {:induction false} ClosedBehind(cfg: Config, m: Machine, request: bool, xs: seq<Message>, more: seq<Byte>, pieces: seq<seq<Byte>>)
    requires Waits(m.p, request) && Follow(cfg, request, m.p.nread, m.p.blocks, xs) && xs != [] && !LeavesOpen(xs[|xs| - 1])
    requires CountedBefore(m.p.nread, xs, |xs|) + |more| <= cfg.maxHeader
    requires Joined(pieces) == AllText(xs) + more && forall i :: 0 <= i < |pieces| ==> pieces[i] != []
    ensures
      var r := Calls(cfg, m, pieces);
      if OnlyBreaks(more) then r.Ready? && r.m.trace == m.trace + AllMessageEvents(xs) && r.m.p.state == InLine(Dead)
      else r == Broken(ClosedConnection)
  {
    hide Run, Calls, AllText, AllMessageEvents, LeavesOpen, Waits, Follow, OnlyBreaks, CountedBefore;
    SplitInvariance(cfg, m, pieces);
    var q := MessagesRead(cfg, m, request, xs);
    RunConcat(cfg, m, AllText(xs), more);
    ClosedRead(cfg, Machine(q, m.trace + AllMessageEvents(xs)), more);
  }

  /** Two requests of one connection meet what Pipeline asks for. */
  lemma {:induction false} TwoRequests(cfg: Config) returns (xs: seq<Message>)
    requires cfg.answer(0) == Proceed && cfg.answer(1) == Proceed && cfg.maxHeader >= 200
    ensures |xs| == 2 && Follow(cfg, true, 0, 0, xs) && LeavesOpen(xs[1])
  {
    hide IsRequestLine, IsRest, Suits, Switches, Persists, Connects;
    var r := Instance(cfg);
    xs := [AsRequest([], GET_ROOT, r), AsRequest([13, 10], GET_ROOT, r)];
    GetSizes(r);
    assert InTurn(cfg, true, 0, 0, xs, 0);
    assert InTurn(cfg, true, 0, 0, xs, 1);
  }

  lemma GetSizes(r: Rest)
    requires r == Rest([HOST, LENGTH, EMPTY], [CR, LF], Sized([104, 105]))
    ensures |RequestText(GET_ROOT)| < 50 && |Section(r)| < 100 && Major(GET_ROOT.version) == 1 && Minor(GET_ROOT.version) == 1
  {
    var hs := r.headers;
    var two, one, none := [HOST, LENGTH], [HOST], hs[..0];
    assert hs[..2] == two && two[..1] == one && one[..0] == none;
    assert |HeaderText(none)| == 0;
    assert |HeaderText(one)| == |Text(HOST)|;
    assert |HeaderText(two)| == |HeaderText(one)| + |Text(LENGTH)|;
    assert |HeaderText(hs)| == |HeaderText(two)| + |Text(EMPTY)|;
    assert |Text(HOST)| < 20 && |Text(LENGTH)| < 40 && |Text(EMPTY)| < 20;
  }
}
