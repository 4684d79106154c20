/** The nested matchers recognise exactly the names they are for: request methods and the header
    names that decide the framing. */
module HttpNames {
  import opened Ascii
  import opened Options
  import opened HttpTypes
  import opened HttpTrans
  import opened HttpCalls
  import opened HttpSplit
  import opened HttpFraming

  /** `w` are the first bytes of the literal. */
  predicate Spells(name: string, w: seq<Byte>) {
    |w| <= |name| && forall i :: 0 <= i < |w| ==> name[i] as int == w[i]
  }

  predicate Is(name: string, w: seq<Byte>) { |w| == |name| && Spells(name, w) }

  // ---------- methods ----------

  lemma FirstMethodSpells(ch: Byte)
    requires HasMethod(ch)
    ensures IsAt(MethodName(FirstMethod(ch)), 0, ch)
  {
  }

  /** One other method shares the letters so far and has the new one. */
  predicate Switches(m: Method, m2: Method, index: nat, ch: Byte) {
    IsAt(MethodName(m2), index, ch) && index <= |MethodName(m)| && MethodName(m2)[..index] == MethodName(m)[..index]
  }

  lemma SwitchesFromP(m: Method, index: nat, ch: Byte)
    requires OtherMethod(m, index, ch).Some? && (m.POST? || m.PUT? || m.PROPFIND?)
    ensures Switches(m, OtherMethod(m, index, ch).value, index, ch)
  {
  }

  lemma SwitchesFromM(m: Method, index: nat, ch: Byte)
    requires OtherMethod(m, index, ch).Some? && (m.MKCOL? || m.CONNECT?)
    ensures Switches(m, OtherMethod(m, index, ch).value, index, ch)
  {
  }

  lemma SwitchesFromRest(m: Method, index: nat, ch: Byte)
    requires OtherMethod(m, index, ch).Some? && (m.SUBSCRIBE? || m.REPORT? || m.LOCK?)
    ensures Switches(m, OtherMethod(m, index, ch).value, index, ch)
  {
  }

  lemma SwitchesFromU(m: Method, index: nat, ch: Byte)
    requires OtherMethod(m, index, ch).Some? && m.UNLOCK?
    ensures Switches(m, OtherMethod(m, index, ch).value, index, ch)
  {
  }

  lemma SwitchesAt(m: Method, index: nat, ch: Byte)
    requires OtherMethod(m, index, ch).Some?
    ensures Switches(m, OtherMethod(m, index, ch).value, index, ch)
  {
    hide MethodName, Switches;
    if m.POST? || m.PUT? || m.PROPFIND? {
      SwitchesFromP(m, index, ch);
    } else if m.MKCOL? || m.CONNECT? {
      SwitchesFromM(m, index, ch);
    } else if m.UNLOCK? {
      SwitchesFromU(m, index, ch);
    } else {
      SwitchesFromRest(m, index, ch);
    }
  }

  lemma {:induction false} OtherMethodSpells(m: Method, index: nat, ch: Byte, w: seq<Byte>)
    requires OtherMethod(m, index, ch).Some? && |w| == index && Spells(MethodName(m), w)
    ensures Spells(MethodName(OtherMethod(m, index, ch).value), w + [ch])
  {
    hide OtherMethod, MethodName;
    var m2 := OtherMethod(m, index, ch).value;
    SwitchesAt(m, index, ch);
    forall i | 0 <= i < index
      ensures MethodName(m2)[i] as int == w[i]
    {
      assert MethodName(m2)[..index][i] == MethodName(m)[..index][i];
    }
  }

  /** The guess the parser holds after the first `k` bytes of the name of `m`. */
  function Guess(m: Method, k: nat): Method {
    match m
    case PUT => if k < 2 then POST else m
    case PATCH => if k < 2 then POST else m
    case PROPFIND => if k < 2 then POST else m
    case PROPPATCH => if k < 2 then POST else if k < 5 then PROPFIND else m
    case PURGE => if k < 2 then POST else if k < 3 then PUT else m
    case CHECKOUT => if k < 2 then CONNECT else m
    case COPY => if k < 3 then CONNECT else m
    case MOVE => if k < 2 then MKCOL else m
    case MERGE => if k < 2 then MKCOL else m
    case MSEARCH => if k < 2 then MKCOL else m
    case MKACTIVITY => if k < 3 then MKCOL else m
    case MKCALENDAR => if k < 4 then MKCOL else m
    case SEARCH => if k < 2 then SUBSCRIBE else m
    case SOURCE => if k < 2 then SUBSCRIBE else m
    case REBIND => if k < 3 then REPORT else m
    case LINK => if k < 2 then LOCK else m
    case UNSUBSCRIBE => if k < 3 then UNLOCK else m
    case UNBIND => if k < 3 then UNLOCK else m
    case UNLINK => if k < 4 then UNLOCK else m
    case _ => m
  }

  lemma {:induction false} GuessStarts(m: Method)
    ensures
      var ch := MethodName(m)[0] as int;
      0 <= ch < 256 && HasMethod(ch) && FirstMethod(ch) == Guess(m, 1) && Guess(m, |MethodName(m)|) == m
  {
  }

  /** The guess goes on to the next one. */
  predicate GoesOn(m: Method, k: nat, ch: Byte) {
    (65 <= ch <= 90 || ch == DASH) &&
    if IsAt(MethodName(Guess(m, k)), k, ch) then Guess(m, k + 1) == Guess(m, k)
    else OtherMethod(Guess(m, k), k, ch) == Some(Guess(m, k + 1))
  }

  /** Methods that are guessed right from the first letter on. */
  predicate Plain(m: Method) {
    m.DELETE? || m.GET? || m.HEAD? || m.POST? || m.CONNECT? || m.OPTIONS? || m.TRACE? || m.LOCK? || m.MKCOL?
    || m.UNLOCK? || m.BIND? || m.ACL? || m.REPORT? || m.NOTIFY? || m.SUBSCRIBE?
  }

  lemma PlainGoesOn(m: Method, k: nat, ch: Byte)
    requires Plain(m) && 1 <= k < |MethodName(m)| && IsAt(MethodName(m), k, ch)
    ensures GoesOn(m, k, ch)
  {
    hide OtherMethod;
  }

  lemma FromPGoesOn(m: Method, k: nat, ch: Byte)
    requires 1 <= k < |MethodName(m)| && IsAt(MethodName(m), k, ch)
    requires m.PUT? || m.PATCH? || m.PURGE?
    ensures GoesOn(m, k, ch)
  {
  }

  lemma FromPropGoesOn(m: Method, k: nat, ch: Byte)
    requires 1 <= k < |MethodName(m)| && IsAt(MethodName(m), k, ch)
    requires m.PROPFIND? || m.PROPPATCH?
    ensures GoesOn(m, k, ch)
  {
  }

  lemma FromCGoesOn(m: Method, k: nat, ch: Byte)
    requires 1 <= k < |MethodName(m)| && IsAt(MethodName(m), k, ch)
    requires m.CHECKOUT? || m.COPY?
    ensures GoesOn(m, k, ch)
  {
  }

  lemma FromMGoesOn(m: Method, k: nat, ch: Byte)
    requires 1 <= k < |MethodName(m)| && IsAt(MethodName(m), k, ch)
    requires m.MOVE? || m.MERGE? || m.MSEARCH?
    ensures GoesOn(m, k, ch)
  {
  }

  lemma FromMkGoesOn(m: Method, k: nat, ch: Byte)
    requires 1 <= k < |MethodName(m)| && IsAt(MethodName(m), k, ch)
    requires m.MKACTIVITY? || m.MKCALENDAR?
    ensures GoesOn(m, k, ch)
  {
  }

  lemma FromSGoesOn(m: Method, k: nat, ch: Byte)
    requires 1 <= k < |MethodName(m)| && IsAt(MethodName(m), k, ch)
    requires m.SEARCH? || m.SOURCE?
    ensures GoesOn(m, k, ch)
  {
  }

  lemma FromRLGoesOn(m: Method, k: nat, ch: Byte)
    requires 1 <= k < |MethodName(m)| && IsAt(MethodName(m), k, ch)
    requires m.REBIND? || m.LINK?
    ensures GoesOn(m, k, ch)
  {
  }

  lemma FromUnGoesOn(m: Method, k: nat, ch: Byte)
    requires 1 <= k < |MethodName(m)| && IsAt(MethodName(m), k, ch)
    requires m.UNSUBSCRIBE?
    ensures GoesOn(m, k, ch)
  {
  }

  lemma FromUGoesOn(m: Method, k: nat, ch: Byte)
    requires 1 <= k < |MethodName(m)| && IsAt(MethodName(m), k, ch)
    requires m.UNBIND? || m.UNLINK?
    ensures GoesOn(m, k, ch)
  {
  }

  lemma {:induction false} GuessGoesOn(m: Method, k: nat, ch: Byte)
    requires 1 <= k < |MethodName(m)| && IsAt(MethodName(m), k, ch)
    ensures GoesOn(m, k, ch)
  {
    hide MethodName, GoesOn;
    if Plain(m) {
      PlainGoesOn(m, k, ch);
    } else if m.PUT? || m.PATCH? || m.PURGE? {
      FromPGoesOn(m, k, ch);
    } else if m.PROPFIND? || m.PROPPATCH? {
      FromPropGoesOn(m, k, ch);
    } else if m.CHECKOUT? || m.COPY? {
      FromCGoesOn(m, k, ch);
    } else if m.MOVE? || m.MERGE? || m.MSEARCH? {
      FromMGoesOn(m, k, ch);
    } else if m.MKACTIVITY? || m.MKCALENDAR? {
      FromMkGoesOn(m, k, ch);
    } else if m.SEARCH? || m.SOURCE? {
      FromSGoesOn(m, k, ch);
    } else if m.REBIND? || m.LINK? {
      FromRLGoesOn(m, k, ch);
    } else if m.UNSUBSCRIBE? {
      FromUnGoesOn(m, k, ch);
    } else {
      FromUGoesOn(m, k, ch);
    }
  }

  /** Reading a method: the bytes so far spell the guess. */
  predicate Reading(p: Parser, w: seq<Byte>) {
    p.state == InLine(ReqMethod) && |w| == p.index && Spells(MethodName(p.verb), w)
  }

  /** Only the state, the guess and the counters have moved. */
  predicate OnlyLine(p: Parser, q: Parser, n: nat) {
    q == p.(state := q.state, verb := q.verb, index := q.index, nread := p.nread + n)
  }

  lemma {:induction false} MethodTurn(cfg: Config, p: Parser, w: seq<Byte>, ch: Byte)
    requires Reading(p, w) && p.nread + 1 <= cfg.maxHeader
    ensures
      match Turn(cfg, p, ch)
      case Next(q, acts) =>
        acts == Nil && OnlyLine(p, q, 1) &&
        if ch == SP then q.state == InLine(ReqSpacesBeforeUrl) && q.verb == p.verb && Is(MethodName(p.verb), w)
        else Reading(q, w + [ch])
      case o => o == Fail(InvalidMethod)
  {
    hide MethodName, OtherMethod;
    SpaceInNoName(p.verb, p.index);
    if OtherMethod(p.verb, p.index, ch).Some? {
      OtherMethodSpells(p.verb, p.index, ch, w);
    }
  }

  lemma {:induction false} SpaceInNoName(m: Method, i: nat)
    ensures !IsAt(MethodName(m), i, SP)
  {
    hide MethodName, IsAt;
    if Plain(m) {
      NoSpaceInPlain(m, i);
    } else {
      NoSpaceInOther(m, i);
    }
  }

  lemma NoSpaceInPlain(m: Method, i: nat)
    requires Plain(m)
    ensures !IsAt(MethodName(m), i, SP)
  {
  }

  lemma NoSpaceInOther(m: Method, i: nat)
    requires !Plain(m)
    ensures !IsAt(MethodName(m), i, SP)
  {
  }

  predicate MayBeMethod(cfg: Config, m: Machine, w: seq<Byte>) {
    m.p.state == InLine(StartReq) && w != [] && !IsEol(w[0]) && SP !in w && m.p.nread + |w| < cfg.maxHeader
  }

  lemma {:induction false} FirstMethodTurn(cfg: Config, p: Parser, ch: Byte)
    requires p.state == InLine(StartReq) && !IsEol(ch) && p.nread + 1 <= cfg.maxHeader
    ensures
      if HasMethod(ch) then
        var q := ResetMessage(p).(nread := p.nread + 1, verb := FirstMethod(ch), index := 1, state := InLine(ReqMethod));
        Turn(cfg, p, ch) == Next(q, One(Notify(MessageBegin))) && Reading(q, [ch])
      else Turn(cfg, p, ch) == Fail(InvalidMethod)
  {
    if HasMethod(ch) {
      FirstMethodSpells(ch);
    }
    hide MethodName, FirstMethod;
  }

  /** The parser accepts the bytes of a method only while they spell its guess. */
  lemma {:induction false} MethodRead(cfg: Config, m: Machine, w: seq<Byte>)
    requires MayBeMethod(cfg, m, w)
    ensures
      match Run(cfg, m, w)
      case Ready(m') =>
        Reading(m'.p, w) && OnlyLine(ResetMessage(m.p), m'.p, |w|) && m'.trace == m.trace + [Note(MessageBegin)]
      case r => r == Broken(InvalidMethod)
    decreases |w|
  {
    hide Turn, Run, Reading;
    var k := |w| - 1;
    if k == 0 {
      assert w == [w[0]];
      FirstMethodTurn(cfg, m.p, w[0]);
      var o := Turn(cfg, m.p, w[0]);
      if o.Next? {
        NotingByte(cfg, m, w[0], o.p, MessageBegin);
      } else {
        FailingByte(cfg, m, w[0], o.err);
      }
    } else {
      MethodRead(cfg, m, w[..k]);
      RunConcat(cfg, m, w[..k], [w[k]]);
      assert w == w[..k] + [w[k]];
      var r := Run(cfg, m, w[..k]);
      if r.Ready? {
        MethodByte(cfg, r.m, w[..k], w[k]);
      }
    }
  }

  lemma {:induction false} MethodByte(cfg: Config, m: Machine, w: seq<Byte>, ch: Byte)
    requires Reading(m.p, w) && m.p.nread + 1 <= cfg.maxHeader
    ensures
      match Run(cfg, m, [ch])
      case Ready(m') =>
        OnlyLine(m.p, m'.p, 1) && m'.trace == m.trace &&
        if ch == SP then m'.p.state == InLine(ReqSpacesBeforeUrl) && m'.p.verb == m.p.verb && Is(MethodName(m.p.verb), w)
        else Reading(m'.p, w + [ch])
      case r => r == Broken(InvalidMethod)
  {
    hide Turn, Run;
    MethodTurn(cfg, m.p, w, ch);
    var o := Turn(cfg, m.p, ch);
    if o.Next? {
      QuietByte(cfg, m, ch, o.p);
    } else {
      FailingByte(cfg, m, ch, o.err);
    }
  }

  /** Every method name is accepted: the guesses lead to it. */
  lemma {:induction false} MethodAccepted(cfg: Config, m: Machine, meth: Method, w: seq<Byte>)
    requires MayBeMethod(cfg, m, w) && Spells(MethodName(meth), w)
    ensures Run(cfg, m, w).Ready? && Run(cfg, m, w).m.p.verb == Guess(meth, |w|)
    decreases |w|
  {
    hide Turn, Run, MethodName, Guess, OtherMethod;
    var k := |w| - 1;
    MethodRead(cfg, m, w);
    GuessStarts(meth);
    if k == 0 {
      assert w == [w[0]];
      FirstMethodTurn(cfg, m.p, w[0]);
      var o := Turn(cfg, m.p, w[0]);
      NotingByte(cfg, m, w[0], o.p, MessageBegin);
    } else {
      MethodAccepted(cfg, m, meth, w[..k]);
      MethodRead(cfg, m, w[..k]);
      RunConcat(cfg, m, w[..k], [w[k]]);
      assert w == w[..k] + [w[k]];
      GuessGoesOn(meth, k, w[k]);
      var m1 := Run(cfg, m, w[..k]).m;
      GuessTurn(cfg, m1.p, w[..k], meth, w[k]);
      QuietByte(cfg, m1, w[k], Turn(cfg, m1.p, w[k]).p);
    }
  }

  lemma {:induction false} GuessTurn(cfg: Config, p: Parser, w: seq<Byte>, meth: Method, ch: Byte)
    requires Reading(p, w) && p.verb == Guess(meth, |w|) && p.nread + 1 <= cfg.maxHeader && ch != SP
    requires 1 <= |w| < |MethodName(meth)| && IsAt(MethodName(meth), |w|, ch)
    ensures Turn(cfg, p, ch).Next? && Turn(cfg, p, ch).acts == Nil && Turn(cfg, p, ch).p.verb == Guess(meth, |w| + 1)
  {
    hide MethodName, Guess, OtherMethod;
    GuessGoesOn(meth, |w|, ch);
  }

  predicate IsMethodName(w: seq<Byte>) { exists meth: Method :: Is(MethodName(meth), w) }

  /** A request line may start with `w` and a space if and only if `w` is the name of a method, and
      then the parser has recognised exactly that method. */
  lemma {:induction false} MethodExact(cfg: Config, m: Machine, w: seq<Byte>)
    requires MayBeMethod(cfg, m, w)
    ensures if IsMethodName(w) then Run(cfg, m, w + [SP]).Ready? else Run(cfg, m, w + [SP]) == Broken(InvalidMethod)
    ensures Run(cfg, m, w + [SP]).Ready? ==>
              var m' := Run(cfg, m, w + [SP]).m;
              Is(MethodName(m'.p.verb), w) && m'.p.state == InLine(ReqSpacesBeforeUrl)
              && OnlyLine(ResetMessage(m.p), m'.p, |w| + 1)
              && m'.trace == m.trace + [Note(MessageBegin)]
  {
    hide Turn, Run, Reading, MethodName, Guess, OtherMethod;
    RunConcat(cfg, m, w, [SP]);
    MethodRead(cfg, m, w);
    var r := Run(cfg, m, w);
    if r.Ready? {
      MethodByte(cfg, r.m, w, SP);
    }
    if IsMethodName(w) {
      var meth: Method :| Is(MethodName(meth), w);
      MethodAccepted(cfg, m, meth, w);
      GuessStarts(meth);
      SpaceAfter(cfg, r.m, w);
    }
  }

  lemma {:induction false} SpaceAfter(cfg: Config, m: Machine, w: seq<Byte>)
    requires Reading(m.p, w) && Is(MethodName(m.p.verb), w) && m.p.nread + 1 <= cfg.maxHeader
    ensures Run(cfg, m, [SP]).Ready?
  {
    hide MethodName, OtherMethod, Run;
    var q := m.p.(nread := m.p.nread + 1, state := InLine(ReqSpacesBeforeUrl), index := m.p.index + 1);
    assert Turn(cfg, m.p, SP) == Next(q, Nil);
    hide Turn;
    QuietByte(cfg, m, SP, q);
  }

  // ---------- header names ----------

  /** A header name in lower case. */
  function LowerName(name: seq<Byte>): seq<Byte> {
    seq(|name|, i requires 0 <= i < |name| => Token(name[i]))
  }

  /** What the matcher stands for after the name `t` (in lower case) has been read. */
  predicate Knows(t: seq<Byte>, r: Cursor) {
    match r.matcher
    case C => Is("c", t) && r.index == 0
    case CO => Is("co", t) && r.index == 1
    case CON => Is("con", t) && r.index == 2
    case Connection => Is("connection", t) || Is("proxy-connection", t)
    case ContentLength => Is("content-length", t)
    case TransferEncoding => Is("transfer-encoding", t)
    case Upgrade => Is("upgrade", t)
    case General =>
      !Spells("connection", t) && !Spells("proxy-connection", t) && !Spells("content-length", t)
      && !Spells("transfer-encoding", t) && !Spells("upgrade", t)
    case m =>
      IsFieldMatcher(m) && Spells(Literal(m), t) && |t| < |Literal(m)| && r.index == |t| - 1
      && (m.MatchingConnection? || m.MatchingContentLength? ==> |t| >= 4)
  }

  lemma {:induction false} SpellsNext(name: string, t: seq<Byte>, c: Byte)
    ensures Spells(name, t + [c]) <==> Spells(name, t) && IsAt(name, |t|, c)
  {
    var t2 := t + [c];
    if Spells(name, t2) {
      assert t2[|t|] == c;
      assert forall i :: 0 <= i < |t| ==> t2[i] == t[i];
    }
  }

  /** Whether one more byte goes on spelling each of the five names. */
  lemma {:induction false} AllNext(t: seq<Byte>, c: Byte)
    ensures Spells("connection", t + [c]) <==> Spells("connection", t) && IsAt("connection", |t|, c)
    ensures Spells("proxy-connection", t + [c]) <==> Spells("proxy-connection", t) && IsAt("proxy-connection", |t|, c)
    ensures Spells("content-length", t + [c]) <==> Spells("content-length", t) && IsAt("content-length", |t|, c)
    ensures Spells("transfer-encoding", t + [c]) <==> Spells("transfer-encoding", t) && IsAt("transfer-encoding", |t|, c)
    ensures Spells("upgrade", t + [c]) <==> Spells("upgrade", t) && IsAt("upgrade", |t|, c)
  {
    hide Spells;
    SpellsNext("connection", t, c);
    SpellsNext("proxy-connection", t, c);
    SpellsNext("content-length", t, c);
    SpellsNext("transfer-encoding", t, c);
    SpellsNext("upgrade", t, c);
  }

  /** The first byte, and for two of them the fourth, tells the names apart. */
  lemma {:induction false} Apart(t: seq<Byte>)
    requires t != []
    ensures Spells("proxy-connection", t) ==> t[0] == 112
    ensures Spells("transfer-encoding", t) ==> t[0] == 116
    ensures Spells("upgrade", t) ==> t[0] == 117
    ensures Spells("connection", t) ==> t[0] == 99 && (|t| >= 4 ==> t[3] == 110)
    ensures Spells("content-length", t) ==> t[0] == 99 && (|t| >= 4 ==> t[3] == 116)
  {
  }

  lemma {:induction false} KnowsStart(ch: Byte)
    ensures Token(ch) != 0 ==> Knows([Token(ch)], Cursor(MatcherStart(Token(ch)), 0))
  {
    assert [] + [Token(ch)] == [Token(ch)];
    AllNext([], Token(ch));
    Apart([Token(ch)]);
  }

  lemma {:induction false} KnowsPrefix(t: seq<Byte>)
    ensures Is("c", t) ==> Spells("connection", t) && Spells("content-length", t) && |t| == 1
    ensures Is("co", t) ==> Spells("connection", t) && Spells("content-length", t) && |t| == 2
    ensures Is("con", t) ==> Spells("connection", t) && Spells("content-length", t) && |t| == 3
    ensures |t| == 2 && Spells("connection", t) ==> Is("co", t)
    ensures |t| == 3 && Spells("connection", t) ==> Is("con", t)
  {
  }

  lemma {:induction false} KnowsNext(t: seq<Byte>, r: Cursor, ch: Byte)
    requires Knows(t, r) && t != []
    ensures Knows(t + [Token(ch)], NameChar(r.matcher, r.index, ch))
  {
    var c := Token(ch);
    var t2 := t + [c];
    hide Spells;
    AllNext(t, c);
    Apart(t);
    KnowsPrefix(t);
    KnowsPrefix(t2);
  }

  lemma {:induction false} KnowsExactly(t: seq<Byte>, r: Cursor)
    requires Knows(t, r) && t != []
    ensures r.matcher.Connection? <==> Is("connection", t) || Is("proxy-connection", t)
    ensures r.matcher.ContentLength? <==> Is("content-length", t)
    ensures r.matcher.TransferEncoding? <==> Is("transfer-encoding", t)
    ensures r.matcher.Upgrade? <==> Is("upgrade", t)
  {
    hide Spells;
    Apart(t);
    KnowsPrefix(t);
  }

  predicate IsToken(name: seq<Byte>) {
    name != [] && forall i :: 0 <= i < |name| ==> Token(name[i]) != 0
  }

  /** The lower-case name begins with "transfer-encoding". */
  predicate BeginsTE(t: seq<Byte>) { |t| >= 17 && Is("transfer-encoding", t[..17]) }

  /** The parser in the middle of a header name. */
  predicate NameRead(p: Parser, q: Parser, name: seq<Byte>) {
    q == p.(state := InHeader(FieldName), nread := p.nread + |name|, matcher := q.matcher, index := q.index, usesTE := q.usesTE)
    && Knows(LowerName(name), Cursor(q.matcher, q.index)) && IsFieldMatcher(q.matcher)
    && (q.usesTE <==> p.usesTE || BeginsTE(LowerName(name)))
  }

  lemma {:induction false} NameTurn(cfg: Config, p: Parser, ch: Byte)
    requires p.nread + 1 <= cfg.maxHeader && Token(ch) != 0
    ensures p.state == InHeader(FieldStart) ==>
              Turn(cfg, p, ch) == Next(p.(nread := p.nread + 1, index := 0, state := InHeader(FieldName),
                                         matcher := MatcherStart(Token(ch))), One(Mark(OnField)))
    ensures p.state == InHeader(FieldName) && IsFieldMatcher(p.matcher) ==>
              Turn(cfg, p, ch) == Next(FieldChar(p, ch).(nread := p.nread + 1), Nil)
  {
    hide NameChar, AtHeadersAlmostDone;
  }

  lemma {:induction false} FirstNameByte(cfg: Config, m: Machine, ch: Byte, p: Parser)
    requires StateOpen(m.p.state).Closed? && Turn(cfg, m.p, ch) == Next(p, One(Mark(OnField)))
    ensures Run(cfg, m, [ch]) == Ready(Machine(p, Append(m.trace, OnField, [ch])))
  {
    hide Turn;
    SingleByte(cfg, m, ch);
    var out := Out(map[OnField := 0], m.trace);
    assert out.marks - {OnField} == map[] && Slice([ch], 0, 1) == [ch];
    assert out.Close([ch]) == Append(m.trace, OnField, [ch]);
  }

  lemma {:induction false} NameByte(cfg: Config, m: Machine, ch: Byte, p: Parser)
    requires m.p.state == InHeader(FieldName) && p.state == m.p.state && Turn(cfg, m.p, ch) == Next(p, Nil)
    ensures Run(cfg, m, [ch]) == Ready(Machine(p, Append(m.trace, OnField, [ch])))
  {
    hide Turn;
    SingleByte(cfg, m, ch);
    var out := Out(map[OnField := 0], m.trace);
    assert out.marks - {OnField} == map[] && Slice([ch], 0, 1) == [ch];
    assert out.Close([ch]) == Append(m.trace, OnField, [ch]);
  }

  lemma {:induction false} FirstRead(p: Parser, ch: Byte)
    requires Token(ch) != 0
    ensures NameRead(p, p.(nread := p.nread + 1, index := 0, state := InHeader(FieldName), matcher := MatcherStart(Token(ch))), [ch])
  {
    hide Knows, Is;
    KnowsStart(ch);
    assert LowerName([ch]) == [Token(ch)];
  }

  lemma NameReadState(p: Parser, q: Parser, name: seq<Byte>)
    requires NameRead(p, q, name)
    ensures q.state == InHeader(FieldName) && IsFieldMatcher(q.matcher) && q.nread == p.nread + |name|
  {
    hide Knows, Is;
  }

  /** The name has been read, and delivered. */
  predicate NameDone(cfg: Config, m: Machine, name: seq<Byte>) {
    match Run(cfg, m, name)
    case Ready(m1) => NameRead(m.p, m1.p, name) && m1.trace == Append(m.trace, OnField, name)
    case _ => false
  }

  lemma {:induction false} NameFirst(cfg: Config, m: Machine, ch: Byte)
    requires m.p.state == InHeader(FieldStart) && Token(ch) != 0 && m.p.nread + 1 <= cfg.maxHeader
    ensures NameDone(cfg, m, [ch])
  {
    hide Turn, Run, NameRead;
    NameTurn(cfg, m.p, ch);
    FirstRead(m.p, ch);
    FirstNameByte(cfg, m, ch, Turn(cfg, m.p, ch).p);
  }

  lemma {:induction false} NameMore(cfg: Config, m: Machine, name: seq<Byte>, ch: Byte)
    requires NameDone(cfg, m, name) && IsToken(name) && Token(ch) != 0 && m.p.nread + |name| + 1 <= cfg.maxHeader
    ensures NameDone(cfg, m, name + [ch])
  {
    hide Turn, Run, NameRead, FieldChar, IsToken, Token;
    var m1 := Run(cfg, m, name).m;
    NameReadState(m.p, m1.p, name);
    NameTurn(cfg, m1.p, ch);
    NextName(m.p, m1.p, name, ch);
    var q := FieldChar(m1.p, ch).(nread := m1.p.nread + 1);
    AppendTwice(m.trace, OnField, name, [ch]);
    NameReadState(m.p, q, name + [ch]);
    NameByte(cfg, m1, ch, q);
    Continue(cfg, m, name, m1, [ch], Machine(q, Append(m.trace, OnField, name + [ch])));
  }

  lemma {:induction false} NameProgress(cfg: Config, m: Machine, name: seq<Byte>)
    requires m.p.state == InHeader(FieldStart) && IsToken(name) && m.p.nread + |name| <= cfg.maxHeader
    ensures NameDone(cfg, m, name)
    decreases |name|
  {
    hide NameDone, Token;
    var k := |name| - 1;
    if k == 0 {
      assert name == [name[0]];
      NameFirst(cfg, m, name[0]);
    } else {
      NameProgress(cfg, m, name[..k]);
      NameMore(cfg, m, name[..k], name[k]);
      assert name == name[..k] + [name[k]];
    }
  }

  /** The five framing names and no others are recognised. The flag for Transfer-Encoding is set by
      the first 17 bytes already, so a longer name that begins with them sets it too. */
  lemma {:induction false} HeaderNameExact(cfg: Config, m: Machine, name: seq<Byte>)
    requires m.p.state == InHeader(FieldStart) && IsToken(name) && m.p.nread + |name| <= cfg.maxHeader
    ensures Run(cfg, m, name).Ready?
    ensures
      var m' := Run(cfg, m, name).m;
      var t := LowerName(name);
      NameRead(m.p, m'.p, name) && m'.trace == Append(m.trace, OnField, name)
      && (m'.p.matcher.Connection? <==> Is("connection", t) || Is("proxy-connection", t))
      && (m'.p.matcher.ContentLength? <==> Is("content-length", t))
      && (m'.p.matcher.TransferEncoding? <==> Is("transfer-encoding", t))
      && (m'.p.matcher.Upgrade? <==> Is("upgrade", t))
  {
    hide Turn, Run, Knows, Is, BeginsTE;
    NameProgress(cfg, m, name);
    var q := Run(cfg, m, name).m.p;
    KnowsExactly(LowerName(name), Cursor(q.matcher, q.index));
  }

  lemma {:induction false} NextName(p: Parser, q: Parser, name: seq<Byte>, ch: Byte)
    requires IsToken(name) && Token(ch) != 0 && NameRead(p, q, name)
    ensures NameRead(p, FieldChar(q, ch).(nread := q.nread + 1), name + [ch])
  {
    var t := LowerName(name);
    var t2 := LowerName(name + [ch]);
    assert t2 == t + [Token(ch)];
    var r := Cursor(q.matcher, q.index);
    KnowsNext(t, r, ch);
    var r2 := NameChar(r.matcher, r.index, ch);
    KnowsExactly(t2, r2);
    FieldMatcherKept(q.matcher, q.index, ch);
    hide Knows, NameChar, Spells;
    if |t2| >= 18 {
      assert t2[..17] == t[..17];
    } else if |t2| == 17 {
      assert t2[..17] == t2;
    }
  }

  lemma {:induction false} FieldMatcherKept(m: Matcher, index: nat, ch: Byte)
    ensures IsFieldMatcher(m) ==> IsFieldMatcher(NameChar(m, index, ch).matcher)
  {
    hide Literal, IsAt;
  }
}
