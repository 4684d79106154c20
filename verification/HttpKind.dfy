/** A parser that takes either kind of message: the first letters tell which one it is. */
module HttpKind {
  import opened Ascii
  import opened Options
  import opened HttpTypes
  import opened HttpTrans
  import opened HttpCalls
  import opened HttpSplit
  import opened HttpFraming

  /** The kind of message announced by the first two bytes behind empty lines. */
  function Announced(data: seq<Byte>): Option<Kind> {
    if data == [] then None
    else if IsEol(data[0]) then Announced(data[1..])
    else if data[0] != 72 then Some(Request)
    else if |data| == 1 then None
    else if data[1] == 84 then Some(Response)
    else if data[1] == 69 then Some(Request)
    else None
  }

  function As(m: Machine, k: Kind): Machine {
    m.(p := m.p.(kind := k, state := InLine(if k.Response? then StartRes else StartReq)))
  }

  lemma {:induction false} EolTurns(cfg: Config, p: Parser, ch: Byte)
    requires IsEol(ch)
    ensures p.state == InLine(StartReqOrRes) || p.state == InLine(StartReq) || p.state == InLine(StartRes) ==>
              Turn(cfg, p, ch) == if (p.nread + 1) % U32 > cfg.maxHeader then Fail(HeaderOverflow)
                                  else Next(p.(nread := (p.nread + 1) % U32), Nil)
  {
  }

  lemma {:induction false} BothTurns(cfg: Config, p: Parser, ch: Byte)
    requires p.state == InLine(StartReqOrRes) && !IsEol(ch)
    ensures ch != 72 ==> Turn(cfg, p, ch) == Turn(cfg, p.(kind := Request, state := InLine(StartReq)), ch)
    ensures ch == 72 ==>
              Turn(cfg, p, ch) == if (p.nread + 1) % U32 > cfg.maxHeader then Fail(HeaderOverflow)
                                  else Next(ResetMessage(p).(state := InLine(ResOrRespH), nread := (p.nread + 1) % U32), One(Notify(MessageBegin)))
  {
  }

  lemma {:induction false} FirstTurns(cfg: Config, p: Parser, k: Kind)
    requires !k.Both?
    ensures
      var q := p.(kind := k, state := InLine(if k.Response? then StartRes else StartReq));
      Turn(cfg, q, 72) ==
        if (p.nread + 1) % U32 > cfg.maxHeader then Fail(HeaderOverflow)
        else Next(if k.Response? then ResetMessage(q).(state := InLine(ResH), nread := (p.nread + 1) % U32)
                  else ResetMessage(q).(verb := HEAD, index := 1, state := InLine(ReqMethod), nread := (p.nread + 1) % U32),
                  One(Notify(MessageBegin)))
  {
  }

  /** What the second letter leads to when it tells the kind. */
  function Second(cfg: Config, p: Parser, k: Kind): Outcome {
    var n := (p.nread + 1) % U32;
    if n > cfg.maxHeader then Fail(HeaderOverflow)
    else if k.Response? then Next(p.(kind := k, state := InLine(ResHT), nread := n), Nil)
    else Next(p.(kind := k, verb := HEAD, index := 2, state := InLine(ReqMethod), nread := n), Nil)
  }

  lemma {:induction false} SecondTurns(cfg: Config, p: Parser, k: Kind, ch: Byte)
    requires if k.Response? then ch == 84 else k.Request? && ch == 69
    ensures p.state == InLine(ResOrRespH) ==> Turn(cfg, p, ch) == Second(cfg, p, k)
    ensures p.kind == k && p.state == InLine(ResH) && k.Response? ==> Turn(cfg, p, ch) == Second(cfg, p, k)
    ensures p.kind == k && p.state == InLine(ReqMethod) && p.verb == HEAD && p.index == 1 && k.Request? ==> Turn(cfg, p, ch) == Second(cfg, p, k)
  {
  }

  /** Behind an H, any letter but E and T is refused, by all three kinds of parser. */
  lemma {:induction false} OtherTurns(cfg: Config, p: Parser, ch: Byte)
    requires ch != 84 && ch != 69
    requires p.state == InLine(ResOrRespH) || p.state == InLine(ResH) || (p.state == InLine(ReqMethod) && p.verb == HEAD && p.index == 1)
    ensures Turn(cfg, p, ch).Fail?
  {
  }

  /** Two bytes whose outcomes are known. */
  lemma {:induction false} TwoBytes(cfg: Config, m: Machine, a: Byte, p1: Parser, b: Byte)
    requires StateOpen(m.p.state).Closed? && StateOpen(p1.state).Closed? && Turn(cfg, m.p, a) == Next(p1, One(Notify(MessageBegin)))
    ensures var o := Turn(cfg, p1, b);
            var t := m.trace + [Note(MessageBegin)];
            (o.Next? && o.acts == Nil ==> Run(cfg, m, [a] + [b]) == Ready(Machine(o.p, t)))
            && (o.Fail? ==> Run(cfg, m, [a] + [b]) == Broken(o.err))
  {
    hide Turn, Run;
    NotingByte(cfg, m, a, p1, MessageBegin);
    RunConcat(cfg, m, [a], [b]);
    var m1 := Machine(p1, m.trace + [Note(MessageBegin)]);
    var o := Turn(cfg, p1, b);
    if o.Fail? {
      FailingByte(cfg, m1, b, o.err);
    } else if o.Next? && o.acts == Nil {
      QuietByte(cfg, m1, b, o.p);
    }
  }

  predicate HasRoom(cfg: Config, p: Parser) { (p.nread + 1) % U32 <= cfg.maxHeader }

  lemma {:induction false} NoRoom(cfg: Config, m: Machine, k: Kind)
    requires m.p.state == InLine(StartReqOrRes) && !k.Both? && !HasRoom(cfg, m.p)
    ensures Run(cfg, m, [72]) == Broken(HeaderOverflow) && Run(cfg, As(m, k), [72]) == Broken(HeaderOverflow)
  {
    hide Turn, Run;
    BothTurns(cfg, m.p, 72);
    FirstTurns(cfg, m.p, k);
    FailingByte(cfg, m, 72, HeaderOverflow);
    FailingByte(cfg, As(m, k), 72, HeaderOverflow);
  }

  lemma {:induction false} TwoLetters(cfg: Config, m: Machine, k: Kind, ch: Byte)
    requires m.p.state == InLine(StartReqOrRes) && HasRoom(cfg, m.p)
    requires if k.Response? then ch == 84 else k.Request? && ch == 69
    ensures Run(cfg, m, [72] + [ch]) == Run(cfg, As(m, k), [72] + [ch])
  {
    hide Turn, Run;
    BothTurns(cfg, m.p, 72);
    var p1 := Turn(cfg, m.p, 72).p;
    SecondTurns(cfg, p1, k, ch);
    TwoBytes(cfg, m, 72, p1, ch);
    FirstTurns(cfg, m.p, k);
    var q1 := Turn(cfg, As(m, k).p, 72).p;
    SecondTurns(cfg, q1, k, ch);
    TwoBytes(cfg, As(m, k), 72, q1, ch);
    assert Second(cfg, p1, k) == Second(cfg, q1, k);
  }

  lemma {:induction false} NeitherLetter(cfg: Config, m: Machine, k: Kind, ch: Byte)
    requires m.p.state == InLine(StartReqOrRes) && HasRoom(cfg, m.p) && !k.Both? && ch != 84 && ch != 69
    ensures Run(cfg, m, [72] + [ch]).Broken? && Run(cfg, As(m, k), [72] + [ch]).Broken?
  {
    hide Turn, Run;
    BothTurns(cfg, m.p, 72);
    var p1 := Turn(cfg, m.p, 72).p;
    OtherTurns(cfg, p1, ch);
    TwoBytes(cfg, m, 72, p1, ch);
    FirstTurns(cfg, m.p, k);
    var q1 := Turn(cfg, As(m, k).p, 72).p;
    OtherTurns(cfg, q1, ch);
    TwoBytes(cfg, As(m, k), 72, q1, ch);
  }

  /** Two runs that end the same way, except perhaps for the error. */
  predicate Alike(a: Fed, b: Fed) { a == b || (a.Broken? && b.Broken?) }

  lemma {:induction false} AlikeOn(cfg: Config, m: Machine, n: Machine, a: seq<Byte>, b: seq<Byte>)
    requires Alike(Run(cfg, m, a), Run(cfg, n, a))
    ensures Alike(Run(cfg, m, a + b), Run(cfg, n, a + b))
    ensures Run(cfg, m, a) == Run(cfg, n, a) ==> Run(cfg, m, a + b) == Run(cfg, n, a + b)
  {
    hide Run;
    RunConcat(cfg, m, a, b);
    RunConcat(cfg, n, a, b);
  }

  /** What is behind the empty lines has more than one byte, or a first byte that tells the kind. */
  predicate Tells(data: seq<Byte>) {
    data != [] && if IsEol(data[0]) then Tells(data[1..]) else data[0] != 72 || |data| > 1
  }

  /** The first message of a parser for either kind is read just as the parser for its kind reads it. A word that
      starts with H and goes on with neither E nor T is of no kind: all three parsers refuse it. */
  lemma {:induction false} BothIsEither(cfg: Config, m: Machine, k: Kind, data: seq<Byte>)
    requires m.p.state == InLine(StartReqOrRes) && Tells(data) && !k.Both?
    ensures Announced(data) == Some(k) ==> Run(cfg, m, data) == Run(cfg, As(m, k), data)
    ensures Announced(data) == None ==> Run(cfg, m, data).Broken? && Run(cfg, As(m, k), data).Broken?
    decreases |data|
  {
    hide Turn, Run;
    var ch := data[0];
    assert data == [ch] + data[1..];
    if IsEol(ch) {
      EolRead(cfg, m, k, ch);
      RunConcat(cfg, m, [ch], data[1..]);
      RunConcat(cfg, As(m, k), [ch], data[1..]);
      if HasRoom(cfg, m.p) {
        BothIsEither(cfg, Run(cfg, m, [ch]).m, k, data[1..]);
      }
    } else if ch != 72 {
      BothTurns(cfg, m.p, ch);
      SingleByte(cfg, m, ch);
      SingleByte(cfg, As(m, Request), ch);
      AlikeOn(cfg, m, As(m, Request), [ch], data[1..]);
    } else {
      HRead(cfg, m, k, data);
    }
  }

  lemma {:induction false} EolRead(cfg: Config, m: Machine, k: Kind, ch: Byte)
    requires m.p.state == InLine(StartReqOrRes) && IsEol(ch) && !k.Both?
    ensures var q := Machine(m.p.(nread := (m.p.nread + 1) % U32), m.trace);
            if HasRoom(cfg, m.p) then Run(cfg, m, [ch]) == Ready(q) && Run(cfg, As(m, k), [ch]) == Ready(As(q, k))
            else Run(cfg, m, [ch]) == Broken(HeaderOverflow) && Run(cfg, As(m, k), [ch]) == Broken(HeaderOverflow)
  {
    hide Turn, Run;
    EolTurns(cfg, m.p, ch);
    EolTurns(cfg, As(m, k).p, ch);
    var q := Machine(m.p.(nread := (m.p.nread + 1) % U32), m.trace);
    if HasRoom(cfg, m.p) {
      QuietByte(cfg, m, ch, q.p);
      QuietByte(cfg, As(m, k), ch, As(q, k).p);
    } else {
      FailingByte(cfg, m, ch, HeaderOverflow);
      FailingByte(cfg, As(m, k), ch, HeaderOverflow);
    }
  }

  lemma {:induction false} HRead(cfg: Config, m: Machine, k: Kind, data: seq<Byte>)
    requires m.p.state == InLine(StartReqOrRes) && |data| > 1 && data[0] == 72 && !k.Both?
    ensures Announced(data) == Some(k) ==> Run(cfg, m, data) == Run(cfg, As(m, k), data)
    ensures Announced(data) == None ==> Run(cfg, m, data).Broken? && Run(cfg, As(m, k), data).Broken?
  {
    hide Turn, Run;
    if !HasRoom(cfg, m.p) {
      NoRoom(cfg, m, k);
      AlikeOn(cfg, m, As(m, k), [72], data[1..]);
      RunConcat(cfg, m, [72], data[1..]);
      assert data == [72] + data[1..];
    } else {
      var head := [72] + [data[1]];
      assert data == head + data[2..];
      if Announced(data) == Some(k) {
        TwoLetters(cfg, m, k, data[1]);
        AlikeOn(cfg, m, As(m, k), head, data[2..]);
      } else if Announced(data) == None {
        NeitherLetter(cfg, m, k, data[1]);
        RunConcat(cfg, m, head, data[2..]);
        RunConcat(cfg, As(m, k), head, data[2..]);
      }
    }
  }
}
