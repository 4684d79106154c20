/** Content-Length (section 3.3.3 of RFC 7230): the number read is the number written, and exactly
    that many bytes are the body. */
module HttpLength {
  import opened Ascii
  import opened HttpTypes
  import opened HttpTrans
  import opened HttpCalls
  import opened HttpSplit
  import opened HttpFraming

  function DecDigit(c: Byte): nat
    requires IsNum(c)
  {
    c - 48
  }

  function DecValue(s: seq<Byte>): nat
    requires forall i :: 0 <= i < |s| ==> IsNum(s[i])
  {
    if s == [] then 0 else DecValue(s[..|s| - 1]) * 10 + DecDigit(s[|s| - 1])
  }

  predicate IsDecString(s: seq<Byte>) {
    s != [] && forall i :: 0 <= i < |s| ==> IsNum(s[i])
  }

  /** The overflow test looks at the value before the last digit. */
  predicate Representable(s: seq<Byte>)
    requires IsDecString(s)
  {
    DecValue(s[..|s| - 1]) <= (0xFFFF_FFFF_FFFF_FFFF - 10) / 10
  }

  /** A byte of a header value. */
  lemma {:induction false} ValueTextByte(cfg: Config, m: Machine, ch: Byte, p: Parser)
    requires m.p.state == InHeader(ValueText) && p.state == InHeader(ValueText) && Turn(cfg, m.p, ch) == Next(p, Nil)
    ensures Run(cfg, m, [ch]) == Ready(Machine(p, Append(m.trace, OnValue, [ch])))
  {
    hide Turn;
    SingleByte(cfg, m, ch);
    var out := Out(map[OnValue := 0], m.trace);
    assert out.marks - {OnValue} == map[] && Slice([ch], 0, 1) == [ch];
    assert out.Close([ch]) == Append(m.trace, OnValue, [ch]);
  }

  /** The first byte of a header value. */
  lemma {:induction false} FirstValueByte(cfg: Config, m: Machine, ch: Byte, p: Parser)
    requires StateOpen(m.p.state).Closed? && Turn(cfg, m.p, ch) == Next(p, One(Mark(OnValue)))
    ensures Run(cfg, m, [ch]) == Ready(Machine(p, Append(m.trace, OnValue, [ch])))
  {
    hide Turn;
    SingleByte(cfg, m, ch);
    var out := Out(map[OnValue := 0], m.trace);
    assert out.marks - {OnValue} == map[] && Slice([ch], 0, 1) == [ch];
    assert out.Close([ch]) == Append(m.trace, OnValue, [ch]);
  }

  /** The carriage return after a header value. */
  lemma {:induction false} EndValueByte(cfg: Config, m: Machine, ch: Byte, p: Parser)
    requires m.p.state == InHeader(ValueText) && Turn(cfg, m.p, ch) == Next(p, One(Flush(OnValue)))
    ensures Run(cfg, m, [ch]) == Ready(Machine(p, Append(m.trace, OnValue, [])))
  {
    hide Turn;
    SingleByte(cfg, m, ch);
    var out := Out(map[OnValue := 0], m.trace);
    assert out.marks - {OnValue} == map[] && Slice([ch], 0, 0) == [];
  }

  /** Before the number of a Content-Length header that is the first of its message. */
  predicate AtLength(p: Parser) {
    p.state == InHeader(DiscardWs) && p.matcher.ContentLength? && !p.flags.contentLength
  }

  function LengthRead(p: Parser, n: nat, length: nat): Parser {
    p.(state := InHeader(ValueText), index := 0, matcher := ContentLengthNum, nread := p.nread + n,
       flags := p.flags.(contentLength := true), length := length)
  }

  lemma {:induction false} LengthTurn(cfg: Config, p: Parser, ch: Byte)
    requires p.nread + 1 <= cfg.maxHeader
    ensures AtLength(p) && IsNum(ch) ==> Turn(cfg, p, ch) == Next(LengthRead(p, 1, ch - 48), One(Mark(OnValue)))
    ensures p.state == InHeader(ValueText) && p.matcher.ContentLengthNum? && IsNum(ch) ==>
              Turn(cfg, p, ch) == if p.length <= (NO_LENGTH - 10) / 10
                                  then Next(p.(nread := p.nread + 1, length := p.length * 10 + (ch - 48)), Nil)
                                  else Fail(InvalidContentLength)
    ensures p.state == InHeader(ValueText) && ch == CR ==>
              Turn(cfg, p, ch) == Next(p.(nread := p.nread + 1, state := InHeader(HeaderAlmostDone)), One(Flush(OnValue)))
  {
  }

  /** A Content-Length is accepted if and only if it passes the overflow test, and then the length
      is the decimal value of the digits: nothing wraps, and the "no length" mark is never met. */
  lemma {:induction false} ContentLengthExact(cfg: Config, m: Machine, ds: seq<Byte>)
    requires AtLength(m.p) && IsDecString(ds) && m.p.nread + |ds| <= cfg.maxHeader
    ensures Run(cfg, m, ds) ==
              if Representable(ds) then Ready(Machine(LengthRead(m.p, |ds|, DecValue(ds)), Append(m.trace, OnValue, ds)))
              else Broken(InvalidContentLength)
    ensures Representable(ds) ==> DecValue(ds) <= NO_LENGTH - 6
    decreases |ds|
  {
    hide Turn, Run, Append;
    var k := |ds| - 1;
    if k == 0 {
      assert ds == [ds[0]];
      LengthTurn(cfg, m.p, ds[0]);
      FirstValueByte(cfg, m, ds[0], LengthRead(m.p, 1, DecValue(ds)));
    } else {
      ContentLengthExact(cfg, m, ds[..k]);
      assert ds == ds[..k] + [ds[k]];
      RunConcat(cfg, m, ds[..k], [ds[k]]);
      if Representable(ds[..k]) {
        var m1 := Machine(LengthRead(m.p, k, DecValue(ds[..k])), Append(m.trace, OnValue, ds[..k]));
        LengthTurn(cfg, m1.p, ds[k]);
        if Representable(ds) {
          AppendTwice(m.trace, OnValue, ds[..k], [ds[k]]);
          ValueTextByte(cfg, m1, ds[k], LengthRead(m.p, |ds|, DecValue(ds)));
        } else {
          FailingByte(cfg, m1, ds[k], InvalidContentLength);
        }
      }
    }
  }

  lemma {:induction false} LastLengthTurn(cfg: Config, p: Parser, ch: Byte)
    requires p.state == InBody(BodyIdentity) && p.length == 1
    ensures Turn(cfg, p, ch) == Before(Mark(OnBody), Before(FlushIncluding(OnBody), AtMessageDone(p.(length := 0))))
  {
    hide AtMessageDone;
  }

  lemma {:induction false} LastLengthByte(cfg: Config, m: Machine, ch: Byte)
    requires m.p.state == InBody(BodyIdentity) && m.p.length == 1
    ensures Run(cfg, m, [ch]) ==
              Ended(m.p.(length := 0), Append(m.trace, OnBody, [ch]) + [Note(MessageComplete)], 1)
  {
    hide Turn, NewMessage;
    SingleByte(cfg, m, ch);
    LastLengthTurn(cfg, m.p, ch);
    var out := Out(map[OnBody := 0], m.trace);
    assert out.marks - {OnBody} == map[] && Slice([ch], 0, 1) == [ch];
    assert Out(map[], m.trace).Do(Mark(OnBody), [ch], 0) == out;
    assert out.FlushTo(OnBody, [ch], 1) == Out(map[], Append(m.trace, OnBody, [ch]));
    assert out.DoAll(Act(FlushIncluding(OnBody), One(Notify(MessageComplete))), [ch], 0)
        == Out(map[], Append(m.trace, OnBody, [ch]) + [Note(MessageComplete)]);
  }

  /** Exactly `length` bytes are delivered, then the message is complete. */
  lemma {:induction false} IdentityBody(cfg: Config, m: Machine, body: seq<Byte>)
    requires m.p.state == InBody(BodyIdentity) && 0 < |body| == m.p.length < NO_LENGTH
    ensures Run(cfg, m, body) ==
              Ended(m.p.(length := 0), Append(m.trace, OnBody, body) + [Note(MessageComplete)], |body|)
  {
    hide Turn, Run;
    var k := |body| - 1;
    if k == 0 {
      assert body == [body[0]];
      LastLengthByte(cfg, m, body[0]);
    } else {
      BodyPart(cfg, m, body[..k]);
      var m1 := Machine(m.p.(length := 1), Append(m.trace, OnBody, body[..k]));
      LastLengthByte(cfg, m1, body[k]);
      AppendTwice(m.trace, OnBody, body[..k], [body[k]]);
      assert body == body[..k] + [body[k]];
      ContinueToEnd(cfg, m, body[..k], m1, [body[k]], m.p.(length := 0),
                    Append(m.trace, OnBody, body) + [Note(MessageComplete)]);
    }
  }
}
