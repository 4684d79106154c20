/** Message bodies (sections 3.3 and 4.1 of RFC 7230): what was encoded is what is delivered. */
module HttpFraming {
  import opened Ascii
  import opened HttpTypes
  import opened HttpTrans
  import opened HttpCalls
  import opened HttpSplit

  // ---------- one byte at a time ----------

  /** A byte that sends nothing. */
  lemma {:induction false} QuietByte(cfg: Config, m: Machine, ch: Byte, p: Parser)
    requires StateOpen(m.p.state).Closed? && Turn(cfg, m.p, ch) == Next(p, Nil)
    ensures Run(cfg, m, [ch]) == Ready(Machine(p, m.trace))
  {
    hide Turn;
    SingleByte(cfg, m, ch);
  }

  /** A byte that sends one notification. */
  lemma {:induction false} NotingByte(cfg: Config, m: Machine, ch: Byte, p: Parser, n: Notice)
    requires StateOpen(m.p.state).Closed? && Turn(cfg, m.p, ch) == Next(p, One(Notify(n)))
    ensures Run(cfg, m, [ch]) == Ready(Machine(p, m.trace + [Note(n)]))
  {
    hide Turn;
    SingleByte(cfg, m, ch);
  }

  /** A byte delivered to on_body. */
  lemma {:induction false} BodyByte(cfg: Config, m: Machine, ch: Byte, p: Parser)
    requires StateOpen(m.p.state).Closed? && Turn(cfg, m.p, ch) == Next(p, One(Mark(OnBody)))
    ensures Run(cfg, m, [ch]) == Ready(Machine(p, Append(m.trace, OnBody, [ch])))
  {
    hide Turn;
    SingleByte(cfg, m, ch);
    var out := Out(map[OnBody := 0], m.trace);
    assert out.marks - {OnBody} == map[];
    assert Slice([ch], 0, 1) == [ch];
    assert out.Close([ch]) == Append(m.trace, OnBody, [ch]);
  }

  lemma {:induction false} FailingByte(cfg: Config, m: Machine, ch: Byte, err: Errno)
    requires Turn(cfg, m.p, ch) == Fail(err)
    ensures Run(cfg, m, [ch]) == Broken(err)
  {
    hide Turn;
    SingleByte(cfg, m, ch);
  }

  lemma {:induction false} SingleByte(cfg: Config, m: Machine, ch: Byte)
    ensures Run(cfg, m, [ch]) == Call(cfg, m, [ch])
    ensures Bytes(cfg, m.p, m.trace, [ch], 1) ==
              After(Turn(cfg, m.p, ch), Out(StartMarks(m.p.state), m.trace), [ch], 0)
  {
    hide Turn;
    assert [ch][..0] == [];
    assert [ch][0..] == [ch];
  }

  /** A run can be continued. */
  lemma {:induction false} Continue(cfg: Config, m: Machine, a: seq<Byte>, m': Machine, b: seq<Byte>, m'': Machine)
    requires Run(cfg, m, a) == Ready(m') && Run(cfg, m', b) == Ready(m'')
    ensures Run(cfg, m, a + b) == Ready(m'')
  {
    hide Run;
    RunConcat(cfg, m, a, b);
  }

  // ---------- chunk sizes ----------

  function HexDigit(c: Byte): nat
    requires IsHex(c)
  {
    if c <= 57 then c - 48 else Lower(c) - 97 + 10
  }

  /** The value of a string of hexadecimal digits. */
  function HexValue(s: seq<Byte>): nat
    requires forall i :: 0 <= i < |s| ==> IsHex(s[i])
  {
    if s == [] then 0 else HexValue(s[..|s| - 1]) * 16 + HexDigit(s[|s| - 1])
  }

  predicate IsHexString(s: seq<Byte>) {
    s != [] && forall i :: 0 <= i < |s| ==> IsHex(s[i])
  }

  /** A chunk: its size in any hexadecimal notation, an optional extension, and its data. */
  datatype Chunk = Chunk(size: seq<Byte>, ext: seq<Byte>, data: seq<Byte>)

  predicate IsExtension(s: seq<Byte>) {
    CR !in s && (s == [] || s[0] == SEMICOLON || s[0] == SP)
  }

  /** `HexValue(size)` is the length of the data, and within the overflow test of the parser. */
  predicate WellFormed(cfg: Config, c: Chunk) {
    IsHexString(c.size) && IsExtension(c.ext) && HexValue(c.size) == |c.data| <= 0xFFFF_FFFF_FFFF_FFFF - 16
    && |c.size| + |c.ext| + 2 <= cfg.maxHeader
  }

  function SizeLine(c: Chunk): seq<Byte> { c.size + c.ext + [CR, LF] }

  function Encode(c: Chunk): seq<Byte> { SizeLine(c) + c.data + [CR, LF] }

  predicate AtChunk(m: Machine) {
    m.p.state == InSize(ChunkSizeStart) && m.p.flags.chunked && m.p.nread == 0
  }

  function SizeRead(p: Parser, s: SizeState, n: nat, length: nat): Parser {
    p.(state := InSize(s), nread := n, length := length)
  }

  lemma {:induction false} DigitTurn(cfg: Config, p: Parser, ch: Byte)
    requires p.flags.chunked && IsHex(ch) && p.nread + 1 <= cfg.maxHeader
    ensures p.state == InSize(ChunkSizeStart) && p.nread == 0 ==> Turn(cfg, p, ch) == Next(SizeRead(p, ChunkSize, 1, Unhex(ch)), Nil)
    ensures p.state == InSize(ChunkSize) ==>
              Turn(cfg, p, ch) == if 16 * p.length + Unhex(ch) <= NO_LENGTH - 16
                                  then Next(SizeRead(p, ChunkSize, p.nread + 1, 16 * p.length + Unhex(ch)), Nil)
                                  else Fail(InvalidContentLength)
    ensures Unhex(ch) == HexDigit(ch)
  {
  }

  /** A chunk size is accepted if and only if its value is at most 2^64 - 17, and is then that value. */
  lemma {:induction false} SizeDigits(cfg: Config, m: Machine, s: seq<Byte>)
    requires AtChunk(m) && IsHexString(s) && |s| <= cfg.maxHeader
    ensures Run(cfg, m, s) ==
              if HexValue(s) <= 0xFFFF_FFFF_FFFF_FFFF - 16 then Ready(Machine(SizeRead(m.p, ChunkSize, |s|, HexValue(s)), m.trace))
              else Broken(InvalidContentLength)
    decreases |s|
  {
    hide Turn, Run;
    var k := |s| - 1;
    if k == 0 {
      assert s == [s[0]] && s[..0] == [];
      DigitTurn(cfg, m.p, s[0]);
      QuietByte(cfg, m, s[0], SizeRead(m.p, ChunkSize, 1, HexValue(s)));
    } else {
      SizeDigits(cfg, m, s[..k]);
      assert s == s[..k] + [s[k]];
      RunConcat(cfg, m, s[..k], [s[k]]);
      if HexValue(s[..k]) <= NO_LENGTH - 16 {
        var p := SizeRead(m.p, ChunkSize, k, HexValue(s[..k]));
        DigitTurn(cfg, p, s[k]);
        if HexValue(s) <= NO_LENGTH - 16 {
          QuietByte(cfg, Machine(p, m.trace), s[k], SizeRead(m.p, ChunkSize, |s|, HexValue(s)));
        } else {
          FailingByte(cfg, Machine(p, m.trace), s[k], InvalidContentLength);
        }
      }
    }
  }

  /** After a size line: the parser that starts to read the chunk data or the trailer. */
  function AfterSize(p: Parser, length: nat): Parser {
    if length == 0
    then p.(state := InHeader(FieldStart), nread := 0, length := 0, flags := p.flags.(trailing := true))
    else p.(state := InBody(ChunkData), nread := 0, length := length)
  }

  lemma {:induction false} SizeEndTurn(cfg: Config, p: Parser, ch: Byte)
    requires p.flags.chunked && p.nread + 1 <= cfg.maxHeader && p.state.InSize?
    ensures p.state.size.ChunkParameters? && ch != CR ==> Turn(cfg, p, ch) == Next(p.(nread := p.nread + 1), Nil)
    ensures p.state.size.ChunkSize? && (ch == SEMICOLON || ch == SP) ==>
              Turn(cfg, p, ch) == Next(p.(nread := p.nread + 1, state := InSize(ChunkParameters)), Nil)
    ensures (p.state.size.ChunkSize? || p.state.size.ChunkParameters?) && ch == CR ==>
              Turn(cfg, p, ch) == Next(p.(nread := p.nread + 1, state := InSize(ChunkSizeAlmostDone)), Nil)
    ensures p.state.size.ChunkSizeAlmostDone? && ch == LF ==>
              Turn(cfg, p, ch) == Next(AfterSize(p, p.length), One(Notify(ChunkHeader)))
  {
  }

  lemma {:induction false} SizeExtension(cfg: Config, m: Machine, s: seq<Byte>)
    requires m.p.state == InSize(ChunkSize) && m.p.flags.chunked && IsExtension(s) && s != []
    requires m.p.nread + |s| <= cfg.maxHeader
    ensures Run(cfg, m, s) == Ready(Machine(SizeRead(m.p, ChunkParameters, m.p.nread + |s|, m.p.length), m.trace))
    decreases |s|
  {
    hide Turn, Run;
    var k := |s| - 1;
    var q := SizeRead(m.p, ChunkParameters, m.p.nread + |s|, m.p.length);
    if k == 0 {
      assert s == [s[0]];
      SizeEndTurn(cfg, m.p, s[0]);
      QuietByte(cfg, m, s[0], q);
    } else {
      SizeExtension(cfg, m, s[..k]);
      var p := SizeRead(m.p, ChunkParameters, m.p.nread + k, m.p.length);
      assert s[k] in s;
      SizeEndTurn(cfg, p, s[k]);
      QuietByte(cfg, Machine(p, m.trace), s[k], q);
      Continue(cfg, m, s[..k], Machine(p, m.trace), [s[k]], Machine(q, m.trace));
      assert s == s[..k] + [s[k]];
    }
  }

  lemma {:induction false} SizeLineRead(cfg: Config, m: Machine, c: Chunk)
    requires AtChunk(m) && WellFormed(cfg, c)
    ensures Run(cfg, m, SizeLine(c)) == Ready(Machine(AfterSize(m.p, |c.data|), m.trace + [Note(ChunkHeader)]))
  {
    hide Turn, Run;
    var n := |c.size| + |c.ext|;
    SizeDigits(cfg, m, c.size);
    var m1 := Machine(SizeRead(m.p, ChunkSize, |c.size|, |c.data|), m.trace);
    var m2 := m1;
    if c.ext == [] {
      assert c.size + c.ext == c.size;
    } else {
      SizeExtension(cfg, m1, c.ext);
      m2 := Machine(SizeRead(m.p, ChunkParameters, n, |c.data|), m.trace);
      Continue(cfg, m, c.size, m1, c.ext, m2);
    }
    var m3 := Machine(SizeRead(m.p, ChunkSizeAlmostDone, n + 1, |c.data|), m.trace);
    SizeEndTurn(cfg, m2.p, CR);
    QuietByte(cfg, m2, CR, m3.p);
    var m4 := Machine(AfterSize(m.p, |c.data|), m.trace + [Note(ChunkHeader)]);
    SizeEndTurn(cfg, m3.p, LF);
    assert AfterSize(m3.p, m3.p.length) == m4.p;
    NotingByte(cfg, m3, LF, m4.p, ChunkHeader);
    Continue(cfg, m2, [CR], m3, [LF], m4);
    Continue(cfg, m, c.size + c.ext, m2, [CR] + [LF], m4);
    assert SizeLine(c) == c.size + c.ext + ([CR] + [LF]);
  }

  // ---------- body bytes ----------

  lemma {:induction false} BodyTurns(cfg: Config, p: Parser, ch: Byte)
    requires p.state.InBody? && 0 < p.length < NO_LENGTH
    ensures p.state.body.ChunkData? && p.flags.chunked ==>
              Turn(cfg, p, ch) == Next(p.(length := p.length - 1,
                state := InBody(if p.length == 1 then ChunkDataAlmostDone else ChunkData)), One(Mark(OnBody)))
    ensures p.state.body.BodyIdentity? && p.length > 1 ==>
              Turn(cfg, p, ch) == Next(p.(length := p.length - 1), One(Mark(OnBody)))
  {
  }

  /** Bytes short of the announced length are delivered as they come. */
  lemma {:induction false} BodyPart(cfg: Config, m: Machine, s: seq<Byte>)
    requires m.p.state == InBody(BodyIdentity) || (m.p.state == InBody(ChunkData) && m.p.flags.chunked)
    requires 0 < |s| < m.p.length < NO_LENGTH
    ensures Run(cfg, m, s) == Ready(Machine(m.p.(length := m.p.length - |s|), Append(m.trace, OnBody, s)))
    decreases |s|
  {
    hide Turn, Run, Append;
    var k := |s| - 1;
    var q := m.p.(length := m.p.length - |s|);
    if k == 0 {
      assert s == [s[0]];
      BodyTurns(cfg, m.p, s[0]);
      BodyByte(cfg, m, s[0], q);
    } else {
      BodyPart(cfg, m, s[..k]);
      var m1 := Machine(m.p.(length := m.p.length - k), Append(m.trace, OnBody, s[..k]));
      BodyTurns(cfg, m1.p, s[k]);
      BodyByte(cfg, m1, s[k], q);
      AppendTwice(m.trace, OnBody, s[..k], [s[k]]);
      assert s == s[..k] + [s[k]];
      Continue(cfg, m, s[..k], m1, [s[k]], Machine(q, Append(m.trace, OnBody, s)));
    }
  }

  lemma {:induction false} ChunkBytes(cfg: Config, m: Machine, s: seq<Byte>)
    requires m.p.state == InBody(ChunkData) && m.p.flags.chunked && 0 < |s| == m.p.length < NO_LENGTH
    ensures Run(cfg, m, s) ==
              Ready(Machine(m.p.(length := 0, state := InBody(ChunkDataAlmostDone)), Append(m.trace, OnBody, s)))
  {
    hide Turn, Run, Append;
    var k := |s| - 1;
    var q := m.p.(length := 0, state := InBody(ChunkDataAlmostDone));
    var m1 := m;
    if k > 0 {
      BodyPart(cfg, m, s[..k]);
      m1 := Machine(m.p.(length := 1), Append(m.trace, OnBody, s[..k]));
    }
    BodyTurns(cfg, m1.p, s[k]);
    BodyByte(cfg, m1, s[k], q);
    assert s == s[..k] + [s[k]];
    if k > 0 {
      AppendTwice(m.trace, OnBody, s[..k], [s[k]]);
      Continue(cfg, m, s[..k], m1, [s[k]], Machine(q, Append(m.trace, OnBody, s)));
    } else {
      assert s == [s[k]];
    }
  }

  /** What one chunk makes the parser say. */
  function ChunkEvents(c: Chunk): seq<Event> { [Note(ChunkHeader), Data(OnBody, c.data), Note(ChunkComplete)] }

  lemma {:induction false} DataEndTurn(cfg: Config, p: Parser)
    requires p.state.InBody? && p.flags.chunked
    ensures p.state.body.ChunkDataAlmostDone? && p.length == 0 ==>
              Turn(cfg, p, CR) == Next(p.(state := InBody(ChunkDataDone)), One(Flush(OnBody)))
    ensures p.state.body.ChunkDataDone? ==>
              Turn(cfg, p, LF) == Next(p.(state := InSize(ChunkSizeStart), nread := 0), One(Notify(ChunkComplete)))
  {
  }

  /** The carriage return after the data of a chunk flushes a mark that a new call does not have. */
  lemma {:induction false} FlushingByte(cfg: Config, m: Machine, ch: Byte, p: Parser)
    requires StateOpen(m.p.state).Closed? && Turn(cfg, m.p, ch) == Next(p, One(Flush(OnBody)))
    ensures Run(cfg, m, [ch]) == Ready(Machine(p, m.trace))
  {
    hide Turn;
    SingleByte(cfg, m, ch);
  }

  lemma {:induction false} ChunkRead(cfg: Config, m: Machine, c: Chunk)
    requires AtChunk(m) && WellFormed(cfg, c) && c.data != []
    ensures Run(cfg, m, Encode(c)) == Ready(Machine(m.p.(length := 0), m.trace + ChunkEvents(c)))
  {
    hide Turn, Run;
    SizeLineRead(cfg, m, c);
    var m1 := Machine(AfterSize(m.p, |c.data|), m.trace + [Note(ChunkHeader)]);
    ChunkBytes(cfg, m1, c.data);
    var t := m.trace + [Note(ChunkHeader), Data(OnBody, c.data)];
    assert Append(m1.trace, OnBody, c.data) == t;
    var m2 := Machine(m1.p.(length := 0, state := InBody(ChunkDataAlmostDone)), t);
    Continue(cfg, m, SizeLine(c), m1, c.data, m2);
    var m3 := Machine(m2.p.(state := InBody(ChunkDataDone)), t);
    DataEndTurn(cfg, m2.p);
    FlushingByte(cfg, m2, CR, m3.p);
    var m4 := Machine(m.p.(length := 0), m.trace + ChunkEvents(c));
    DataEndTurn(cfg, m3.p);
    assert t + [Note(ChunkComplete)] == m4.trace;
    NotingByte(cfg, m3, LF, m4.p, ChunkComplete);
    Continue(cfg, m2, [CR], m3, [LF], m4);
    Continue(cfg, m, SizeLine(c) + c.data, m2, [CR] + [LF], m4);
    assert Encode(c) == SizeLine(c) + c.data + ([CR] + [LF]);
  }

  function EncodeAll(cs: seq<Chunk>): seq<Byte> {
    if cs == [] then [] else EncodeAll(cs[..|cs| - 1]) + Encode(cs[|cs| - 1])
  }

  function AllEvents(cs: seq<Chunk>): seq<Event> {
    if cs == [] then [] else AllEvents(cs[..|cs| - 1]) + ChunkEvents(cs[|cs| - 1])
  }

  function AfterChunks(p: Parser, cs: seq<Chunk>): Parser {
    if cs == [] then p else p.(length := 0)
  }

  lemma {:induction false} ChunksRead(cfg: Config, m: Machine, cs: seq<Chunk>)
    requires AtChunk(m)
    requires forall i :: 0 <= i < |cs| ==> WellFormed(cfg, cs[i]) && cs[i].data != []
    ensures Run(cfg, m, EncodeAll(cs)) == Ready(Machine(AfterChunks(m.p, cs), m.trace + AllEvents(cs)))
    decreases |cs|
  {
    hide Turn;
    if cs == [] {
      assert m.trace + [] == m.trace;
    } else {
      hide Run;
      var k := |cs| - 1;
      ChunksRead(cfg, m, cs[..k]);
      var m1 := Machine(AfterChunks(m.p, cs[..k]), m.trace + AllEvents(cs[..k]));
      ChunkRead(cfg, m1, cs[k]);
      assert m1.trace + ChunkEvents(cs[k]) == m.trace + AllEvents(cs);
      Continue(cfg, m, EncodeAll(cs[..k]), m1, Encode(cs[k]), Machine(AfterChunks(m.p, cs), m.trace + AllEvents(cs)));
    }
  }

  // ---------- the end of a message ----------

  /** A message is over: the connection is handed over after an upgrade, or the next one may start. */
  function Ended(p: Parser, trace: seq<Event>, n: nat): Fed {
    var m := Machine(p.(state := NewMessage(p)), trace);
    if p.upgrade then Left(m, n) else Ready(m)
  }

  lemma {:induction false} ContinueToEnd(cfg: Config, m: Machine, a: seq<Byte>, m': Machine, b: seq<Byte>, p: Parser, t: seq<Event>)
    requires Run(cfg, m, a) == Ready(m') && Run(cfg, m', b) == Ended(p, t, |b|)
    ensures Run(cfg, m, a + b) == Ended(p, t, |a + b|)
  {
    hide Run;
    RunConcat(cfg, m, a, b);
  }

  /** The body bytes among some notifications, and the body a list of chunks stands for. */
  function Delivered(t: seq<Event>): seq<Byte> {
    if t == [] then []
    else
      var e := t[|t| - 1];
      Delivered(t[..|t| - 1]) + if e.Data? && e.e == OnBody then e.bytes else []
  }

  function Payload(cs: seq<Chunk>): seq<Byte> {
    if cs == [] then [] else Payload(cs[..|cs| - 1]) + cs[|cs| - 1].data
  }

  lemma {:induction false} DeliveredConcat(a: seq<Event>, b: seq<Event>)
    ensures Delivered(a + b) == Delivered(a) + Delivered(b)
    decreases |b|
  {
    if b == [] {
      assert a + b == a;
    } else {
      assert (a + b)[..|a + b| - 1] == a + b[..|b| - 1];
      DeliveredConcat(a, b[..|b| - 1]);
    }
  }

  lemma {:induction false} DeliveredPayload(cs: seq<Chunk>)
    ensures Delivered(AllEvents(cs)) == Payload(cs)
    decreases |cs|
  {
    if cs != [] {
      var k := |cs| - 1;
      DeliveredPayload(cs[..k]);
      DeliveredConcat(AllEvents(cs[..k]), ChunkEvents(cs[k]));
      var e := ChunkEvents(cs[k]);
      assert e[..2] == [Note(ChunkHeader), Data(OnBody, cs[k].data)];
      assert e[..2][..1] == [Note(ChunkHeader)] && e[..1][..0] == [];
      assert Delivered(e[..1]) == [];
      assert Delivered(e[..2]) == cs[k].data;
      assert Delivered(e) == cs[k].data;
    }
  }
}
