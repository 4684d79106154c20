/** The grammar of authorities: what the states of `http_parse_host_char` amount to. */
module UrlAuthority {
  import opened Ascii
  import opened Options
  import opened HttpTypes
  import opened HttpTrans
  import opened Url
  import opened UrlHost
  import opened UrlGrammar

  // ---------- authorities ----------

  /** A host: a name, or an address in brackets with a zone or without. */
  datatype HostText = RegName(text: seq<Byte>) | Bracketed(address: seq<Byte>, zone: Option<seq<Byte>>)

  datatype AuthorityText = AuthorityText(user: Option<seq<Byte>>, host: HostText, port: Option<seq<Byte>>)

  predicate IsHost(h: HostText) {
    match h
    case RegName(t) => t != [] && All(t, HostByte)
    case Bracketed(a, z) => a != [] && All(a, AddressByte) && (z.Some? ==> z.value != [] && All(z.value, ZoneByte))
  }

  predicate IsPort(p: Option<seq<Byte>>) { p.Some? ==> p.value != [] && All(p.value, Digit) }

  predicate IsUser(u: Option<seq<Byte>>) { u.Some? ==> All(u.value, UserByte) }

  predicate IsAuthority(a: AuthorityText) { IsUser(a.user) && IsHost(a.host) && IsPort(a.port) }

  function UserPieces(u: Option<seq<Byte>>): seq<Piece> {
    if u.None? then [] else [Piece(Some(PUserInfo), u.value), Piece(None, [64])]
  }

  function ZoneText(z: Option<seq<Byte>>): seq<Byte> { if z.None? then [] else [37] + z.value }

  function HostPieces(h: HostText): seq<Piece> {
    match h
    case RegName(t) => [Piece(Some(PHost), t)]
    case Bracketed(a, z) => [Piece(None, [91]), Piece(Some(PHost), a + ZoneText(z)), Piece(None, [93])]
  }

  function PortPieces(p: Option<seq<Byte>>): seq<Piece> {
    if p.None? then [] else [Piece(None, [58]), Piece(Some(PPort), p.value)]
  }

  function AuthorityPieces(a: AuthorityText): seq<Piece> { UserPieces(a.user) + HostPieces(a.host) + PortPieces(a.port) }

  lemma HostSteps(c: Byte)
    ensures UserByte(c) ==> ParseHostChar(UserInfoStart, c) == UserInfo && ParseHostChar(UserInfo, c) == UserInfo
    ensures !UserByte(c) ==> ParseHostChar(UserInfoStart, c) == ParseHostChar(UserInfo, c) == if c == 64 then HostStart else HostDead
    ensures HostByte(c) ==> ParseHostChar(HostStart, c) == HostName && ParseHostChar(HostName, c) == HostName
    ensures !HostByte(c) ==> ParseHostChar(HostStart, c) == if c == 91 then V6Start else HostDead
    ensures !HostByte(c) ==> ParseHostChar(HostName, c) == if c == 58 then PortStart else HostDead
    ensures AddressByte(c) ==> ParseHostChar(V6Start, c) == V6 && ParseHostChar(V6, c) == V6
    ensures !AddressByte(c) ==> ParseHostChar(V6Start, c) == HostDead
    ensures !AddressByte(c) ==> ParseHostChar(V6, c) == if c == 93 then V6End else if c == 37 then V6ZoneStart else HostDead
    ensures ZoneByte(c) ==> ParseHostChar(V6ZoneStart, c) == V6Zone && ParseHostChar(V6Zone, c) == V6Zone
    ensures !ZoneByte(c) ==> ParseHostChar(V6ZoneStart, c) == HostDead
    ensures !ZoneByte(c) ==> ParseHostChar(V6Zone, c) == if c == 93 then V6End else HostDead
    ensures ParseHostChar(V6End, c) == if c == 58 then PortStart else HostDead
    ensures Digit(c) ==> ParseHostChar(PortStart, c) == Port && ParseHostChar(Port, c) == Port
    ensures !Digit(c) ==> ParseHostChar(PortStart, c) == ParseHostChar(Port, c) == HostDead
  {
    Classes(c);
  }

  lemma UserSteps()
    ensures forall c: Byte :: UserByte(c) ==> ParseHostChar(UserInfoStart, c) == UserInfo && ParseHostChar(UserInfo, c) == UserInfo
  {
    hide ParseHostChar, UserByte;
    forall c: Byte ensures UserByte(c) ==> ParseHostChar(UserInfoStart, c) == UserInfo && ParseHostChar(UserInfo, c) == UserInfo {
      HostSteps(c);
    }
  }

  lemma NameSteps()
    ensures forall c: Byte :: HostByte(c) ==> ParseHostChar(HostStart, c) == HostName && ParseHostChar(HostName, c) == HostName
  {
    hide ParseHostChar, HostByte;
    forall c: Byte ensures HostByte(c) ==> ParseHostChar(HostStart, c) == HostName && ParseHostChar(HostName, c) == HostName {
      HostSteps(c);
    }
  }

  lemma AddressSteps()
    ensures forall c: Byte :: AddressByte(c) ==> ParseHostChar(V6Start, c) == V6 && ParseHostChar(V6, c) == V6
  {
    hide ParseHostChar, AddressByte;
    forall c: Byte ensures AddressByte(c) ==> ParseHostChar(V6Start, c) == V6 && ParseHostChar(V6, c) == V6 {
      HostSteps(c);
    }
  }

  lemma ZoneSteps()
    ensures forall c: Byte :: ZoneByte(c) ==> ParseHostChar(V6ZoneStart, c) == V6Zone && ParseHostChar(V6Zone, c) == V6Zone
  {
    hide ParseHostChar, ZoneByte;
    forall c: Byte ensures ZoneByte(c) ==> ParseHostChar(V6ZoneStart, c) == V6Zone && ParseHostChar(V6Zone, c) == V6Zone {
      HostSteps(c);
    }
  }

  lemma DigitsSteps()
    ensures forall c: Byte :: Digit(c) ==> ParseHostChar(PortStart, c) == Port && ParseHostChar(Port, c) == Port
  {
    hide ParseHostChar, Digit;
    forall c: Byte ensures Digit(c) ==> ParseHostChar(PortStart, c) == Port && ParseHostChar(Port, c) == Port {
      HostSteps(c);
    }
  }

  lemma Marks()
    ensures !UserByte(64) && !HostByte(91) && !HostByte(58) && !AddressByte(93) && !AddressByte(37) && !ZoneByte(93)
  {
  }

  /** A stretch of one class, and the byte behind it. */
  lemma {:induction false} ClassRead(s: HostState, t: seq<Byte>, ok: Byte -> bool, u: HostState)
    requires All(t, ok) && forall c: Byte :: ok(c) ==> ParseHostChar(s, c) == u && ParseHostChar(u, c) == u
    ensures Reads(ParseHostChar, HostPartOf, s, t, HostPartOf(u)) && Final(ParseHostChar, s, t) == if t == [] then s else u
  {
    hide ParseHostChar;
    Stays(ParseHostChar, HostPartOf, s, t, u);
  }

  lemma {:induction false} OneByteRead(s: HostState, c: Byte)
    ensures Reads(ParseHostChar, HostPartOf, s, [c], HostPartOf(ParseHostChar(s, c))) && Final(ParseHostChar, s, [c]) == ParseHostChar(s, c)
  {
    assert [c][1..] == [];
  }

  lemma {:induction false} UserRead(u: Option<seq<Byte>>)
    requires IsUser(u)
    ensures
      var s := if u.Some? then UserInfoStart else HostStart;
      ReadsAll(ParseHostChar, HostPartOf, s, UserPieces(u)) && Final(ParseHostChar, s, TextOf(UserPieces(u))) == HostStart
  {
    hide ParseHostChar, UserByte, Final, Reads;
    if u.Some? {
      UserSteps();
      ClassRead(UserInfoStart, u.value, UserByte, UserInfo);
      var m := Final(ParseHostChar, UserInfoStart, u.value);
      Marks();
      HostSteps(64);
      OneByteRead(m, 64);
      TwoPieces(ParseHostChar, HostPartOf, UserInfoStart, Piece(Some(PUserInfo), u.value), Piece(None, [64]));
    } else {
      NothingAfter(ParseHostChar, HostStart);
    }
  }

  lemma {:induction false} PortRead(s: HostState, p: Option<seq<Byte>>)
    requires IsPort(p) && (s.HostName? || s.V6End?)
    ensures ReadsAll(ParseHostChar, HostPartOf, s, PortPieces(p)) && MayEndHost(Final(ParseHostChar, s, TextOf(PortPieces(p))))
  {
    hide ParseHostChar, Digit, Final, Reads;
    if p.Some? {
      DigitsSteps();
      Marks();
      HostSteps(58);
      OneByteRead(s, 58);
      ClassRead(PortStart, p.value, Digit, Port);
      TwoPieces(ParseHostChar, HostPartOf, s, Piece(None, [58]), Piece(Some(PPort), p.value));
    } else {
      NothingAfter(ParseHostChar, s);
    }
  }

  lemma {:induction false} ReadsBoth<S>(step: (S, Byte) -> S, part: S -> Option<Part>, s: S, a: seq<Byte>, b: seq<Byte>, f: Option<Part>)
    requires Reads(step, part, s, a, f) && Reads(step, part, Final(step, s, a), b, f)
    ensures Reads(step, part, s, a + b, f)
    decreases |a|
  {
    if a == [] {
      assert a + b == b;
    } else {
      assert (a + b)[1..] == a[1..] + b;
      ReadsBoth(step, part, step(s, a[0]), a[1..], b, f);
    }
  }

  lemma {:induction false} AddressRead(a: seq<Byte>, z: Option<seq<Byte>>)
    requires IsHost(Bracketed(a, z))
    ensures Reads(ParseHostChar, HostPartOf, V6Start, a + ZoneText(z), Some(PHost))
    ensures Final(ParseHostChar, V6Start, a + ZoneText(z)) == if z.None? then V6 else V6Zone
  {
    hide ParseHostChar, AddressByte, ZoneByte, Final, Reads;
    AddressSteps();
    ZoneSteps();
    ClassRead(V6Start, a, AddressByte, V6);
    if z.None? {
      assert a + ZoneText(z) == a;
    } else {
      Marks();
      HostSteps(37);
      OneByteRead(V6, 37);
      ClassRead(V6ZoneStart, z.value, ZoneByte, V6Zone);
      ReadsBoth(ParseHostChar, HostPartOf, V6, [37], z.value, Some(PHost));
      AfterBoth(ParseHostChar, V6, [37], z.value);
      ReadsBoth(ParseHostChar, HostPartOf, V6Start, a, ZoneText(z), Some(PHost));
      AfterBoth(ParseHostChar, V6Start, a, ZoneText(z));
    }
  }

  lemma {:induction false} NameRead(t: seq<Byte>)
    requires t != [] && All(t, HostByte)
    ensures Reads(ParseHostChar, HostPartOf, HostStart, t, Some(PHost)) && Final(ParseHostChar, HostStart, t) == HostName
  {
    hide ParseHostChar, HostByte, Final, Reads;
    NameSteps();
    ClassRead(HostStart, t, HostByte, HostName);
  }

  lemma {:induction false} BracketsRead(a: seq<Byte>, z: Option<seq<Byte>>)
    requires IsHost(Bracketed(a, z))
    ensures ReadsAll(ParseHostChar, HostPartOf, HostStart, HostPieces(Bracketed(a, z)))
    ensures Final(ParseHostChar, HostStart, TextOf(HostPieces(Bracketed(a, z)))) == V6End
  {
    hide ParseHostChar, HostByte, AddressByte, ZoneByte, Final, Reads, ReadsAll, IsHost;
    var open, text, close := Piece(None, [91]), Piece(Some(PHost), a + ZoneText(z)), Piece(None, [93]);
    BracketSteps(if z.None? then V6 else V6Zone);
    OneByteRead(HostStart, 91);
    OnePiece(ParseHostChar, HostPartOf, HostStart, None, [91]);
    AddressRead(a, z);
    OneByteRead(if z.None? then V6 else V6Zone, 93);
    TwoPieces(ParseHostChar, HostPartOf, V6Start, text, close);
    BothRead(ParseHostChar, HostPartOf, HostStart, [open], [text, close]);
    assert HostPieces(Bracketed(a, z)) == [open] + [text, close];
  }

  lemma BracketSteps(s: HostState)
    requires s.V6? || s.V6Zone?
    ensures ParseHostChar(HostStart, 91) == V6Start && ParseHostChar(s, 93) == V6End
  {
  }

  lemma {:induction false} HostRead(h: HostText)
    requires IsHost(h)
    ensures ReadsAll(ParseHostChar, HostPartOf, HostStart, HostPieces(h))
    ensures Final(ParseHostChar, HostStart, TextOf(HostPieces(h))) == if h.RegName? then HostName else V6End
  {
    hide ParseHostChar, HostByte, Final, Reads, ReadsAll, All;
    match h
    case RegName(t) =>
      NameRead(t);
      OnePiece(ParseHostChar, HostPartOf, HostStart, Some(PHost), t);
    case Bracketed(a, z) => BracketsRead(a, z);
  }

  /** An authority that is written is accepted, and read as its parts. */
  lemma {:induction false} AuthorityRead(a: AuthorityText)
    requires IsAuthority(a)
    ensures
      var s := if a.user.Some? then UserInfoStart else HostStart;
      ReadsAll(ParseHostChar, HostPartOf, s, AuthorityPieces(a))
      && MayEndHost(Final(ParseHostChar, s, TextOf(AuthorityPieces(a))))
  {
    hide ParseHostChar, Final, Reads, ReadsAll, IsUser, IsHost, IsPort;
    var s := if a.user.Some? then UserInfoStart else HostStart;
    var u, h, p := UserPieces(a.user), HostPieces(a.host), PortPieces(a.port);
    UserRead(a.user);
    HostRead(a.host);
    PortRead(Final(ParseHostChar, HostStart, TextOf(h)), a.port);
    BothRead(ParseHostChar, HostPartOf, s, u, h);
    BothRead(ParseHostChar, HostPartOf, s, u + h, p);
  }

  // ---------- what is accepted is written ----------

  lemma {:induction false} HostStaysDead(t: seq<Byte>)
    ensures Final(ParseHostChar, HostDead, t) == HostDead
    decreases |t|
  {
    if t != [] {
      HostStaysDead(t[1..]);
    }
  }

  /** The bytes of a class that a text starts with are read first. */
  lemma {:induction false} SpanRead(s: HostState, t: seq<Byte>, ok: Byte -> bool, u: HostState)
    requires forall c: Byte :: ok(c) ==> ParseHostChar(s, c) == u && ParseHostChar(u, c) == u
    ensures
      var k := Span(t, ok);
      var m := if k == 0 then s else u;
      Final(ParseHostChar, s, t) == Final(ParseHostChar, m, t[k..])
      && (k < |t| ==> !ok(t[k]) && Final(ParseHostChar, m, t[k..]) == Final(ParseHostChar, ParseHostChar(m, t[k]), t[k + 1..]))
      && (k == |t| ==> Final(ParseHostChar, m, t[k..]) == m)
  {
    hide ParseHostChar, Final;
    var k := Span(t, ok);
    ClassRead(s, t[..k], ok, u);
    AfterBoth(ParseHostChar, s, t[..k], t[k..]);
    assert t == t[..k] + t[k..];
    AfterCons(ParseHostChar, if k == 0 then s else u, t[k..]);
    if k < |t| {
      assert t[k..][1..] == t[k + 1..];
    }
  }

  lemma {:induction false} PortWritten(s: HostState, t: seq<Byte>) returns (p: Option<seq<Byte>>)
    requires (s.HostName? && (t != [] ==> !HostByte(t[0]))) || s.V6End?
    requires MayEndHost(Final(ParseHostChar, s, t))
    ensures IsPort(p) && TextOf(PortPieces(p)) == t
  {
    hide ParseHostChar, Final, Digit;
    if t == [] {
      p := None;
    } else {
      HostSteps(t[0]);
      HostStaysDead(t[1..]);
      AfterCons(ParseHostChar, s, t);
      var d := t[1..];
      DigitsSteps();
      SpanRead(PortStart, d, Digit, Port);
      var k := Span(d, Digit);
      if k < |d| {
        HostSteps(d[k]);
        HostStaysDead(d[k + 1..]);
        assert false;
      }
      p := Some(d);
      assert d[..k] == d;
      TextTwo(Piece(None, [58]), Piece(Some(PPort), d));
    }
  }

  lemma {:induction false} NameWritten(t: seq<Byte>) returns (h: HostText, p: Option<seq<Byte>>)
    requires t != [] && HostByte(t[0]) && MayEndHost(Final(ParseHostChar, HostStart, t))
    ensures IsHost(h) && IsPort(p) && TextOf(HostPieces(h)) + TextOf(PortPieces(p)) == t
  {
    hide ParseHostChar, Final, HostByte, IsPort;
    NameSteps();
    SpanRead(HostStart, t, HostByte, HostName);
    var k := Span(t, HostByte);
    h := RegName(t[..k]);
    p := PortWritten(HostName, t[k..]);
    TextOne(Piece(Some(PHost), t[..k]));
  }

  lemma TextOne(p: Piece)
    ensures TextOf([p]) == p.text
  {
    TextTwo(p, p);
  }

  /** What stands in brackets, and the text behind them. */
  lemma {:induction false} ZoneWritten(t: seq<Byte>) returns (z: seq<Byte>, rest: seq<Byte>)
    requires MayEndHost(Final(ParseHostChar, V6ZoneStart, t))
    ensures t == z + [93] + rest && z != [] && All(z, ZoneByte) && MayEndHost(Final(ParseHostChar, V6End, rest))
  {
    hide ParseHostChar, Final, ZoneByte;
    ZoneSteps();
    SpanRead(V6ZoneStart, t, ZoneByte, V6Zone);
    var k := Span(t, ZoneByte);
    HostSteps(t[k]);
    HostStaysDead(t[k + 1..]);
    z, rest := t[..k], t[k + 1..];
    assert t == t[..k] + [t[k]] + t[k + 1..];
  }

  lemma {:induction false} AddressEnds(t: seq<Byte>) returns (a: seq<Byte>, c: Byte, rest: seq<Byte>)
    requires MayEndHost(Final(ParseHostChar, V6Start, t))
    ensures t == a + [c] + rest && a != [] && All(a, AddressByte) && (c == 93 || c == 37)
    ensures MayEndHost(Final(ParseHostChar, if c == 93 then V6End else V6ZoneStart, rest))
  {
    hide ParseHostChar, Final, AddressByte;
    AddressSteps();
    SpanRead(V6Start, t, AddressByte, V6);
    var k := Span(t, AddressByte);
    HostSteps(t[k]);
    HostStaysDead(t[k + 1..]);
    a, c, rest := t[..k], t[k], t[k + 1..];
  }

  lemma {:induction false} AddressWritten(t: seq<Byte>) returns (a: seq<Byte>, z: Option<seq<Byte>>, rest: seq<Byte>)
    requires MayEndHost(Final(ParseHostChar, V6Start, t))
    ensures t == a + ZoneText(z) + [93] + rest && IsHost(Bracketed(a, z)) && MayEndHost(Final(ParseHostChar, V6End, rest))
  {
    hide ParseHostChar, Final, ZoneByte, AddressByte;
    var c, behind;
    a, c, behind := AddressEnds(t);
    if c == 93 {
      z, rest := None, behind;
      assert a + [] == a;
    } else {
      var zone;
      zone, rest := ZoneWritten(behind);
      z := Some(zone);
      assert a + [37] + (zone + [93] + rest) == a + ([37] + zone) + [93] + rest;
    }
  }

  lemma BracketsText(a: seq<Byte>, z: Option<seq<Byte>>, t: seq<Byte>, rest: seq<Byte>)
    requires t == [91] + (a + ZoneText(z) + [93] + rest)
    ensures TextOf(HostPieces(Bracketed(a, z))) + rest == t
  {
    hide TextOf, ZoneText;
    var text := a + ZoneText(z);
    TextOne(Piece(None, [91]));
    TextTwo(Piece(Some(PHost), text), Piece(None, [93]));
    TextBoth([Piece(None, [91])], [Piece(Some(PHost), text), Piece(None, [93])]);
    assert HostPieces(Bracketed(a, z)) == [Piece(None, [91])] + [Piece(Some(PHost), text), Piece(None, [93])];
    assert [91] + (text + [93]) + rest == t;
  }

  lemma {:induction false} BracketsWritten(t: seq<Byte>) returns (h: HostText, p: Option<seq<Byte>>)
    requires t != [] && !HostByte(t[0]) && MayEndHost(Final(ParseHostChar, HostStart, t))
    ensures IsHost(h) && IsPort(p) && TextOf(HostPieces(h)) + TextOf(PortPieces(p)) == t
  {
    hide ParseHostChar, Final, IsHost, IsPort, HostByte, TextOf, HostPieces, PortPieces, ZoneText;
    AfterCons(ParseHostChar, HostStart, t);
    HostSteps(t[0]);
    HostStaysDead(t[1..]);
    var a, z, rest := AddressWritten(t[1..]);
    h := Bracketed(a, z);
    p := PortWritten(V6End, rest);
    assert t == [91] + t[1..];
    BracketsText(a, z, t, rest);
  }

  lemma {:induction false} HostWritten(t: seq<Byte>) returns (h: HostText, p: Option<seq<Byte>>)
    requires MayEndHost(Final(ParseHostChar, HostStart, t))
    ensures IsHost(h) && IsPort(p) && TextOf(HostPieces(h)) + TextOf(PortPieces(p)) == t
  {
    hide ParseHostChar, Final, IsHost, IsPort, HostByte;
    AfterCons(ParseHostChar, HostStart, t);
    if HostByte(t[0]) {
      h, p := NameWritten(t);
    } else {
      h, p := BracketsWritten(t);
    }
  }

  lemma {:induction false} UserWritten(t: seq<Byte>) returns (u: seq<Byte>, rest: seq<Byte>)
    requires MayEndHost(Final(ParseHostChar, UserInfoStart, t))
    ensures t == u + [64] + rest && All(u, UserByte) && MayEndHost(Final(ParseHostChar, HostStart, rest))
  {
    hide ParseHostChar, Final, UserByte;
    UserSteps();
    SpanRead(UserInfoStart, t, UserByte, UserInfo);
    var k := Span(t, UserByte);
    HostSteps(t[k]);
    HostStaysDead(t[k + 1..]);
    u, rest := t[..k], t[k + 1..];
  }

  /** An authority that is accepted is written, with user info if and only if the reading started with it. */
  lemma {:induction false} AuthorityWritten(t: seq<Byte>, s: HostState) returns (a: AuthorityText)
    requires (s.UserInfoStart? || s.HostStart?) && MayEndHost(Final(ParseHostChar, s, t))
    ensures IsAuthority(a) && TextOf(AuthorityPieces(a)) == t && (a.user.Some? <==> s.UserInfoStart?)
  {
    hide ParseHostChar, Final, IsHost, IsPort, UserByte, HostPieces, PortPieces, AuthorityPieces;
    var user: Option<seq<Byte>>, rest := None, t;
    if s.UserInfoStart? {
      var u;
      u, rest := UserWritten(t);
      user := Some(u);
    }
    var h, p := HostWritten(rest);
    a := AuthorityText(user, h, p);
    AuthorityTextIs(a);
  }

  lemma {:induction false} AuthorityTextIs(a: AuthorityText)
    ensures TextOf(AuthorityPieces(a)) == (if a.user.Some? then a.user.value + [64] else []) + (TextOf(HostPieces(a.host)) + TextOf(PortPieces(a.port)))
  {
    hide HostPieces, PortPieces;
    var u, h, p := UserPieces(a.user), HostPieces(a.host), PortPieces(a.port);
    TextBoth(u, h);
    TextBoth(u + h, p);
    if a.user.Some? {
      TextTwo(Piece(Some(PUserInfo), a.user.value), Piece(None, [64]));
    }
    assert TextOf(u) + TextOf(h) + TextOf(p) == TextOf(u) + (TextOf(h) + TextOf(p));
  }

  // ---------- an authority in its URL ----------

  predicate PlainByte(c: Byte) { ServerByte(c) && c != 64 }

  lemma PlainClasses()
    ensures forall c: Byte :: HostByte(c) || AddressByte(c) || ZoneByte(c) || Digit(c) || UserByte(c) ==> PlainByte(c)
    ensures PlainByte(91) && PlainByte(93) && PlainByte(58) && PlainByte(37) && ServerByte(64)
  {
  }

  lemma {:induction false} HostPlain(h: HostText, p: Option<seq<Byte>>)
    requires IsHost(h) && IsPort(p)
    ensures All(TextOf(HostPieces(h)) + TextOf(PortPieces(p)), PlainByte)
  {
    hide PlainByte, HostByte, AddressByte, ZoneByte, Digit, TextOf;
    PlainClasses();
    match h {
      case RegName(t) => TextOne(Piece(Some(PHost), t));
      case Bracketed(a, z) =>
        var text := a + ZoneText(z);
        TextOne(Piece(None, [91]));
        TextTwo(Piece(Some(PHost), text), Piece(None, [93]));
        TextBoth([Piece(None, [91])], [Piece(Some(PHost), text), Piece(None, [93])]);
        assert HostPieces(h) == [Piece(None, [91])] + [Piece(Some(PHost), text), Piece(None, [93])];
    }
    if p.Some? {
      TextTwo(Piece(None, [58]), Piece(Some(PPort), p.value));
    } else {
      NoText();
    }
  }

  lemma NoText()
    ensures TextOf([]) == []
  {
  }

  /** An authority passes as the bytes of one; an `@` is there if and only if there is user info. */
  lemma {:induction false} AuthorityIsServer(a: AuthorityText)
    requires IsAuthority(a)
    ensures var t := TextOf(AuthorityPieces(a)); IsServer(t) && t != [] && (64 in t <==> a.user.Some?)
  {
    hide ServerByte, PlainByte, HostPieces, PortPieces, AuthorityPieces, TextOf, UserByte, IsPort;
    var b := TextOf(HostPieces(a.host)) + TextOf(PortPieces(a.port));
    AuthorityTextIs(a);
    HostPlain(a.host, a.port);
    PlainClasses();
    PlainMeans(b);
    HostNotEmpty(a.host);
    if a.user.Some? {
      PlainMeans(a.user.value);
      assert (a.user.value + [64] + b)[|a.user.value|] == 64;
    }
  }

  lemma PlainMeans(b: seq<Byte>)
    requires All(b, PlainByte)
    ensures All(b, ServerByte) && 64 !in b
  {
  }

  lemma HostNotEmpty(h: HostText)
    requires IsHost(h)
    ensures TextOf(HostPieces(h)) != []
  {
  }

  lemma {:induction false} AuthoritySorted(a: AuthorityText)
    ensures Sorted(AuthorityPieces(a), 1, 4)
  {
    var u, h, p := UserPieces(a.user), HostPieces(a.host), PortPieces(a.port);
    SortedBoth(u, h, 1, 2, 3);
    SortedBoth(u + h, p, 1, 3, 4);
  }

  lemma {:induction false} ServerReadFrom(s: UrlState, t: seq<Byte>)
    requires InServer(s) && ServerFrom(s.ServerWithAt?, t)
    ensures Reads(ParseUrlChar, PartOf, s, t, Some(PHost)) && InServer(Final(ParseUrlChar, s, t))
    decreases |t|
  {
    hide ParseUrlChar, ServerByte;
    if t != [] {
      ServerStep(s, t[0]);
      NotInServer(t[0]);
      ServerReadFrom(ParseUrlChar(s, t[0]), t[1..]);
    }
  }

  /** In front of an authority there is a schema, or nothing. */
  function Front(schema: seq<Byte>): seq<Piece> {
    if schema == [] then [] else [Piece(Some(PSchema), schema), Piece(None, [58, 47, 47])]
  }

  /** A URL as the first pass sees it. */
  function RoughPieces(schema: seq<Byte>, server: seq<Byte>, t: TailText): seq<Piece> {
    Front(schema) + [Piece(Some(PHost), server)] + TailPieces(t)
  }

  lemma {:induction false} FrontRead(schema: seq<Byte>)
    requires All(schema, Letter)
    ensures
      var s := if schema == [] then ServerStart else UrlStart;
      ReadsAll(ParseUrlChar, PartOf, s, Front(schema)) && Final(ParseUrlChar, s, TextOf(Front(schema))) == ServerStart
  {
    hide ParseUrlChar, Final, Reads, All;
    if schema == [] {
      NothingAfter(ParseUrlChar, ServerStart);
    } else {
      SchemaRead(schema);
      SlashesRead();
      TwoPieces(ParseUrlChar, PartOf, UrlStart, Piece(Some(PSchema), schema), Piece(None, [58, 47, 47]));
    }
  }

  lemma {:induction false} RoughRead(schema: seq<Byte>, server: seq<Byte>, t: TailText)
    requires All(schema, Letter) && IsServer(server) && IsTail(t)
    ensures
      var s := if schema == [] then ServerStart else UrlStart;
      var ps := RoughPieces(schema, server, t);
      ReadsAll(ParseUrlChar, PartOf, s, ps) && !Final(ParseUrlChar, s, TextOf(ps)).UrlDead? && Sorted(ps, 0, 7)
  {
    hide ParseUrlChar, Final, Reads, ReadsAll, All, Front, TailPieces, IsTail, TextOf, ServerFrom;
    var s := if schema == [] then ServerStart else UrlStart;
    var host := [Piece(Some(PHost), server)];
    FrontRead(schema);
    ServerFromIs(false, server);
    ServerReadFrom(ServerStart, server);
    OnePiece(ParseUrlChar, PartOf, ServerStart, Some(PHost), server);
    BothRead(ParseUrlChar, PartOf, s, Front(schema), host);
    var m := Final(ParseUrlChar, ServerStart, server);
    TailRead(m, t);
    BothRead(ParseUrlChar, PartOf, s, Front(schema) + host, TailPieces(t));
    FrontSorted(schema);
    TailSorted(t);
    SortedBoth(Front(schema), host, 0, 1, 4);
    SortedBoth(Front(schema) + host, TailPieces(t), 0, 4, 7);
  }

  lemma FrontSorted(schema: seq<Byte>)
    ensures Sorted(Front(schema), 0, 1)
  {
  }
}
