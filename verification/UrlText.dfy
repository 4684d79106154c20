/** URLs as texts: which are accepted by the two passes of `http_parser_parse_url`, and with which slices. */
module UrlText {
  import opened Ascii
  import opened Options
  import opened HttpTypes
  import opened HttpTrans
  import opened Url
  import opened UrlHost
  import opened UrlGrammar
  import opened UrlAuthority

  datatype Text =
    | OriginForm(tail: TailText)
    | AbsoluteForm(schema: seq<Byte>, authority: AuthorityText, tail: TailText)
    | AuthorityForm(authority: AuthorityText, tail: TailText)

  predicate IsUrl(connect: bool, u: Text) {
    match u
    case OriginForm(t) => !connect && IsOrigin(t)
    case AbsoluteForm(s, a, t) => !connect && s != [] && All(s, Letter) && IsAuthority(a) && IsTail(t)
    case AuthorityForm(a, t) => connect && IsAuthority(a) && IsTail(t)
  }

  function SchemaOf(u: Text): seq<Byte> { if u.AbsoluteForm? then u.schema else [] }

  function UrlPieces(u: Text): seq<Piece> {
    if u.OriginForm? then TailPieces(u.tail) else Front(SchemaOf(u)) + AuthorityPieces(u.authority) + TailPieces(u.tail)
  }

  /** The URL as a text. */
  function UrlBytes(u: Text): seq<Byte> { TextOf(UrlPieces(u)) }

  /** The slices of its parts that are not empty. */
  function UrlSlices(u: Text): Parts { Slices(0, UrlPieces(u)) }

  /** Where its authority stands. */
  function ServerOf(u: Text): seq<Byte> { if u.OriginForm? then [] else TextOf(AuthorityPieces(u.authority)) }

  /** What the first pass makes of it. */
  function RawPieces(u: Text): seq<Piece> {
    if u.OriginForm? then TailPieces(u.tail) else RoughPieces(SchemaOf(u), ServerOf(u), u.tail)
  }

  lemma {:induction false} UrlRead(connect: bool, u: Text)
    requires IsUrl(connect, u)
    ensures
      var ps := RawPieces(u);
      TextOf(ps) == UrlBytes(u) && UrlBytes(u) != [] && Apart(ps) && ReadsAll(ParseUrlChar, PartOf, StartOf(connect), ps)
      && !Final(ParseUrlChar, StartOf(connect), UrlBytes(u)).UrlDead?
  {
    hide ParseUrlChar, Final, ReadsAll, All, TailPieces, IsTail, IsOrigin, IsAuthority, TextOf, Apart, AuthorityPieces, Front;
    if u.OriginForm? {
      TailRead(UrlStart, u.tail);
      TailSorted(u.tail);
      SortedApart(TailPieces(u.tail), 4, 7);
      OriginNotEmpty(u.tail);
    } else {
      var server := ServerOf(u);
      AuthorityIsServer(u.authority);
      AllOfNone(Letter);
      RoughRead(SchemaOf(u), server, u.tail);
      SortedApart(RawPieces(u), 0, 7);
      var f, h, a, t := Front(SchemaOf(u)), [Piece(Some(PHost), server)], AuthorityPieces(u.authority), TailPieces(u.tail);
      TextOne(h[0]);
      TextBoth(f, h);
      TextBoth(f + h, t);
      TextBoth(f, a);
      TextBoth(f + a, t);
    }
  }

  lemma OriginNotEmpty(t: TailText)
    requires IsOrigin(t)
    ensures TextOf(TailPieces(t)) != []
  {
    TailTextIs(t);
  }

  /** The authority of a URL has a slice of its own after the first pass ... */
  lemma {:induction false} HostSlice(u: Text)
    requires !u.OriginForm? && ServerOf(u) != []
    ensures
      var raw, lo := Slices(0, RawPieces(u)), |TextOf(Front(SchemaOf(u)))|;
      PHost in raw && raw[PHost] == Range(lo, |ServerOf(u)|)
  {
    RoughSlices(SchemaOf(u), ServerOf(u), u.tail);
  }

  /** The slice of an authority. */
  function HostMap(lo: nat, server: seq<Byte>): Parts {
    if server == [] then map[] else map[PHost := Range(lo, |server|)]
  }

  lemma {:induction false} RoughSlices(schema: seq<Byte>, server: seq<Byte>, t: TailText)
    ensures
      var raw, lo := Slices(0, RoughPieces(schema, server, t)), |TextOf(Front(schema))|;
      raw == Slices(lo + |server|, TailPieces(t)) + (HostMap(lo, server) + Slices(0, Front(schema)))
      && (PHost in raw <==> server != []) && (PHost in raw ==> raw[PHost] == Range(lo, |server|)) && (PSchema in raw <==> schema != [])
  {
    hide TailPieces, Front, Slices, TextOf, Sorted;
    var h := [Piece(Some(PHost), server)];
    var lo := |TextOf(Front(schema))|;
    SlicesBoth(0, Front(schema) + h, TailPieces(t));
    SlicesBoth(0, Front(schema), h);
    TextBoth(Front(schema), h);
    TextOne(h[0]);
    OneSliceIs(lo, h[0]);
    FrontSlices(schema);
    TailSorted(t);
    SlicesBetween(lo + |server|, TailPieces(t), 4, 7);
    Layers(Slices(0, Front(schema)), HostMap(lo, server), Slices(lo + |server|, TailPieces(t)));
  }

  /** Slices from different places of a URL do not hide each other. */
  lemma Layers(x: Parts, y: Parts, z: Parts)
    requires x.Keys <= {PSchema} && (forall f :: f in y ==> 1 <= Order(f) < 4) && forall f :: f in z ==> 4 <= Order(f)
    ensures
      var all := z + (y + x);
      (PHost in all <==> PHost in y) && (PHost in y ==> all[PHost] == y[PHost]) && (PSchema in all <==> PSchema in x)
  {
  }

  lemma Replaced(x: Parts, h: Parts, y: Parts, z: Parts)
    requires x.Keys <= {PSchema} && h.Keys <= {PHost} && (forall f :: f in y ==> 1 <= Order(f) < 4) && forall f :: f in z ==> 4 <= Order(f)
    ensures (z + (h + x)) - {PHost} + y == z + (y + x)
  {
    var a, b := (z + (h + x)) - {PHost} + y, z + (y + x);
    forall f ensures f in a <==> f in b { }
    forall f | f in a ensures a[f] == b[f] { }
  }

  lemma OneSliceIs(at: nat, p: Piece)
    ensures Slices(at, [p]) == if p.part.Some? && p.text != [] then map[p.part.value := Range(at, |p.text|)] else map[]
  {
    assert [p][1..] == [];
    assert Slices(at + |p.text|, []) == map[];
  }

  lemma FrontSlices(schema: seq<Byte>)
    ensures
      var s := Slices(0, Front(schema));
      if schema == [] then s == map[] else s.Keys == {PSchema}
  {
    if schema != [] {
      var ps := Front(schema);
      assert ps[1..] == [Piece(None, [58, 47, 47])];
      OneSliceIs(|schema|, ps[1]);
    }
  }

  /** ... which the slices of the second pass replace. */
  lemma {:induction false} UrlSlicesAre(u: Text)
    requires !u.OriginForm?
    ensures
      var lo := |TextOf(Front(SchemaOf(u)))|;
      UrlSlices(u) == (Slices(0, RawPieces(u)) - {PHost}) + Slices(lo, AuthorityPieces(u.authority))
  {
    hide TailPieces, Front, AuthorityPieces, Slices, TextOf, Sorted;
    var f, a, t := Front(SchemaOf(u)), AuthorityPieces(u.authority), TailPieces(u.tail);
    var lo := |TextOf(f)|;
    RoughSlices(SchemaOf(u), ServerOf(u), u.tail);
    SlicesBoth(0, f + a, t);
    SlicesBoth(0, f, a);
    TextBoth(f, a);
    AuthoritySorted(u.authority);
    TailSorted(u.tail);
    FrontSlices(SchemaOf(u));
    SlicesBetween(lo, a, 1, 4);
    SlicesBetween(lo + |TextOf(a)|, t, 4, 7);
    Replaced(Slices(0, f), HostMap(lo, ServerOf(u)), Slices(lo, a), Slices(lo + |TextOf(a)|, t));
  }

  /** What the two passes do with the URL in `buf`: the first pass finds the slices `raw`, the second those of the authority. */
  ghost predicate Passes(buf: seq<Byte>, connect: bool, raw: Parts, last: Option<Part>, foundAt: bool, hp: Parts) {
    var from := StartOf(connect);
    ScanInv(buf, from, |buf|, raw, last)
    && (foundAt <==> exists p :: 0 <= p < |buf| && StateAfter(buf, from, p).ServerWithAt?)
    && (PHost in raw ==>
      var lo, hi := raw[PHost].off, raw[PHost].off + raw[PHost].len;
      hi <= |buf| && (MayEndHost(HostAt(buf, HostFrom(foundAt), lo, hi)) ==> HostInv(buf, HostFrom(foundAt), lo, hi, hp)))
  }

  function HostFrom(foundAt: bool): HostState { if foundAt then UserInfoStart else HostStart }

  /** The passes accept. */
  ghost predicate Accepts(buf: seq<Byte>, connect: bool, raw: Parts, foundAt: bool) {
    !StateAt(buf, StartOf(connect), |buf|).UrlDead? && (PSchema in raw ==> PHost in raw)
    && (PHost in raw ==>
      raw[PHost].off + raw[PHost].len <= |buf|
      && MayEndHost(HostAt(buf, HostFrom(foundAt), raw[PHost].off, raw[PHost].off + raw[PHost].len)))
  }

  function WithAuthority(raw: Parts, hp: Parts): Parts { if PHost in raw then (raw - {PHost}) + hp else raw }

  lemma WithAtMeans(s: UrlState, c: Byte)
    ensures ParseUrlChar(s, c).ServerWithAt? <==> PartOf(ParseUrlChar(s, c)) == Some(PHost) && c == 64
  {
  }

  /** An `@` was found if and only if the authority has one. */
  lemma {:induction false} FoundAtIs(buf: seq<Byte>, from: UrlState, raw: Parts, last: Option<Part>, server: seq<Byte>)
    requires ScanInv(buf, from, |buf|, raw, last) && PHost in raw && raw[PHost].off + raw[PHost].len <= |buf|
    requires server == buf[raw[PHost].off..raw[PHost].off + raw[PHost].len]
    ensures (exists p :: 0 <= p < |buf| && StateAfter(buf, from, p).ServerWithAt?) <==> 64 in server
  {
    hide ParseUrlChar, ScanInv, PartOf;
    forall p | 0 <= p < |buf| ensures StateAfter(buf, from, p).ServerWithAt? <==> raw[PHost].Has(p) && buf[p] == 64 {
      InPart(buf, from, raw, last, PHost, p);
      WithAtMeans(StateAt(buf, from, p), buf[p]);
    }
    if 64 in server {
      var i :| 0 <= i < |server| && server[i] == 64;
      assert StateAfter(buf, from, raw[PHost].off + i).ServerWithAt?;
    }
    if p :| 0 <= p < |buf| && StateAfter(buf, from, p).ServerWithAt? {
      assert server[p - raw[PHost].off] == 64;
    }
  }

  /** A URL of the grammar is accepted, with the slices of its parts. */
  lemma {:induction false} UrlAccepted(buf: seq<Byte>, connect: bool, u: Text, raw: Parts, last: Option<Part>, foundAt: bool, hp: Parts)
    requires IsUrl(connect, u) && buf == UrlBytes(u) && Passes(buf, connect, raw, last, foundAt, hp)
    ensures buf != [] && Accepts(buf, connect, raw, foundAt) && WithAuthority(raw, hp) == UrlSlices(u)
  {
    hide ParseUrlChar, Final, ReadsAll, TailPieces, IsTail, IsOrigin, TextOf, Apart, AuthorityPieces, Front, ScanInv, StateAt, HostInv, HostAt, UrlBytes, RawPieces;
    var from := StartOf(connect);
    UrlRead(connect, u);
    UrlAfter(buf, from, |buf|);
    assert buf[..|buf|] == buf;
    RawIs(buf, from, raw, last, RawPieces(u));
    if u.OriginForm? {
      OriginSlices(u);
    } else {
      HostAccepted(buf, connect, u, raw, last, foundAt, hp);
    }
  }

  lemma OriginSlices(u: Text)
    requires u.OriginForm?
    ensures UrlSlices(u) == Slices(0, RawPieces(u)) && PSchema !in UrlSlices(u) && PHost !in UrlSlices(u)
  {
    TailSorted(u.tail);
    SlicesBetween(0, TailPieces(u.tail), 4, 7);
  }

  lemma {:induction false} HostAccepted(buf: seq<Byte>, connect: bool, u: Text, raw: Parts, last: Option<Part>, foundAt: bool, hp: Parts)
    requires IsUrl(connect, u) && !u.OriginForm? && buf == UrlBytes(u) && Passes(buf, connect, raw, last, foundAt, hp)
    requires raw == Slices(0, RawPieces(u))
    ensures PHost in raw && raw[PHost].off + raw[PHost].len <= |buf| && WithAuthority(raw, hp) == UrlSlices(u)
    ensures MayEndHost(HostAt(buf, HostFrom(foundAt), raw[PHost].off, raw[PHost].off + raw[PHost].len))
  {
    hide ParseUrlChar, ParseHostChar, Final, ReadsAll, TailPieces, IsTail, TextOf, Apart, AuthorityPieces, Front, ScanInv, StateAt, HostInv, HostAt, UrlBytes,
         RawPieces, UrlSlices, IsAuthority, Slices;
    var lo, server := |TextOf(Front(SchemaOf(u)))|, ServerOf(u);
    var hi := lo + |server|;
    AuthorityIsServer(u.authority);
    HostSlice(u);
    ServerStands(u);
    FoundAtIs(buf, StartOf(connect), raw, last, server);
    AuthorityRead(u.authority);
    HostAfterText(buf, HostFrom(foundAt), lo, hi);
    AuthoritySorted(u.authority);
    SortedApart(AuthorityPieces(u.authority), 1, 4);
    HostPartsAre(buf, HostFrom(foundAt), lo, hi, hp, AuthorityPieces(u.authority));
    UrlSlicesAre(u);
  }

  lemma ServerStands(u: Text)
    requires !u.OriginForm?
    ensures
      var lo, b := |TextOf(Front(SchemaOf(u)))|, UrlBytes(u);
      lo + |ServerOf(u)| <= |b| && b[lo..lo + |ServerOf(u)|] == ServerOf(u)
  {
    var f, a, t := Front(SchemaOf(u)), AuthorityPieces(u.authority), TailPieces(u.tail);
    TextBoth(f, a);
    TextBoth(f + a, t);
  }

  /** Where the first pass finds an authority, it is the one that stands there. */
  lemma {:induction false} RoughFound(buf: seq<Byte>, connect: bool, schema: seq<Byte>, server: seq<Byte>, t: TailText, raw: Parts, last: Option<Part>)
    requires ScanInv(buf, StartOf(connect), |buf|, raw, last) && buf == TextOf(RoughPieces(schema, server, t))
    requires All(schema, Letter) && (schema == [] <==> connect) && IsServer(server) && IsTail(t)
    ensures var lo := |TextOf(Front(schema))|; lo + |server| <= |buf| && buf[lo..lo + |server|] == server
    ensures PHost in raw <==> server != []
    ensures PHost in raw ==> raw[PHost] == Range(|TextOf(Front(schema))|, |server|)
    ensures PSchema in raw <==> schema != []
  {
    hide ParseUrlChar, ScanInv, ReadsAll, Final, IsServer, IsTail, TailPieces, Front, Slices, TextOf, Sorted, Apart;
    var ps := RoughPieces(schema, server, t);
    RoughRead(schema, server, t);
    SortedApart(ps, 0, 7);
    RawIs(buf, StartOf(connect), raw, last, ps);
    RoughSlices(schema, server, t);
    var h := [Piece(Some(PHost), server)];
    TextBoth(Front(schema), h);
    TextOne(h[0]);
    TextBoth(Front(schema) + h, TailPieces(t));
  }

  /** What the passes accept is a URL of the grammar, but that a CONNECT target may have no authority (and is then
      refused for it). */
  lemma {:induction false} UrlWritten(buf: seq<Byte>, connect: bool, raw: Parts, last: Option<Part>, foundAt: bool, hp: Parts)
    returns (u: Text)
    requires buf != [] && Passes(buf, connect, raw, last, foundAt, hp) && Accepts(buf, connect, raw, foundAt)
    ensures !connect || PHost in raw ==> IsUrl(connect, u) && buf == UrlBytes(u)
  {
    hide ParseUrlChar, Final, ScanInv, StateAt, HostAt, HostInv, Printable, Letter, IsOrigin, IsTail, UrlBytes, All;
    u := OriginForm(TailText([], None, NoFragment));
    UrlAfter(buf, StartOf(connect), |buf|);
    assert buf[..|buf|] == buf;
    if connect {
      AllOfNone(Letter);
      assert [] + buf == buf;
      u := RestOfUrl(buf, connect, [], buf, raw, last, foundAt, hp);
    } else {
      SchemaSteps(buf[0]);
      AfterCons(ParseUrlChar, UrlStart, buf);
      StaysDead(buf[1..]);
      if OneOf(buf[0], "/*") {
        LiveTail(Path, buf[1..]);
        AllCons(buf, Printable);
        var t := TailWritten(buf, true);
        u := OriginForm(t);
        OriginBytes(u);
      } else {
        u := SchemaUrl(buf, raw, last, foundAt, hp);
      }
    }
  }

  lemma OriginBytes(u: Text)
    requires u.OriginForm?
    ensures UrlBytes(u) == TextOf(TailPieces(u.tail))
  {
  }

  lemma {:induction false} SchemaUrl(buf: seq<Byte>, raw: Parts, last: Option<Part>, foundAt: bool, hp: Parts) returns (u: Text)
    requires buf != [] && Letter(buf[0]) && Passes(buf, false, raw, last, foundAt, hp) && Accepts(buf, false, raw, foundAt)
    ensures IsUrl(false, u) && buf == UrlBytes(u)
  {
    hide ParseUrlChar, Final, ScanInv, StateAt, HostAt, HostInv, Letter, IsUrl, UrlBytes, All;
    UrlAfter(buf, UrlStart, |buf|);
    assert buf[..|buf|] == buf;
    var schema, rest, whole := AbsoluteWritten(buf);
    if !whole {
      NoAuthority(buf, schema, rest, raw, last);
      assert false;
    }
    u := RestOfUrl(buf, false, schema, rest, raw, last, foundAt, hp);
  }

  lemma {:induction false} NoAuthority(buf: seq<Byte>, schema: seq<Byte>, rest: seq<Byte>, raw: Parts, last: Option<Part>)
    requires ScanInv(buf, UrlStart, |buf|, raw, last) && buf == schema + rest && schema != [] && All(schema, Letter)
    requires rest == [] || rest == [58] || rest == [58, 47]
    ensures PSchema in raw && PHost !in raw
  {
    hide ParseUrlChar, ScanInv, Letter, Final, Reads, ReadsAll, TextOf, Slices;
    SchemaRead(schema);
    ColonRead(rest);
    var a, b := Piece(Some(PSchema), schema), Piece(None, rest);
    TwoPieces(ParseUrlChar, PartOf, UrlStart, a, b);
    RawIs(buf, UrlStart, raw, last, [a, b]);
    OneSliceIs(0, a);
    OneSliceIs(|schema|, b);
    SlicesBoth(0, [a], [b]);
    TextOne(a);
    assert [a] + [b] == [a, b];
  }

  lemma ColonRead(rest: seq<Byte>)
    requires rest == [] || rest == [58] || rest == [58, 47]
    ensures Reads(ParseUrlChar, PartOf, Schema, rest, None)
  {
    if rest != [] {
      assert rest[1..] == [] || (rest[1..] == [47] && rest[1..][1..] == []);
    }
  }

  /** The authority behind a schema or none, from what the second pass accepts. */
  lemma {:induction false} FoundAuthority(buf: seq<Byte>, connect: bool, lo: nat, server: seq<Byte>, raw: Parts, last: Option<Part>, foundAt: bool, hp: Parts)
    returns (a: AuthorityText)
    requires Passes(buf, connect, raw, last, foundAt, hp) && Accepts(buf, connect, raw, foundAt)
    requires PHost in raw && raw[PHost] == Range(lo, |server|) && lo + |server| <= |buf| && buf[lo..lo + |server|] == server
    ensures IsAuthority(a) && TextOf(AuthorityPieces(a)) == server
  {
    hide ParseHostChar, Final, ScanInv, StateAt, HostAt, HostInv, AuthorityPieces, IsAuthority, TextOf;
    HostAfterText(buf, HostFrom(foundAt), lo, lo + |server|);
    a := AuthorityWritten(server, HostFrom(foundAt));
  }

  lemma {:induction false} RestOfUrl(buf: seq<Byte>, connect: bool, schema: seq<Byte>, rest: seq<Byte>, raw: Parts, last: Option<Part>, foundAt: bool,
                                     hp: Parts) returns (u: Text)
    requires Passes(buf, connect, raw, last, foundAt, hp) && Accepts(buf, connect, raw, foundAt)
    requires All(schema, Letter) && (schema == [] <==> connect) && buf == (if schema == [] then [] else schema + [58, 47, 47]) + rest
    requires !Final(ParseUrlChar, ServerStart, rest).UrlDead?
    ensures !connect || PHost in raw ==> IsUrl(connect, u) && buf == UrlBytes(u)
  {
    hide ParseUrlChar, ParseHostChar, Final, ScanInv, StateAt, HostAt, HostInv, Letter, IsServer, IsTail, MayFollow, TailPieces, Front, AuthorityPieces,
         IsAuthority, All, TextOf, RoughPieces, UrlPieces, UrlBytes;
    var server, tail := RestWritten(rest);
    var t := TailWritten(tail, false);
    RoughText(schema, server, t);
    assert buf == TextOf(Front(schema)) + server + tail;
    RoughFound(buf, connect, schema, server, t, raw, last);
    u := AuthorityForm(AuthorityText(None, RegName([]), None), t);
    if PHost in raw {
      var a := FoundAuthority(buf, connect, |TextOf(Front(schema))|, server, raw, last, foundAt, hp);
      u := if connect then AuthorityForm(a, t) else AbsoluteForm(schema, a, t);
      UrlTextIs(u);
    }
  }

  lemma RoughText(schema: seq<Byte>, server: seq<Byte>, t: TailText)
    ensures TextOf(Front(schema)) == if schema == [] then [] else schema + [58, 47, 47]
    ensures TextOf(RoughPieces(schema, server, t)) == TextOf(Front(schema)) + server + TextOf(TailPieces(t))
  {
    var h := [Piece(Some(PHost), server)];
    TextBoth(Front(schema), h);
    TextOne(h[0]);
    TextBoth(Front(schema) + h, TailPieces(t));
    if schema != [] {
      TextTwo(Piece(Some(PSchema), schema), Piece(None, [58, 47, 47]));
    }
  }

  lemma UrlTextIs(u: Text)
    requires !u.OriginForm?
    ensures UrlBytes(u) == TextOf(Front(SchemaOf(u))) + ServerOf(u) + TextOf(TailPieces(u.tail))
  {
    var f, a, t := Front(SchemaOf(u)), AuthorityPieces(u.authority), TailPieces(u.tail);
    TextBoth(f, a);
    TextBoth(f + a, t);
  }

  lemma {:induction false} UrlSorted(u: Text)
    ensures Sorted(UrlPieces(u), 0, 7)
  {
    hide TailPieces, Front, AuthorityPieces, Sorted;
    TailSorted(u.tail);
    if u.OriginForm? {
      SortedMore(TailPieces(u.tail));
    } else {
      FrontSorted(SchemaOf(u));
      AuthoritySorted(u.authority);
      SortedBoth(Front(SchemaOf(u)), AuthorityPieces(u.authority), 0, 1, 4);
      SortedBoth(Front(SchemaOf(u)) + AuthorityPieces(u.authority), TailPieces(u.tail), 0, 4, 7);
    }
  }

  lemma SortedMore(ps: seq<Piece>)
    requires Sorted(ps, 4, 7)
    ensures Sorted(ps, 0, 7)
  {
  }

  /** What stands in front of the port. */
  function BeforePort(u: Text): seq<Piece>
    requires !u.OriginForm?
  {
    Front(SchemaOf(u)) + (UserPieces(u.authority.user) + HostPieces(u.authority.host))
  }

  lemma PortPlace(u: Text)
    requires !u.OriginForm?
    ensures UrlPieces(u) == BeforePort(u) + PortPieces(u.authority.port) + TailPieces(u.tail)
  {
    var f, v, p := Front(SchemaOf(u)), UserPieces(u.authority.user) + HostPieces(u.authority.host), PortPieces(u.authority.port);
    assert f + (v + p) == (f + v) + p;
  }

  /** The slice of the port holds its digits. */
  lemma {:induction false} PortSlice(connect: bool, u: Text)
    requires IsUrl(connect, u)
    ensures
      var s, b := UrlSlices(u), UrlBytes(u);
      if u.OriginForm? || u.authority.port.None? then PPort !in s
      else PPort in s && s[PPort].off + s[PPort].len <= |b| && b[s[PPort].off..s[PPort].off + s[PPort].len] == u.authority.port.value
  {
    hide TextOf, Slices, TailPieces, Front, UserPieces, HostPieces, PortPieces, IsHost, IsTail, IsOrigin, All, Sorted, Apart;
    TailSorted(u.tail);
    if u.OriginForm? {
      SlicesBetween(0, TailPieces(u.tail), 4, 7);
    } else {
      var v, t := BeforePort(u), TailPieces(u.tail);
      PortPlace(u);
      if u.authority.port.Some? {
        UrlSorted(u);
        SortedApart(UrlPieces(u), 0, 7);
        PieceBehind(v, u.authority.port.value, t);
        SliceText(0, UrlPieces(u), |v| + 1);
      } else {
        HostSorted(u.authority);
        FrontSorted(SchemaOf(u));
        SortedBoth(Front(SchemaOf(u)), UserPieces(u.authority.user) + HostPieces(u.authority.host), 0, 1, 3);
        NoPort(v, t);
        NoPortPieces(v, t);
      }
    }
  }

  lemma NoPortPieces(v: seq<Piece>, t: seq<Piece>)
    ensures v + PortPieces(None) + t == v + t
  {
  }

  lemma PieceBehind(v: seq<Piece>, p: seq<Byte>, t: seq<Piece>)
    ensures var ps := v + PortPieces(Some(p)) + t; |v| + 1 < |ps| && ps[|v| + 1] == Piece(Some(PPort), p)
  {
  }

  lemma HostSorted(a: AuthorityText)
    ensures Sorted(UserPieces(a.user) + HostPieces(a.host), 1, 3)
  {
    SortedBoth(UserPieces(a.user), HostPieces(a.host), 1, 2, 3);
  }

  lemma NoPort(v: seq<Piece>, t: seq<Piece>)
    requires Sorted(v, 0, 3) && Sorted(t, 4, 7)
    ensures PPort !in Slices(0, v + t)
  {
    forall f | f in Slices(0, v + t) ensures Order(f) != 3 {
      var i := SlicesIn(0, v + t, f);
      assert (v + t)[i] == if i < |v| then v[i] else t[i - |v|];
    }
  }
}
