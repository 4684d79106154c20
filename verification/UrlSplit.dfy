/** The whole of `http_parser_parse_url`: the parts tile the URL. */
module UrlSplit {
  import opened Ascii
  import opened Options
  import opened HttpTypes
  import opened HttpTrans
  import opened Url
  import opened UrlHost
  import opened UrlGrammar
  import opened UrlAuthority
  import opened UrlText
  import opened HttpCalls
  import opened HttpSplit
  import opened HttpFraming
  import opened HttpLength

  /** Why a URL is refused. */
  datatype Why = Empty | BadChar | SchemaWithoutHost | BadAuthority | NotHostAndPort | PortTooLarge

  datatype Answered = Parsed(parts: Parts, port: nat) | Refused(why: Why)

  /** : / ? # @ [ ] */
  predicate IsDelimiter(c: Byte) {
    c == COLON || c == SLASH || c == QUESTION || c == HASH || c == AT || c == LBRACKET || c == RBRACKET
  }

  /** The slices are nonempty, in bounds and in URL order without overlap, and every byte outside
      them is a delimiter. */
  ghost predicate Tiled(buf: seq<Byte>, parts: Parts) {
    (forall f :: f in parts ==> parts[f].len > 0 && parts[f].off + parts[f].len <= |buf|) &&
    (forall f, g :: f in parts && g in parts && Order(f) < Order(g) ==> parts[f].off + parts[f].len <= parts[g].off) &&
    (forall p :: 0 <= p < |buf| ==> Covered(parts, p) || IsDelimiter(buf[p]))
  }

  ghost predicate Covered(parts: Parts, p: nat) { exists f :: f in parts && parts[f].Has(p) }

  lemma DelimiterStates(s: UrlState, ch: Byte)
    ensures
      var t := ParseUrlChar(s, ch);
      !t.UrlDead? && PartOf(t).None? ==> IsDelimiter(ch)
  {
  }

  lemma HostDelimiterStates(s: HostState, ch: Byte)
    ensures
      var t := ParseHostChar(s, ch);
      !t.HostDead? && HostPartOf(t).None? ==> IsDelimiter(ch)
  {
  }

  /** The state at a byte of a part. */
  lemma PartAt(buf: seq<Byte>, from: UrlState, parts: Parts, last: Option<Part>, f: Part, p: nat)
    requires ScanInv(buf, from, |buf|, parts, last) && f in parts && parts[f].Has(p)
    ensures p < |buf| && PartOf(StateAfter(buf, from, p)) == Some(f)
  {
    hide StateAt, Rank, PartRank, PartOf;
  }

  lemma HostPartAt(buf: seq<Byte>, from: HostState, lo: nat, hi: nat, parts: Parts, f: Part, p: nat)
    requires HostInv(buf, from, lo, hi, parts) && f in parts && parts[f].Has(p)
    ensures lo <= p < hi && HostPartOf(HostAfter(buf, from, lo, p)) == Some(f)
  {
    hide HostAt, HostRank, HostPartOf, HostPartRank;
  }

  lemma PartHas(buf: seq<Byte>, from: UrlState, parts: Parts, last: Option<Part>, f: Part, p: nat)
    requires ScanInv(buf, from, |buf|, parts, last) && p < |buf| && PartOf(StateAfter(buf, from, p)) == Some(f)
    ensures f in parts && parts[f].Has(p)
  {
    hide StateAt, Rank, PartRank, PartOf;
  }

  lemma HostPartHas(buf: seq<Byte>, from: HostState, lo: nat, hi: nat, parts: Parts, f: Part, p: nat)
    requires HostInv(buf, from, lo, hi, parts) && lo <= p < hi && HostPartOf(HostAfter(buf, from, lo, p)) == Some(f)
    ensures f in parts && parts[f].Has(p)
  {
    hide HostAt, HostRank, HostPartOf, HostPartRank;
  }

  lemma DelimiterAt(buf: seq<Byte>, from: UrlState, p: nat)
    requires p < |buf| && !StateAfter(buf, from, p).UrlDead? && PartOf(StateAfter(buf, from, p)).None?
    ensures IsDelimiter(buf[p])
  {
    hide ParseUrlChar;
    DelimiterStates(StateAt(buf, from, p), buf[p]);
  }

  lemma HostDelimiterAt(buf: seq<Byte>, from: HostState, lo: nat, p: nat)
    requires lo <= p < |buf| && !HostAfter(buf, from, lo, p).HostDead? && HostPartOf(HostAfter(buf, from, lo, p)).None?
    ensures IsDelimiter(buf[p])
  {
    hide ParseHostChar;
    HostDelimiterStates(HostAt(buf, from, lo, p), buf[p]);
  }

  /** Slices of two parts of different rank do not overlap and lie in order of rank. */
  lemma {:induction false} InOrder(buf: seq<Byte>, from: UrlState, parts: Parts, last: Option<Part>, f: Part, g: Part)
    requires ScanInv(buf, from, |buf|, parts, last) && f in parts && g in parts && PartRank(f) < PartRank(g)
    ensures parts[f].off + parts[f].len <= parts[g].off
  {
    hide StateAt, Rank, PartRank, PartOf;
    var p := parts[f].off + parts[f].len - 1;
    var q := parts[g].off;
    PartAt(buf, from, parts, last, f, p);
    PartAt(buf, from, parts, last, g, q);
    AfterRank(buf, from, p);
    AfterRank(buf, from, q);
    if q <= p {
      StatesGrow(buf, from, q + 1, p + 1);
    }
  }

  lemma {:induction false} HostInOrder(buf: seq<Byte>, from: HostState, lo: nat, hi: nat, parts: Parts, f: Part, g: Part)
    requires HostInv(buf, from, lo, hi, parts) && f in parts && g in parts && HostPartRank(f) < HostPartRank(g)
    ensures parts[f].off + parts[f].len <= parts[g].off
  {
    hide HostAt, HostRank, HostPartRank, HostPartOf;
    var p := parts[f].off + parts[f].len - 1;
    var q := parts[g].off;
    HostPartAt(buf, from, lo, hi, parts, f, p);
    HostPartAt(buf, from, lo, hi, parts, g, q);
    HostAfterRank(buf, from, lo, p);
    HostAfterRank(buf, from, lo, q);
    if q <= p {
      HostStatesGrow(buf, from, lo, q + 1, p + 1);
    }
  }

  lemma {:induction false} LiveBefore(buf: seq<Byte>, from: UrlState, p: nat)
    requires p < |buf| && !StateAt(buf, from, |buf|).UrlDead?
    ensures !StateAfter(buf, from, p).UrlDead?
  {
    StatesGrow(buf, from, p + 1, |buf|);
    LastRank(StateAt(buf, from, |buf|));
  }

  /** A URL without authority. */
  lemma {:induction false} TiledWithoutHost(buf: seq<Byte>, from: UrlState, raw: Parts, last: Option<Part>)
    requires ScanInv(buf, from, |buf|, raw, last) && PHost !in raw && !StateAt(buf, from, |buf|).UrlDead?
    ensures Tiled(buf, raw)
  {
    hide StateAt, PartOf, Rank, IsDelimiter;
    forall f, g | f in raw && g in raw && Order(f) < Order(g)
      ensures raw[f].off + raw[f].len <= raw[g].off
    {
      InOrder(buf, from, raw, last, f, g);
    }
    forall p | 0 <= p < |buf|
      ensures Covered(raw, p) || IsDelimiter(buf[p])
    {
      LiveBefore(buf, from, p);
      var uf := PartOf(StateAfter(buf, from, p));
      if uf.Some? {
        PartHas(buf, from, raw, last, uf.value, p);
      } else {
        DelimiterAt(buf, from, p);
      }
    }
  }

  /** The first pass found an authority and the second pass accepted it. */
  ghost predicate TwoPasses(buf: seq<Byte>, from: UrlState, raw: Parts, last: Option<Part>, hfrom: HostState, hp: Parts) {
    ScanInv(buf, from, |buf|, raw, last) && PHost in raw && !StateAt(buf, from, |buf|).UrlDead?
    && raw[PHost].off + raw[PHost].len <= |buf|
    && HostInv(buf, hfrom, raw[PHost].off, raw[PHost].off + raw[PHost].len, hp)
    && !HostAt(buf, hfrom, raw[PHost].off, raw[PHost].off + raw[PHost].len).HostDead?
  }

  /** The slice of the authority is replaced by those of user info, host and port. */
  function Whole(raw: Parts, hp: Parts): Parts { (raw - {PHost}) + hp }

  lemma {:induction false} WholeInOrder(buf: seq<Byte>, from: UrlState, raw: Parts, last: Option<Part>, hfrom: HostState,
                                        hp: Parts, f: Part, g: Part)
    requires TwoPasses(buf, from, raw, last, hfrom, hp)
    requires f in Whole(raw, hp) && g in Whole(raw, hp) && Order(f) < Order(g)
    ensures Whole(raw, hp)[f].off + Whole(raw, hp)[f].len <= Whole(raw, hp)[g].off
  {
    hide StateAt, HostAt;
    var lo, hi := raw[PHost].off, raw[PHost].off + raw[PHost].len;
    if f in hp && g in hp {
      HostInOrder(buf, hfrom, lo, hi, hp, f, g);
    } else if f in hp {
      InOrder(buf, from, raw, last, PHost, g);
    } else if g in hp {
      InOrder(buf, from, raw, last, f, PHost);
    } else {
      InOrder(buf, from, raw, last, f, g);
    }
  }

  lemma {:induction false} HostLiveBefore(buf: seq<Byte>, from: HostState, lo: nat, hi: nat, p: nat)
    requires lo <= p < hi <= |buf| && !HostAt(buf, from, lo, hi).HostDead?
    ensures !HostAfter(buf, from, lo, p).HostDead?
  {
    HostStatesGrow(buf, from, lo, p + 1, hi);
  }

  /** Inside the authority. */
  lemma {:induction false} HostCovers(buf: seq<Byte>, from: UrlState, raw: Parts, last: Option<Part>, hfrom: HostState,
                                      hp: Parts, p: nat)
    requires TwoPasses(buf, from, raw, last, hfrom, hp) && raw[PHost].Has(p)
    ensures p < |buf| && (Covered(Whole(raw, hp), p) || IsDelimiter(buf[p]))
  {
    hide StateAt, HostAt, HostPartOf, IsDelimiter, ScanInv, HostInv;
    var lo, hi := raw[PHost].off, raw[PHost].off + raw[PHost].len;
    HostLiveBefore(buf, hfrom, lo, hi, p);
    var hf := HostPartOf(HostAfter(buf, hfrom, lo, p));
    if hf.Some? {
      HostPartHas(buf, hfrom, lo, hi, hp, hf.value, p);
      assert Whole(raw, hp)[hf.value].Has(p);
    } else {
      HostDelimiterAt(buf, hfrom, lo, p);
    }
  }

  lemma OnlyHostParts(buf: seq<Byte>, from: HostState, lo: nat, hi: nat, parts: Parts)
    requires HostInv(buf, from, lo, hi, parts)
    ensures forall f :: f in parts ==> f == PUserInfo || f == PHost || f == PPort
  {
    hide HostAt, HostRank, HostPartOf, HostPartRank;
  }

  /** Outside the authority. */
  lemma {:induction false} WholeCovers(buf: seq<Byte>, from: UrlState, raw: Parts, last: Option<Part>, hfrom: HostState,
                                       hp: Parts, p: nat)
    requires TwoPasses(buf, from, raw, last, hfrom, hp) && p < |buf| && !raw[PHost].Has(p)
    ensures Covered(Whole(raw, hp), p) || IsDelimiter(buf[p])
  {
    hide StateAt, HostAt, PartOf, IsDelimiter, ScanInv, HostInv;
    LiveBefore(buf, from, p);
    var uf := PartOf(StateAfter(buf, from, p));
    if uf.Some? {
      PartHas(buf, from, raw, last, uf.value, p);
      OnlyRawParts(buf, from, raw, last);
      OnlyHostParts(buf, hfrom, raw[PHost].off, raw[PHost].off + raw[PHost].len, hp);
      assert Whole(raw, hp)[uf.value].Has(p);
    } else {
      DelimiterAt(buf, from, p);
    }
  }

  lemma {:induction false} WholeBounds(buf: seq<Byte>, from: UrlState, raw: Parts, last: Option<Part>, hfrom: HostState, hp: Parts)
    requires TwoPasses(buf, from, raw, last, hfrom, hp)
    ensures var w := Whole(raw, hp); forall f :: f in w ==> w[f].len > 0 && w[f].off + w[f].len <= |buf|
  {
    hide StateAt, HostAt, PartOf, HostPartOf, Rank, HostRank, PartRank, HostPartRank;
  }

  lemma {:induction false} TiledWithHost(buf: seq<Byte>, from: UrlState, raw: Parts, last: Option<Part>, hfrom: HostState, hp: Parts)
    requires TwoPasses(buf, from, raw, last, hfrom, hp)
    ensures Tiled(buf, Whole(raw, hp))
  {
    hide TwoPasses, Whole, IsDelimiter, Covered;
    WholeBounds(buf, from, raw, last, hfrom, hp);
    forall f, g | f in Whole(raw, hp) && g in Whole(raw, hp) && Order(f) < Order(g)
      ensures Whole(raw, hp)[f].off + Whole(raw, hp)[f].len <= Whole(raw, hp)[g].off
    {
      WholeInOrder(buf, from, raw, last, hfrom, hp, f, g);
    }
    forall p | 0 <= p < |buf|
      ensures Covered(Whole(raw, hp), p) || IsDelimiter(buf[p])
    {
      EitherCovers(buf, from, raw, last, hfrom, hp, p);
    }
  }

  lemma {:induction false} EitherCovers(buf: seq<Byte>, from: UrlState, raw: Parts, last: Option<Part>, hfrom: HostState,
                                        hp: Parts, p: nat)
    requires TwoPasses(buf, from, raw, last, hfrom, hp) && p < |buf|
    ensures Covered(Whole(raw, hp), p) || IsDelimiter(buf[p])
  {
    hide StateAt, HostAt, IsDelimiter, ScanInv, HostInv, Covered;
    if raw[PHost].Has(p) {
      HostCovers(buf, from, raw, last, hfrom, hp, p);
    } else {
      WholeCovers(buf, from, raw, last, hfrom, hp, p);
    }
  }

  // ---------- what stands next to the parts ----------

  lemma Entered(s: UrlState, ch: Byte)
    ensures ParseUrlChar(s, ch).Query? ==> s.QueryStart? || s.Query?
    ensures ParseUrlChar(s, ch).QueryStart? ==> ch == QUESTION
    ensures ParseUrlChar(s, ch).Fragment? ==> s.FragmentStart? || s.Fragment?
    ensures ParseUrlChar(s, ch).FragmentStart? ==> ch == HASH
    ensures ParseUrlChar(s, ch).Path? ==> s.Path? || ch == SLASH || ch == STAR
    ensures ParseUrlChar(s, ch).Schema? ==> s.UrlStart? || s.Schema?
    ensures !ParseUrlChar(s, ch).UrlStart?
    ensures s.Schema? && PartOf(ParseUrlChar(s, ch)) != Some(PSchema) && !ParseUrlChar(s, ch).UrlDead? ==> ch == COLON
  {
  }

  lemma HostEntered(s: HostState, ch: Byte)
    ensures ParseHostChar(s, ch).Port? ==> (s.PortStart? || s.Port?) && IsNum(ch)
    ensures ParseHostChar(s, ch).PortStart? ==> ch == COLON
    ensures s.UserInfo? && !ParseHostChar(s, ch).UserInfo? && !ParseHostChar(s, ch).HostDead? ==> ch == AT
  {
  }

  /** A query follows a `?`, a fragment a `#`; a path starts with `/` or `*`; a schema starts the URL
      and a `:` follows it. */
  ghost predicate Marked(buf: seq<Byte>, parts: Parts) {
    (PQuery in parts ==> 1 <= parts[PQuery].off <= |buf| && buf[parts[PQuery].off - 1] == QUESTION)
    && (PFragment in parts ==> 1 <= parts[PFragment].off <= |buf| && buf[parts[PFragment].off - 1] == HASH)
    && (PPath in parts ==> parts[PPath].off < |buf| && buf[parts[PPath].off] in {SLASH, STAR})
    && (PSchema in parts ==> parts[PSchema].off == 0 && (parts[PSchema].len < |buf| ==> buf[parts[PSchema].len] == COLON))
  }

  /** The authority has a host; a port follows a `:` and is all digits; an `@` follows the user info. */
  ghost predicate HostMarked(buf: seq<Byte>, parts: Parts) {
    PHost in parts && (forall f :: f in parts ==> f == PUserInfo || f == PHost || f == PPort)
    && (PPort in parts ==> PortAt(buf, parts[PPort]))
    && (PUserInfo in parts ==>
       var e := parts[PUserInfo].off + parts[PUserInfo].len;
       e < |buf| && buf[e] == AT)
  }

  ghost predicate PortAt(buf: seq<Byte>, r: Range) {
    1 <= r.off && r.off + r.len <= |buf| && buf[r.off - 1] == COLON && IsDecString(buf[r.off..r.off + r.len])
  }

  lemma {:induction false} FirstOf(buf: seq<Byte>, from: UrlState, parts: Parts, last: Option<Part>, f: Part)
    requires ScanInv(buf, from, |buf|, parts, last) && f in parts
    ensures parts[f].off < |buf| && PartOf(StateAfter(buf, from, parts[f].off)) == Some(f)
    ensures parts[f].off > 0 ==> PartOf(StateAfter(buf, from, parts[f].off - 1)) != Some(f)
  {
    hide StateAt;
    assert parts[f].Has(parts[f].off) && !parts[f].Has(parts[f].off - 1);
  }

  lemma {:induction false} PartsMarked(buf: seq<Byte>, isConnect: bool, parts: Parts, last: Option<Part>)
    requires ScanInv(buf, StartOf(isConnect), |buf|, parts, last) && !StateAt(buf, StartOf(isConnect), |buf|).UrlDead?
    ensures Marked(buf, parts)
  {
    var from := StartOf(isConnect);
    if PQuery in parts { QueryMarked(buf, isConnect, parts, last, PQuery); }
    if PFragment in parts { QueryMarked(buf, isConnect, parts, last, PFragment); }
    if PPath in parts { QueryMarked(buf, isConnect, parts, last, PPath); }
    if PSchema in parts { SchemaMarked(buf, isConnect, parts, last); }
    hide ScanInv;
  }

  lemma {:induction false} QueryMarked(buf: seq<Byte>, isConnect: bool, parts: Parts, last: Option<Part>, f: Part)
    requires ScanInv(buf, StartOf(isConnect), |buf|, parts, last) && f in parts
    ensures parts[f].off < |buf|
    ensures f == PQuery ==> parts[f].off >= 1 && buf[parts[f].off - 1] == QUESTION
    ensures f == PFragment ==> parts[f].off >= 1 && buf[parts[f].off - 1] == HASH
    ensures f == PPath ==> buf[parts[f].off] in {SLASH, STAR}
  {
    var from := StartOf(isConnect);
    FirstOf(buf, from, parts, last, f);
    var q := parts[f].off;
    hide ParseUrlChar, ScanInv;
    Entered(StateAt(buf, from, q), buf[q]);
    if q > 0 {
      Entered(StateAt(buf, from, q - 1), buf[q - 1]);
    }
  }

  /** A schema can only be at the start. */
  lemma SchemaBefore(buf: seq<Byte>, isConnect: bool, q: nat)
    requires 0 < q < |buf| && PartOf(StateAfter(buf, StartOf(isConnect), q)) == Some(PSchema)
    ensures PartOf(StateAfter(buf, StartOf(isConnect), q - 1)) == Some(PSchema)
  {
    hide ParseUrlChar;
    var from := StartOf(isConnect);
    Entered(StateAt(buf, from, q), buf[q]);
    Entered(StateAt(buf, from, q - 1), buf[q - 1]);
  }

  /** What leaves a schema is a colon. */
  lemma SchemaLeft(buf: seq<Byte>, from: UrlState, e: nat)
    requires 0 < e < |buf| && PartOf(StateAfter(buf, from, e - 1)) == Some(PSchema)
    requires PartOf(StateAfter(buf, from, e)) != Some(PSchema) && !StateAfter(buf, from, e).UrlDead?
    ensures buf[e] == COLON
  {
    hide ParseUrlChar;
    Entered(StateAt(buf, from, e), buf[e]);
  }

  lemma {:induction false} SchemaMarked(buf: seq<Byte>, isConnect: bool, parts: Parts, last: Option<Part>)
    requires ScanInv(buf, StartOf(isConnect), |buf|, parts, last) && !StateAt(buf, StartOf(isConnect), |buf|).UrlDead?
    requires PSchema in parts
    ensures parts[PSchema].off == 0
    ensures parts[PSchema].len < |buf| ==> buf[parts[PSchema].len] == COLON
  {
    hide StateAt, PartOf, Rank, PartRank;
    var from := StartOf(isConnect);
    FirstOf(buf, from, parts, last, PSchema);
    if parts[PSchema].off > 0 {
      SchemaBefore(buf, isConnect, parts[PSchema].off);
      assert false;
    }
    var e := parts[PSchema].len;
    if e < |buf| {
      assert parts[PSchema].Has(e - 1) && !parts[PSchema].Has(e);
      LiveBefore(buf, from, e);
      SchemaLeft(buf, from, e);
    }
  }

  lemma {:induction false} PortMarked(buf: seq<Byte>, from: HostState, lo: nat, hi: nat, parts: Parts)
    requires HostInv(buf, from, lo, hi, parts) && (from == UserInfoStart || from == HostStart) && PPort in parts
    ensures
      var r := parts[PPort];
      1 <= r.off && r.off + r.len <= hi && buf[r.off - 1] == COLON && IsDecString(buf[r.off..r.off + r.len])
  {
    hide ParseHostChar;
    var r := parts[PPort];
    assert r.Has(r.off);
    HostEntered(HostAt(buf, from, lo, r.off), buf[r.off]);
    assert HostPartOf(HostAfter(buf, from, lo, r.off)) == Some(PPort);
    if r.off > lo {
      assert !r.Has(r.off - 1);
      assert HostPartOf(HostAfter(buf, from, lo, r.off - 1)) != Some(PPort);
      HostEntered(HostAt(buf, from, lo, r.off - 1), buf[r.off - 1]);
    }
    var digits := buf[r.off..r.off + r.len];
    forall i | 0 <= i < |digits|
      ensures IsNum(digits[i])
    {
      assert r.Has(r.off + i);
      assert HostPartOf(HostAfter(buf, from, lo, r.off + i)) == Some(PPort);
      HostEntered(HostAt(buf, from, lo, r.off + i), buf[r.off + i]);
    }
  }

  lemma {:induction false} UserInfoMarked(buf: seq<Byte>, from: HostState, lo: nat, hi: nat, parts: Parts)
    requires HostInv(buf, from, lo, hi, parts) && MayEndHost(HostAt(buf, from, lo, hi)) && PUserInfo in parts
    ensures
      var e := parts[PUserInfo].off + parts[PUserInfo].len;
      e < hi && buf[e] == AT
  {
    hide ParseHostChar;
    var e := parts[PUserInfo].off + parts[PUserInfo].len;
    assert parts[PUserInfo].Has(e - 1) && !parts[PUserInfo].Has(e);
    assert HostPartOf(HostAfter(buf, from, lo, e - 1)) == Some(PUserInfo);
    if e < hi {
      assert HostPartOf(HostAfter(buf, from, lo, e)) != Some(PUserInfo);
      HostStatesGrow(buf, from, lo, e + 1, hi);
      HostEntered(HostAt(buf, from, lo, e), buf[e]);
    }
  }

  lemma {:induction false} AuthorityMarked(buf: seq<Byte>, from: HostState, lo: nat, hi: nat, parts: Parts)
    requires HostInv(buf, from, lo, hi, parts) && MayEndHost(HostAt(buf, from, lo, hi))
    requires from == UserInfoStart || from == HostStart
    ensures HostMarked(buf, parts)
  {
    HostPresent(buf, from, lo, hi, parts);
    if PPort in parts { PortMarked(buf, from, lo, hi, parts); }
    if PUserInfo in parts { UserInfoMarked(buf, from, lo, hi, parts); }
    hide HostAt;
  }

  // ---------- the whole function ----------

  /** The loop that converts the port. */
  method PortNumber(digits: seq<Byte>) returns (ok: bool, v: nat)
    requires IsDecString(digits)
    ensures ok <==> DecValue(digits) <= 0xFFFF
    ensures ok ==> v == DecValue(digits)
  {
    v := 0;
    for i := 0 to |digits|
      invariant v == DecValue(digits[..i]) <= 0xFFFF
    {
      assert digits[..i + 1][..i] == digits[..i];
      v := v * 10 + DecDigit(digits[i]);
      if v > 0xFFFF {
        DecValueGrows(digits, i + 1);
        return false, v;
      }
    }
    assert digits[..|digits|] == digits;
    ok := true;
  }

  lemma {:induction false} DecValueGrows(s: seq<Byte>, i: nat)
    requires i <= |s| && forall k :: 0 <= k < |s| ==> IsNum(s[k])
    ensures DecValue(s[..i]) <= DecValue(s)
    decreases |s|
  {
    if i == |s| {
      assert s[..i] == s;
    } else {
      assert s[..|s| - 1][..i] == s[..i];
      DecValueGrows(s[..|s| - 1], i);
    }
  }

  function HostParts(parts: Parts): Parts { map f | f in parts && f in {PUserInfo, PHost, PPort} :: parts[f] }

  function PortDigits(buf: seq<Byte>, r: Range): seq<Byte>
    requires r.off + r.len <= |buf|
  {
    buf[r.off..r.off + r.len]
  }

  ghost predicate GoodParts(buf: seq<Byte>, parts: Parts) {
    Tiled(buf, parts) && Marked(buf, parts) && (PHost in parts ==> HostMarked(buf, HostParts(parts)))
    && (PSchema in parts || PUserInfo in parts || PPort in parts ==> PHost in parts)
  }

  /** What acceptance means. */
  ghost predicate GoodSplit(buf: seq<Byte>, isConnect: bool, parts: Parts, port: nat) {
    GoodParts(buf, parts) && (isConnect ==> parts.Keys == {PHost, PPort}) && port <= 0xFFFF
    && port == (if PPort in parts && PortAt(buf, parts[PPort]) then DecValue(PortDigits(buf, parts[PPort])) else 0)
  }

  lemma PortStands(buf: seq<Byte>, parts: Parts)
    requires GoodParts(buf, parts) && PPort in parts
    ensures PortAt(buf, parts[PPort])
  {
    hide Tiled, Marked;
    assert HostParts(parts)[PPort] == parts[PPort];
  }

  /** The last steps: a CONNECT target must be host and port, and the port must fit 16 bits. */
  method Finish(buf: seq<Byte>, isConnect: bool, parts: Parts) returns (r: Answered)
    requires GoodParts(buf, parts)
    ensures r.Parsed? ==> r.parts == parts && GoodSplit(buf, isConnect, parts, r.port)
    ensures r.Refused? ==> r.why == NotHostAndPort || r.why == PortTooLarge
    ensures r == Refused(NotHostAndPort) <==> isConnect && parts.Keys != {PHost, PPort}
    ensures r == Refused(PortTooLarge) ==>
      PPort in parts && PortAt(buf, parts[PPort]) && DecValue(PortDigits(buf, parts[PPort])) > 0xFFFF
  {
    hide GoodParts, PortAt, DecValue;
    if isConnect && parts.Keys != {PHost, PPort} { return Refused(NotHostAndPort); }
    var port := 0;
    if PPort in parts {
      PortStands(buf, parts);
      PortInside(buf, parts[PPort]);
      var ok, v := PortNumber(PortDigits(buf, parts[PPort]));
      if !ok { return Refused(PortTooLarge); }
      port := v;
    }
    return Parsed(parts, port);
  }

  lemma PortInside(buf: seq<Byte>, r: Range)
    requires PortAt(buf, r)
    ensures r.off + r.len <= |buf| && IsDecString(PortDigits(buf, r))
  {
  }

  /** The second pass: `http_parse_host` and the slices after it. */
  method Authority(buf: seq<Byte>, isConnect: bool, raw: Parts, foundAt: bool, ghost last: Option<Part>)
    returns (ok: bool, parts: Parts, ghost hp: Parts)
    requires |buf| <= 0xFFFF && PHost in raw && !StateAt(buf, StartOf(isConnect), |buf|).UrlDead?
    requires ScanInv(buf, StartOf(isConnect), |buf|, raw, last)
    ensures raw[PHost].off + raw[PHost].len <= |buf|
    ensures ok <==> MayEndHost(HostAt(buf, HostFrom(foundAt), raw[PHost].off, raw[PHost].off + raw[PHost].len))
    ensures ok ==> parts == Whole(raw, hp) && GoodParts(buf, parts) && HostMarked(buf, hp)
    ensures ok ==> HostInv(buf, HostFrom(foundAt), raw[PHost].off, raw[PHost].off + raw[PHost].len, hp)
  {
    hide StateAt, HostAt, Tiled, Marked, GoodParts, HostMarked, Rank, HostRank, PartOf, HostPartOf;
    var from := StartOf(isConnect);
    var lo, hi := raw[PHost].off, raw[PHost].off + raw[PHost].len;
    var hparts: Parts;
    ok, hparts := ParseHost(buf, lo, hi, foundAt);
    hp := hparts;
    parts := Whole(raw, hparts);
    if ok {
      TiledWithHost(buf, from, raw, last, HostFrom(foundAt), hparts);
      PartsMarked(buf, isConnect, raw, last);
      AuthorityMarked(buf, HostFrom(foundAt), lo, hi, hparts);
      OnlyHostParts(buf, HostFrom(foundAt), lo, hi, hparts);
      StillMarked(buf, raw, hparts);
      OnlyRawParts(buf, from, raw, last);
      GoodWithHost(buf, raw, hparts);
    }
  }

  lemma OnlyRawParts(buf: seq<Byte>, from: UrlState, raw: Parts, last: Option<Part>)
    requires ScanInv(buf, from, |buf|, raw, last)
    ensures PUserInfo !in raw && PPort !in raw
  {
  }

  predicate IsOriginForm(buf: seq<Byte>) { buf != [] && (buf[0] == SLASH || buf[0] == STAR) }

  lemma {:induction false} OriginHasNoHost(buf: seq<Byte>, isConnect: bool, raw: Parts, last: Option<Part>)
    requires ScanInv(buf, StartOf(isConnect), |buf|, raw, last)
    ensures IsOriginForm(buf) && !isConnect ==> PSchema !in raw && PHost !in raw
  {
    if IsOriginForm(buf) && !isConnect {
      assert StateAt(buf, UrlStart, 1) == ParseUrlChar(StateAt(buf, UrlStart, 0), buf[0]) == Path;
      forall f | f in raw
        ensures f != PSchema && f != PHost
      {
        FirstOf(buf, UrlStart, raw, last, f);
        StatesGrow(buf, UrlStart, 1, raw[f].off + 1);
        RankGrows(StateAt(buf, UrlStart, raw[f].off), buf[raw[f].off]);
      }
    }
  }

  /** The body of `http_parser_parse_url`. The ghost results are the slices of the two passes. */
  method ParseUrlPasses(buf: seq<Byte>, isConnect: bool)
    returns (r: Answered, ghost raw: Parts, ghost last: Option<Part>, ghost foundAt: bool, ghost hp: Parts)
    requires |buf| <= 0xFFFF
    ensures r == Refused(Empty) <==> buf == []
    ensures r == Refused(BadChar) <==> buf != [] && StateAt(buf, StartOf(isConnect), |buf|).UrlDead?
    ensures r.Parsed? ==> GoodSplit(buf, isConnect, r.parts, r.port)
    ensures IsOriginForm(buf) && !isConnect && !StateAt(buf, UrlStart, |buf|).UrlDead? ==> r.Parsed?
    ensures r.Parsed? ==> r.parts == WithAuthority(raw, hp)
    ensures r.Parsed? || (r.why != Empty && r.why != BadChar) ==> ScanInv(buf, StartOf(isConnect), |buf|, raw, last)
    ensures r == Refused(SchemaWithoutHost) ==> PSchema in raw && PHost !in raw
    ensures r == Refused(BadAuthority) ==>
              PHost in raw && raw[PHost].off + raw[PHost].len <= |buf|
              && !MayEndHost(HostAt(buf, HostFrom(foundAt), raw[PHost].off, raw[PHost].off + raw[PHost].len))
    ensures r == Refused(NotHostAndPort) ==> isConnect && WithAuthority(raw, hp).Keys != {PHost, PPort}
    ensures r == Refused(PortTooLarge) ==> (isConnect ==> WithAuthority(raw, hp).Keys == {PHost, PPort})
    ensures r == Refused(PortTooLarge) ==>
              PPort in WithAuthority(raw, hp) && PortAt(buf, WithAuthority(raw, hp)[PPort]) && DecValue(PortDigits(buf, WithAuthority(raw, hp)[PPort])) > 0xFFFF
    ensures buf != [] && !StateAt(buf, StartOf(isConnect), |buf|).UrlDead? ==> Passes(buf, isConnect, raw, last, foundAt, hp)
    ensures buf != [] && Accepts(buf, isConnect, raw, foundAt) <==> r.Parsed? || r.why == NotHostAndPort || r.why == PortTooLarge
  {
    hide ParseUrlChar, StateAt, HostAt, ScanInv, StoredParts, MayEndHost, GoodParts, GoodSplit, PortAt, DecValue;
    raw, last, foundAt, hp := map[], None, false, map[];
    if buf == [] { return Refused(Empty), raw, last, foundAt, hp; }
    var ok, parts, at;
    ok, parts, at, raw, last := Scan(buf, isConnect);
    ghost var l := last;
    foundAt := at;
    if ok { ShortStored(buf, StartOf(isConnect), raw, last); }
    if !ok { return Refused(BadChar), raw, last, foundAt, hp; }
    OriginHasNoHost(buf, isConnect, parts, l);
    if PSchema in parts && PHost !in parts { return Refused(SchemaWithoutHost), raw, last, foundAt, hp; }
    OnlyRawParts(buf, StartOf(isConnect), parts, l);
    if PHost in parts {
      ok, parts, hp := Authority(buf, isConnect, parts, at, l);
      if !ok { return Refused(BadAuthority), raw, last, foundAt, hp; }
    } else {
      GoodWithoutHost(buf, isConnect, parts, l);
    }
    r := Finish(buf, isConnect, parts);
  }

  /** The number of the port, or 0. */
  function PortOf(u: Text): nat
    requires !u.OriginForm? ==> IsPort(u.authority.port)
  {
    if !u.OriginForm? && u.authority.port.Some? then DecValue(u.authority.port.value) else 0
  }

  /** What is answered for a URL of the grammar. */
  predicate UrlAnswer(isConnect: bool, u: Text, r: Answered)
    requires IsUrl(isConnect, u)
  {
    if isConnect && UrlSlices(u).Keys != {PHost, PPort} then r == Refused(NotHostAndPort)
    else if PortOf(u) > 65535 then r == Refused(PortTooLarge)
    else r == Parsed(UrlSlices(u), PortOf(u))
  }

  lemma {:induction false} AnswerMeans(buf: seq<Byte>, isConnect: bool, u: Text, r: Answered, raw: Parts, hp: Parts)
    requires IsUrl(isConnect, u) && buf == UrlBytes(u) && WithAuthority(raw, hp) == UrlSlices(u)
    requires r.Parsed? || r.why == NotHostAndPort || r.why == PortTooLarge
    requires r.Parsed? ==> r.parts == WithAuthority(raw, hp) && GoodSplit(buf, isConnect, r.parts, r.port)
    requires r == Refused(NotHostAndPort) ==> isConnect && WithAuthority(raw, hp).Keys != {PHost, PPort}
    requires r == Refused(PortTooLarge) ==> (isConnect ==> WithAuthority(raw, hp).Keys == {PHost, PPort})
    requires r == Refused(PortTooLarge) ==>
      PPort in WithAuthority(raw, hp) && PortAt(buf, WithAuthority(raw, hp)[PPort])
      && DecValue(PortDigits(buf, WithAuthority(raw, hp)[PPort])) > 0xFFFF
    ensures UrlAnswer(isConnect, u, r)
  {
    hide GoodParts, UrlSlices, UrlBytes, IsUrl, DecValue, WithAuthority;
    PortSlice(isConnect, u);
    if r.Parsed? && PPort in r.parts {
      PortStands(buf, r.parts);
    }
  }

  /** `http_parser_parse_url`: the URLs of the grammar, and no others, are split into their parts; CONNECT wants a host and
      a port and nothing else, and the number of a port must fit. */
  method ParseUrl(buf: seq<Byte>, isConnect: bool) returns (r: Answered)
    requires |buf| <= 0xFFFF
    ensures forall u: Text :: IsUrl(isConnect, u) && UrlBytes(u) == buf ==> UrlAnswer(isConnect, u, r)
    ensures r.Parsed? || r == Refused(PortTooLarge) ==> exists u: Text :: IsUrl(isConnect, u) && UrlBytes(u) == buf
    ensures r == Refused(Empty) <==> buf == []
    ensures r == Refused(BadChar) <==> buf != [] && StateAt(buf, StartOf(isConnect), |buf|).UrlDead?
    ensures r.Parsed? ==> GoodSplit(buf, isConnect, r.parts, r.port)
    ensures buf != [] && OneOf(buf[0], "/*") && !isConnect ==> (r.Parsed? <==> All(buf, Printable))
  {
    hide IsUrl, UrlBytes, UrlAnswer, StateAt, Passes, Accepts, GoodSplit, PortAt, WithAuthority, UrlSlices, ScanInv, MayEndHost, HostAt, ParseUrlChar, Printable;
    ghost var raw, last, foundAt, hp;
    r, raw, last, foundAt, hp := ParseUrlPasses(buf, isConnect);
    forall u: Text | IsUrl(isConnect, u) && UrlBytes(u) == buf ensures UrlAnswer(isConnect, u, r) {
      UrlLives(buf, isConnect, u);
      UrlAccepted(buf, isConnect, u, raw, last, foundAt, hp);
      AnswerMeans(buf, isConnect, u, r, raw, hp);
    }
    if r.Parsed? || r == Refused(PortTooLarge) {
      ConnectHasHost(buf, isConnect, r, raw, hp);
      ghost var u := UrlWritten(buf, isConnect, raw, last, foundAt, hp);
    }
    if buf != [] && OneOf(buf[0], "/*") && !isConnect {
      OriginLives(buf);
    }
  }

  lemma ConnectHasHost(buf: seq<Byte>, isConnect: bool, r: Answered, raw: Parts, hp: Parts)
    requires r.Parsed? ==> r.parts == WithAuthority(raw, hp) && GoodSplit(buf, isConnect, r.parts, r.port)
    requires r == Refused(PortTooLarge) ==> (isConnect ==> WithAuthority(raw, hp).Keys == {PHost, PPort})
    ensures r.Parsed? || r == Refused(PortTooLarge) ==> !isConnect || PHost in raw
  {
    hide GoodParts;
    if PHost !in raw {
      assert PHost in WithAuthority(raw, hp) ==> PHost in raw;
    }
  }

  lemma {:induction false} UrlLives(buf: seq<Byte>, isConnect: bool, u: Text)
    requires IsUrl(isConnect, u) && UrlBytes(u) == buf
    ensures buf != [] && !StateAt(buf, StartOf(isConnect), |buf|).UrlDead?
  {
    hide IsUrl, UrlBytes, RawPieces, ReadsAll, Final, StateAt;
    UrlRead(isConnect, u);
    UrlAfter(buf, StartOf(isConnect), |buf|);
    assert buf[..|buf|] == buf;
  }

  /** A text in origin form is refused exactly for a byte that is not printable. */
  lemma {:induction false} OriginLives(buf: seq<Byte>)
    requires buf != [] && OneOf(buf[0], "/*")
    ensures StateAt(buf, UrlStart, |buf|).UrlDead? <==> !All(buf, Printable)
  {
    hide ParseUrlChar, Final, StateAt, Printable;
    UrlAfter(buf, UrlStart, |buf|);
    assert buf[..|buf|] == buf;
    SchemaSteps(buf[0]);
    AfterCons(ParseUrlChar, UrlStart, buf);
    LiveTail(Path, buf[1..]);
    AllCons(buf, Printable);
  }

  lemma GoodWithoutHost(buf: seq<Byte>, isConnect: bool, raw: Parts, last: Option<Part>)
    requires ScanInv(buf, StartOf(isConnect), |buf|, raw, last) && !StateAt(buf, StartOf(isConnect), |buf|).UrlDead?
    requires PHost !in raw && PSchema !in raw
    ensures GoodParts(buf, raw)
  {
    hide StateAt, ScanInv, Tiled, Marked;
    TiledWithoutHost(buf, StartOf(isConnect), raw, last);
    PartsMarked(buf, isConnect, raw, last);
    OnlyRawParts(buf, StartOf(isConnect), raw, last);
  }

  lemma GoodWithHost(buf: seq<Byte>, raw: Parts, hp: Parts)
    requires PUserInfo !in raw && PPort !in raw && Tiled(buf, Whole(raw, hp)) && Marked(buf, Whole(raw, hp)) && HostMarked(buf, hp)
    ensures GoodParts(buf, Whole(raw, hp))
  {
    hide Tiled, Marked, PortAt;
    assert HostParts(Whole(raw, hp)) == hp;
  }

  lemma StillMarked(buf: seq<Byte>, raw: Parts, hp: Parts)
    requires Marked(buf, raw) && forall f :: f in hp ==> f == PUserInfo || f == PHost || f == PPort
    ensures Marked(buf, Whole(raw, hp))
  {
  }

  /** An accepted authority has a nonempty host. */
  lemma {:induction false} HostPresent(buf: seq<Byte>, from: HostState, lo: nat, hi: nat, parts: Parts)
    requires HostInv(buf, from, lo, hi, parts) && MayEndHost(HostAt(buf, from, lo, hi))
    requires from == UserInfoStart || from == HostStart
    ensures PHost in parts && forall f :: f in parts ==> f in {PUserInfo, PHost, PPort}
  {
    var q := LastHostByte(buf, from, lo, hi);
    assert HostPartOf(HostAfter(buf, from, lo, q)) == Some(PHost);
    assert PHost in parts && parts[PHost].Has(q);
  }

  lemma {:induction false} LastHostByte(buf: seq<Byte>, from: HostState, lo: nat, p: nat) returns (q: nat)
    requires lo <= p <= |buf| && (from == UserInfoStart || from == HostStart)
    requires var s := HostAt(buf, from, lo, p); HostRank(s) >= 4 && !s.HostDead?
    ensures lo <= q < p && HostPartOf(HostAfter(buf, from, lo, q)) == Some(PHost)
    decreases p
  {
    var s := HostAt(buf, from, lo, p);
    assert p > lo;
    if HostPartOf(s) == Some(PHost) {
      q := p - 1;
    } else {
      LeftHost(HostAt(buf, from, lo, p - 1), buf[p - 1]);
      q := LastHostByte(buf, from, lo, p - 1);
    }
  }

  lemma LeftHost(s: HostState, ch: Byte)
    ensures var t := ParseHostChar(s, ch); HostRank(t) >= 5 && !t.HostDead? ==> HostRank(s) >= 4 && !s.HostDead?
  {
  }

  // ---------- the request targets that http_parser_execute accepts ----------

  predicate IsTarget(buf: seq<Byte>) {
    buf != [] && forall i :: 0 <= i < |buf| ==> buf[i] != SP && !IsEol(buf[i])
  }

  lemma {:induction false} TargetTurn(cfg: Config, p: Parser, ch: Byte)
    requires ch != SP && !IsEol(ch) && p.nread + 1 <= cfg.maxHeader
    ensures p.state == InLine(ReqSpacesBeforeUrl) ==>
              Turn(cfg, p, ch) == UrlChar(p.(nread := p.nread + 1), StartOf(p.verb.CONNECT?), ch, One(Mark(OnUrl)))
    ensures p.state.InUrl? ==> Turn(cfg, p, ch) == UrlChar(p.(nread := p.nread + 1), p.state.url, ch, Nil)
  {
    hide ParseUrlChar;
  }

  lemma {:induction false} UrlByte(cfg: Config, m: Machine, ch: Byte, p: Parser, first: bool)
    requires if first then StateOpen(m.p.state).Closed? else m.p.state.InUrl?
    requires p.state.InUrl? && Turn(cfg, m.p, ch) == Next(p, if first then One(Mark(OnUrl)) else Nil)
    ensures Run(cfg, m, [ch]) == Ready(Machine(p, Append(m.trace, OnUrl, [ch])))
  {
    hide Turn;
    SingleByte(cfg, m, ch);
    var out := Out(map[OnUrl := 0], m.trace);
    assert out.marks - {OnUrl} == map[] && Slice([ch], 0, 1) == [ch];
    assert out.Close([ch]) == Append(m.trace, OnUrl, [ch]);
  }

  /** The target is delivered to on_url whole, and is accepted as far as `parse_url_char` accepts it:
      so every origin-form target that `http_parser_execute` accepts is one that ParseUrl splits. */
  lemma {:induction false} TargetRead(cfg: Config, m: Machine, buf: seq<Byte>)
    requires m.p.state == InLine(ReqSpacesBeforeUrl) && IsTarget(buf) && m.p.nread + |buf| <= cfg.maxHeader
    ensures
      var s := StateAt(buf, StartOf(m.p.verb.CONNECT?), |buf|);
      Run(cfg, m, buf) ==
        if s.UrlDead? then Broken(InvalidUrl)
        else Ready(Machine(m.p.(state := InUrl(s), nread := m.p.nread + |buf|), Append(m.trace, OnUrl, buf)))
    decreases |buf|
  {
    hide Turn, Run, ParseUrlChar;
    var from := StartOf(m.p.verb.CONNECT?);
    var k := |buf| - 1;
    var t := StateAt(buf, from, |buf|);
    if k == 0 {
      assert buf == [buf[0]];
      assert t == ParseUrlChar(StateAt(buf, from, 0), buf[0]) == ParseUrlChar(from, buf[0]);
      TargetTurn(cfg, m.p, buf[0]);
      if t.UrlDead? {
        FailingByte(cfg, m, buf[0], InvalidUrl);
      } else {
        UrlByte(cfg, m, buf[0], m.p.(state := InUrl(t), nread := m.p.nread + 1), true);
      }
    } else {
      TargetRead(cfg, m, buf[..k]);
      PrefixStates(buf, from, k);
      RunConcat(cfg, m, buf[..k], [buf[k]]);
      assert buf == buf[..k] + [buf[k]];
      var s := StateAt(buf, from, k);
      if s.UrlDead? {
        StatesGrow(buf, from, k, |buf|);
        LastRank(t);
      } else {
        var m1 := Machine(m.p.(state := InUrl(s), nread := m.p.nread + k), Append(m.trace, OnUrl, buf[..k]));
        TargetTurn(cfg, m1.p, buf[k]);
        if t.UrlDead? {
          FailingByte(cfg, m1, buf[k], InvalidUrl);
        } else {
          AppendTwice(m.trace, OnUrl, buf[..k], [buf[k]]);
          UrlByte(cfg, m1, buf[k], m1.p.(state := InUrl(t), nread := m.p.nread + |buf|), false);
        }
      }
    }
  }

  /** The targets of the grammar are those that are read to their end and may end there. */
  lemma {:induction false} TargetsAre(connect: bool, t: seq<Byte>)
    ensures IsTargetText(connect, t) <==>
      IsTarget(t) && !StateAt(t, StartOf(connect), |t|).UrlDead? && !UrlCannotEnd(StateAt(t, StartOf(connect), |t|))
  {
    hide ParseUrlChar, StateAt, Final, IsTargetText, UrlCannotEnd;
    TargetGrammar(connect, t);
    UrlAfter(t, StartOf(connect), |t|);
    assert t[..|t|] == t;
    if !StateAt(t, StartOf(connect), |t|).UrlDead? {
      forall i | 0 <= i < |t| ensures t[i] != SP && !IsEol(t[i]) {
        LiveBefore(t, StartOf(connect), i);
        NoBlank(StateAt(t, StartOf(connect), i), t[i]);
        LiveStep(t, StartOf(connect), i);
      }
    }
  }

  lemma NoBlank(s: UrlState, c: Byte)
    ensures c == SP || IsEol(c) ==> ParseUrlChar(s, c).UrlDead?
  {
  }

  lemma LiveStep(t: seq<Byte>, from: UrlState, i: nat)
    requires i < |t|
    ensures StateAfter(t, from, i) == ParseUrlChar(StateAt(t, from, i), t[i])
  {
  }

  /** Every other target is refused, at the latest at the space behind it. */
  lemma {:induction false} TargetRefused(cfg: Config, m: Machine, t: seq<Byte>)
    requires m.p.state == InLine(ReqSpacesBeforeUrl) && IsTarget(t) && !IsTargetText(m.p.verb.CONNECT?, t)
    requires m.p.nread + |t| + 1 <= cfg.maxHeader
    ensures Run(cfg, m, t + [SP]) == Broken(InvalidUrl)
  {
    hide ParseUrlChar, StateAt, Run, IsTargetText, Turn, IsTarget;
    var s := StateAt(t, StartOf(m.p.verb.CONNECT?), |t|);
    TargetRead(cfg, m, t);
    TargetsAre(m.p.verb.CONNECT?, t);
    RunConcat(cfg, m, t, [SP]);
    if !s.UrlDead? {
      var m1 := Machine(m.p.(state := InUrl(s), nread := m.p.nread + |t|), Append(m.trace, OnUrl, t));
      CannotEndTurn(cfg, m1.p);
      FailingByte(cfg, m1, SP, InvalidUrl);
    }
  }

  lemma CannotEndTurn(cfg: Config, p: Parser)
    requires p.state.InUrl? && UrlCannotEnd(p.state.url) && p.nread + 1 <= cfg.maxHeader
    ensures Turn(cfg, p, SP) == Fail(InvalidUrl)
  {
  }

  lemma {:induction false} PrefixStates(buf: seq<Byte>, from: UrlState, i: nat)
    requires i <= |buf|
    ensures StateAt(buf[..i], from, i) == StateAt(buf, from, i)
  {
    PrefixState(buf, from, i, i);
  }

  lemma {:induction false} PrefixState(buf: seq<Byte>, from: UrlState, i: nat, j: nat)
    requires j <= i <= |buf|
    ensures StateAt(buf[..i], from, j) == StateAt(buf, from, j)
    decreases j
  {
    if j > 0 {
      PrefixState(buf, from, i, j - 1);
    }
  }
}
