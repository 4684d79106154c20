/** `http_parse_host`: user info, host and port inside the authority of a URL. */
module UrlHost {
  import opened Ascii
  import opened Options
  import opened HttpTypes
  import opened Url

  datatype HostState =
    | UserInfoStart | UserInfo | HostStart | V6Start | HostName | V6 | V6ZoneStart | V6Zone | V6End
    | PortStart | Port | HostDead

  predicate IsZoneChar(ch: Byte) {
    IsAlphaNum(ch) || ch == PERCENT || ch == DOT || ch == DASH || ch == 95 || ch == 126
  }

  /** `http_parse_host_char`. */
  function ParseHostChar(s: HostState, ch: Byte): HostState {
    match s
    case UserInfo => if ch == AT then HostStart else if IsUserInfoChar(ch) then UserInfo else HostDead
    case UserInfoStart => if ch == AT then HostStart else if IsUserInfoChar(ch) then UserInfo else HostDead
    case HostStart => if ch == LBRACKET then V6Start else if IsHostChar(ch) then HostName else HostDead
    case HostName => if IsHostChar(ch) then HostName else if ch == COLON then PortStart else HostDead
    case V6End => if ch == COLON then PortStart else HostDead
    case V6 =>
      if ch == RBRACKET then V6End
      else if IsHex(ch) || ch == COLON || ch == DOT then V6
      else if ch == PERCENT then V6ZoneStart else HostDead
    case V6Start => if IsHex(ch) || ch == COLON || ch == DOT then V6 else HostDead
    case V6Zone => if ch == RBRACKET then V6End else if IsZoneChar(ch) then V6Zone else HostDead
    case V6ZoneStart => if IsZoneChar(ch) then V6Zone else HostDead
    case Port => if IsNum(ch) then Port else HostDead
    case PortStart => if IsNum(ch) then Port else HostDead
    case HostDead => HostDead
  }

  /** The state after the bytes from `lo` up to `p`. */
  function HostAt(buf: seq<Byte>, from: HostState, lo: nat, p: nat): HostState
    requires lo <= p <= |buf|
    decreases p
  {
    if p == lo then from else ParseHostChar(HostAt(buf, from, lo, p - 1), buf[p - 1])
  }

  function HostAfter(buf: seq<Byte>, from: HostState, lo: nat, p: nat): HostState
    requires lo <= p < |buf|
  {
    HostAt(buf, from, lo, p + 1)
  }

  function HostPartOf(s: HostState): Option<Part> {
    match s
    case UserInfo => Some(PUserInfo)
    case HostName => Some(PHost)
    case V6 => Some(PHost)
    case V6ZoneStart => Some(PHost)
    case V6Zone => Some(PHost)
    case Port => Some(PPort)
    case _ => None
  }

  function HostRank(s: HostState): nat {
    match s
    case UserInfoStart => 0 case UserInfo => 1 case HostStart => 2 case V6Start => 3
    case HostName => 4 case V6 => 4 case V6ZoneStart => 4 case V6Zone => 4
    case V6End => 5 case PortStart => 6 case Port => 7 case HostDead => 8
  }

  function HostPartRank(f: Part): nat {
    match f
    case PUserInfo => 1 case PHost => 4 case _ => 7
  }

  lemma HostRankGrows(s: HostState, ch: Byte)
    ensures
      var t := ParseHostChar(s, ch);
      HostRank(s) <= HostRank(t)
      && (HostPartOf(t).Some? ==> HostRank(t) == HostPartRank(HostPartOf(t).value))
      && (HostPartOf(t).Some? && HostRank(s) == HostRank(t) ==> HostPartOf(s) == HostPartOf(t))
      && (HostPartOf(t).None? ==> HostRank(t) !in {1, 4, 7})
  {
  }

  /** How the rank moves at one byte. */
  lemma HostAfterRank(buf: seq<Byte>, from: HostState, lo: nat, p: nat)
    requires lo <= p < |buf|
    ensures
      var s, t := HostAt(buf, from, lo, p), HostAfter(buf, from, lo, p);
      HostRank(s) <= HostRank(t)
      && (HostPartOf(t).Some? ==> HostRank(t) == HostPartRank(HostPartOf(t).value))
      && (HostPartOf(t).Some? && HostRank(s) == HostRank(t) ==> HostPartOf(s) == HostPartOf(t))
      && (HostPartOf(t).None? ==> forall f :: HostRank(t) != HostPartRank(f))
  {
    hide ParseHostChar;
    HostRankGrows(HostAt(buf, from, lo, p), buf[p]);
  }

  /** The places where the source starts a slice anew instead of lengthening it. */
  predicate StartsSlice(s: HostState, t: HostState) {
    match t
    case HostName => s != HostName
    case V6 => s != V6
    case Port => s != Port
    case UserInfo => s != UserInfo
    case _ => false
  }

  lemma StartsSliceMeans(s: HostState, ch: Byte)
    ensures var t := ParseHostChar(s, ch); HostPartOf(t).Some? ==> (StartsSlice(s, t) <==> HostPartOf(s) != HostPartOf(t))
  {
  }

  ghost predicate HostInv(buf: seq<Byte>, from: HostState, lo: nat, p: nat, parts: Parts) {
    lo <= p <= |buf| &&
    (forall f: Part, q: nat :: lo <= q < p ==>
      ((f in parts && parts[f].Has(q)) <==> HostPartOf(HostAfter(buf, from, lo, q)) == Some(f))) &&
    (forall f :: f in parts ==>
      (f == PUserInfo || f == PHost || f == PPort)
      && parts[f].len > 0 && lo <= parts[f].off && parts[f].off + parts[f].len <= p
      && HostPartRank(f) <= HostRank(HostAt(buf, from, lo, p))
      && (HostPartRank(f) == HostRank(HostAt(buf, from, lo, p)) ==> parts[f].off + parts[f].len == p))
  }

  lemma {:induction false} HostSkip(buf: seq<Byte>, from: HostState, lo: nat, p: nat, parts: Parts)
    requires p < |buf| && HostInv(buf, from, lo, p, parts) && HostPartOf(HostAfter(buf, from, lo, p)).None?
    ensures HostInv(buf, from, lo, p + 1, parts)
  {
    hide HostAt, HostRank, HostPartOf, HostPartRank;
    HostAfterRank(buf, from, lo, p);
  }

  lemma {:induction false} HostExtend(buf: seq<Byte>, from: HostState, lo: nat, p: nat, parts: Parts, f: Part)
    requires p < |buf| && HostInv(buf, from, lo, p, parts) && HostPartOf(HostAfter(buf, from, lo, p)) == Some(f)
    requires HostPartOf(HostAt(buf, from, lo, p)) == Some(f) && HostPartOf(from).None?
    ensures f in parts && HostInv(buf, from, lo, p + 1, parts[f := Range(parts[f].off, parts[f].len + 1)])
  {
    hide HostAt, HostRank, HostPartOf, HostPartRank;
    HostAfterRank(buf, from, lo, p);
    NotAtStart(buf, from, lo, p);
    HostAfterRank(buf, from, lo, p - 1);
    HostPartRanks(f);
  }

  lemma NotAtStart(buf: seq<Byte>, from: HostState, lo: nat, p: nat)
    requires lo <= p <= |buf| && HostPartOf(from).None? && HostPartOf(HostAt(buf, from, lo, p)).Some?
    ensures p > lo && HostAt(buf, from, lo, p) == HostAfter(buf, from, lo, p - 1)
  {
  }

  lemma {:induction false} HostBegin(buf: seq<Byte>, from: HostState, lo: nat, p: nat, parts: Parts, f: Part)
    requires p < |buf| && HostInv(buf, from, lo, p, parts) && HostPartOf(HostAfter(buf, from, lo, p)) == Some(f)
    requires HostPartOf(HostAt(buf, from, lo, p)) != Some(f)
    ensures f !in parts && HostInv(buf, from, lo, p + 1, parts[f := Range(p, 1)])
  {
    hide HostAt, HostRank, HostPartOf, HostPartRank;
    HostAfterRank(buf, from, lo, p);
    HostPartRanks(f);
  }

  lemma HostPartRanks(f: Part)
    ensures forall g :: g in {PUserInfo, PHost, PPort} && f in {PUserInfo, PHost, PPort} && HostPartRank(f) == HostPartRank(g) ==> f == g
    ensures forall s :: HostPartOf(s).Some? ==> HostPartOf(s).value in {PUserInfo, PHost, PPort}
  {
  }

  lemma {:induction false} HostStatesGrow(buf: seq<Byte>, from: HostState, lo: nat, i: nat, j: nat)
    requires lo <= i <= j <= |buf|
    ensures HostRank(HostAt(buf, from, lo, i)) <= HostRank(HostAt(buf, from, lo, j))
    decreases j
  {
    hide HostAt, HostRank;
    if i < j {
      HostStatesGrow(buf, from, lo, i, j - 1);
      HostAfterRank(buf, from, lo, j - 1);
    }
  }

  /** Where an authority may end. */
  predicate MayEndHost(s: HostState) { s.HostName? || s.V6End? || s.Port? }

  /** The loop of `http_parse_host` over the authority `[lo, hi)`. */
  method ParseHost(buf: seq<Byte>, lo: nat, hi: nat, foundAt: bool) returns (ok: bool, parts: Parts)
    requires lo <= hi <= |buf| <= 0xFFFF
    ensures
      var from := if foundAt then UserInfoStart else HostStart;
      (ok <==> MayEndHost(HostAt(buf, from, lo, hi))) && (ok ==> HostInv(buf, from, lo, hi, parts))
  {
    hide ParseHostChar, HostInv, StartsSlice;
    var from := if foundAt then UserInfoStart else HostStart;
    var s := from;
    parts := map[];
    HostStartInv(buf, from, lo);
    for p := lo to hi
      invariant s == HostAt(buf, from, lo, p) && !s.HostDead?
      invariant HostInv(buf, from, lo, p, parts)
    {
      var t := ParseHostChar(s, buf[p]);
      assert t == HostAfter(buf, from, lo, p);
      if t.HostDead? {
        HostStatesGrow(buf, from, lo, p + 1, hi);
        return false, parts;
      }
      var uf := HostPartOf(t);
      if uf.None? {
        HostSkip(buf, from, lo, p, parts);
      } else {
        var f := uf.value;
        StartsSliceMeans(s, buf[p]);
        if StartsSlice(s, t) {
          HostBegin(buf, from, lo, p, parts, f);
          parts := parts[f := Range(p % 0x1_0000, 1)];
        } else {
          HostExtend(buf, from, lo, p, parts, f);
          HostInside(buf, from, lo, p, parts, f);
          parts := parts[f := Range(parts[f].off, (parts[f].len + 1) % 0x1_0000)];
        }
      }
      s := t;
    }
    ok := MayEndHost(s);
  }

  lemma HostInside(buf: seq<Byte>, from: HostState, lo: nat, p: nat, parts: Parts, f: Part)
    requires HostInv(buf, from, lo, p, parts) && f in parts
    ensures parts[f].off + parts[f].len <= p
  {
  }

  lemma HostStartInv(buf: seq<Byte>, from: HostState, lo: nat)
    requires lo <= |buf|
    ensures HostInv(buf, from, lo, lo, map[])
  {
  }
}
