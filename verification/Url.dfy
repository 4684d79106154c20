/** `http_parser_parse_url` and `http_parse_host`: splitting a URL (section 3 of RFC 3986). */
module Url {
  import opened Ascii
  import opened Options
  import opened HttpTypes
  import opened HttpTrans

  datatype Part = PSchema | PUserInfo | PHost | PPort | PPath | PQuery | PFragment

  /** A slice of the buffer: `field_data[..]`. */
  datatype Range = Range(off: nat, len: nat) {
    predicate Has(p: int) { off <= p < off + len }
  }

  type Parts = map<Part, Range>

  // ---------- the first pass: the states of parse_url_char ----------

  function StateAt(buf: seq<Byte>, from: UrlState, i: nat): UrlState
    requires i <= |buf|
  {
    if i == 0 then from else ParseUrlChar(StateAt(buf, from, i - 1), buf[i - 1])
  }

  /** The state the byte at `p` leads to. */
  function StateAfter(buf: seq<Byte>, from: UrlState, p: nat): UrlState
    requires p < |buf|
  {
    StateAt(buf, from, p + 1)
  }

  function StartOf(isConnect: bool): UrlState { if isConnect then ServerStart else UrlStart }

  /** The part a byte belongs to, from the state it leads to. */
  function PartOf(s: UrlState): Option<Part> {
    match s
    case Schema => Some(PSchema)
    case Server => Some(PHost)
    case ServerWithAt => Some(PHost)
    case Path => Some(PPath)
    case Query => Some(PQuery)
    case Fragment => Some(PFragment)
    case _ => None
  }

  function Rank(s: UrlState): nat {
    match s
    case UrlStart => 0 case Schema => 1 case SchemaSlash => 2 case SchemaSlashSlash => 3 case ServerStart => 4
    case Server => 5 case ServerWithAt => 5 case Path => 6 case QueryStart => 7 case Query => 8
    case FragmentStart => 9 case Fragment => 10 case UrlDead => 11
  }

  function PartRank(f: Part): nat {
    match f
    case PSchema => 1 case PPath => 6 case PQuery => 8 case PFragment => 10 case _ => 5
  }

  lemma RankGrows(s: UrlState, ch: Byte)
    ensures Rank(s) <= Rank(ParseUrlChar(s, ch))
    ensures var t := ParseUrlChar(s, ch); PartOf(t).Some? ==> Rank(t) == PartRank(PartOf(t).value)
    ensures var t := ParseUrlChar(s, ch); PartOf(t).None? ==> Rank(t) !in {1, 5, 6, 8, 10}
  {
  }

  /** How the rank moves at one byte. */
  lemma AfterRank(buf: seq<Byte>, from: UrlState, p: nat)
    requires p < |buf|
    ensures Rank(StateAt(buf, from, p)) <= Rank(StateAfter(buf, from, p))
    ensures var u := PartOf(StateAfter(buf, from, p)); u.Some? ==> Rank(StateAfter(buf, from, p)) == PartRank(u.value)
    ensures PartOf(StateAfter(buf, from, p)).None? ==> forall f :: Rank(StateAfter(buf, from, p)) != PartRank(f)
  {
    hide ParseUrlChar;
    RankGrows(StateAt(buf, from, p), buf[p]);
  }

  lemma {:induction false} StatesGrow(buf: seq<Byte>, from: UrlState, i: nat, j: nat)
    requires i <= j <= |buf|
    ensures Rank(StateAt(buf, from, i)) <= Rank(StateAt(buf, from, j))
    decreases j
  {
    hide StateAt, Rank;
    if i < j {
      StatesGrow(buf, from, i, j - 1);
      AfterRank(buf, from, j - 1);
    }
  }

  /** The slices hold exactly the bytes of their parts among the first `i`. */
  ghost predicate Classified(buf: seq<Byte>, from: UrlState, i: nat, parts: Parts)
    requires i <= |buf|
  {
    forall f: Part, p: nat :: p < i ==>
      ((f in parts && parts[f].Has(p)) <==> PartOf(StateAfter(buf, from, p)) == Some(f))
  }

  /** Slices are nonempty, in bounds, and none lies beyond the last one. */
  ghost predicate Bounded(i: nat, parts: Parts, last: Option<Part>) {
    (last.None? <==> parts == map[]) && (last.Some? ==> last.value in parts) &&
    forall f :: f in parts ==>
      parts[f].len > 0 && parts[f].off + parts[f].len <= i && PartRank(f) <= PartRank(last.value)
      && (f == PSchema || f == PHost || f == PPath || f == PQuery || f == PFragment)
  }

  ghost predicate ScanInv(buf: seq<Byte>, from: UrlState, p: nat, parts: Parts, last: Option<Part>) {
    p <= |buf| && Classified(buf, from, p, parts) && Bounded(p, parts, last) &&
    (last.Some? ==>
       var rank := Rank(StateAt(buf, from, p));
       PartRank(last.value) <= rank &&
       (PartRank(last.value) == rank ==> parts[last.value].off + parts[last.value].len == p))
  }

  lemma {:induction false} SkipByte(buf: seq<Byte>, from: UrlState, p: nat, parts: Parts, last: Option<Part>)
    requires p < |buf| && ScanInv(buf, from, p, parts, last) && PartOf(StateAfter(buf, from, p)).None?
    ensures ScanInv(buf, from, p + 1, parts, last)
  {
    hide StateAt, Rank, PartOf;
    AfterRank(buf, from, p);
  }

  lemma {:induction false} ExtendPart(buf: seq<Byte>, from: UrlState, p: nat, parts: Parts, f: Part)
    requires p < |buf| && ScanInv(buf, from, p, parts, Some(f)) && PartOf(StateAfter(buf, from, p)) == Some(f)
    ensures ScanInv(buf, from, p + 1, parts[f := Range(parts[f].off, parts[f].len + 1)], Some(f))
  {
    hide StateAt, Rank, PartOf;
    AfterRank(buf, from, p);
  }

  lemma {:induction false} StartPart(buf: seq<Byte>, from: UrlState, p: nat, parts: Parts, last: Option<Part>, f: Part)
    requires p < |buf| && ScanInv(buf, from, p, parts, last) && PartOf(StateAfter(buf, from, p)) == Some(f) && last != Some(f)
    ensures ScanInv(buf, from, p + 1, parts[f := Range(p, 1)], Some(f))
  {
    hide StateAt, Rank, PartRank, PartOf;
    AfterRank(buf, from, p);
    RanksApart(f, last);
  }

  lemma RanksApart(f: Part, g: Option<Part>)
    ensures g.Some? && PartRank(f) == PartRank(g.value) && f != g.value ==> f in {PUserInfo, PHost, PPort} && g.value in {PUserInfo, PHost, PPort}
    ensures forall s :: PartOf(s) != Some(PUserInfo) && PartOf(s) != Some(PPort)
  {
  }

  /** What is left of a slice in the 16-bit fields of the source. */
  function Stored(r: Range): Range { Range(r.off % 0x1_0000, r.len % 0x1_0000) }

  function StoredParts(parts: Parts): Parts { map f | f in parts :: Stored(parts[f]) }

  /** The slices survive if and only if each starts, and is long, less than 65536 bytes. */
  lemma StoredExact(parts: Parts)
    ensures StoredParts(parts) == parts <==> forall f :: f in parts ==> parts[f].off < 0x1_0000 && parts[f].len < 0x1_0000
  {
    if StoredParts(parts) == parts {
      forall f | f in parts ensures parts[f].off < 0x1_0000 && parts[f].len < 0x1_0000 {
        assert StoredParts(parts)[f] == Stored(parts[f]);
      }
    }
  }

  /** So do all slices of a URL of at most 65535 bytes. */
  lemma ShortStored(buf: seq<Byte>, from: UrlState, parts: Parts, last: Option<Part>)
    requires ScanInv(buf, from, |buf|, parts, last) && |buf| <= 0xFFFF
    ensures StoredParts(parts) == parts
  {
    hide StateAt, Rank, PartOf, PartRank, StoredParts;
    StoredExact(parts);
  }

  /** The first loop of `http_parser_parse_url`: the slices, as the 16-bit fields keep them. */
  method Scan(buf: seq<Byte>, isConnect: bool) returns (ok: bool, parts: Parts, foundAt: bool, ghost exact: Parts, ghost last: Option<Part>)
    ensures ok <==> !StateAt(buf, StartOf(isConnect), |buf|).UrlDead?
    ensures ok ==> ScanInv(buf, StartOf(isConnect), |buf|, exact, last) && parts == StoredParts(exact)
    ensures ok ==> (foundAt <==> exists p :: 0 <= p < |buf| && StateAfter(buf, StartOf(isConnect), p).ServerWithAt?)
  {
    hide ParseUrlChar, ScanInv, PartOf, StoredParts;
    ghost var from := StartOf(isConnect);
    var s := StartOf(isConnect);
    parts, foundAt, exact := map[], false, map[];
    var prev: Option<Part> := None;
    ScanStart(buf, from);
    for p := 0 to |buf|
      invariant s == StateAt(buf, from, p) && !s.UrlDead?
      invariant ScanInv(buf, from, p, exact, prev) && parts == StoredParts(exact)
      invariant foundAt <==> exists k :: 0 <= k < p && StateAfter(buf, from, k).ServerWithAt?
    {
      s := ParseUrlChar(s, buf[p]);
      assert s == StateAfter(buf, from, p);
      if s.UrlDead? {
        StatesGrow(buf, from, p + 1, |buf|);
        LastRank(StateAt(buf, from, |buf|));
        return false, parts, foundAt, map[], None;
      }
      foundAt := foundAt || s.ServerWithAt?;
      var uf := PartOf(s);
      if uf.None? {
        SkipByte(buf, from, p, exact, prev);
        continue;
      }
      var f := uf.value;
      if prev == uf {
        PartInside(buf, from, p, exact, prev);
        ExtendPart(buf, from, p, exact, f);
        StoredLonger(exact, f);
        parts := parts[f := Range(parts[f].off, (parts[f].len + 1) % 0x1_0000)];
        exact := exact[f := Range(exact[f].off, exact[f].len + 1)];
      } else {
        StartPart(buf, from, p, exact, prev, f);
        StoredNew(exact, f, p);
        parts := parts[f := Range(p % 0x1_0000, 1)];
        exact := exact[f := Range(p, 1)];
        prev := uf;
      }
    }
    return true, parts, foundAt, exact, prev;
  }

  lemma StoredLonger(parts: Parts, f: Part)
    requires f in parts
    ensures f in StoredParts(parts)
    ensures var r := StoredParts(parts)[f];
            StoredParts(parts[f := Range(parts[f].off, parts[f].len + 1)]) == StoredParts(parts)[f := Range(r.off, (r.len + 1) % 0x1_0000)]
  {
    assert (parts[f].len % 0x1_0000 + 1) % 0x1_0000 == (parts[f].len + 1) % 0x1_0000;
  }

  lemma StoredNew(parts: Parts, f: Part, p: nat)
    ensures StoredParts(parts[f := Range(p, 1)]) == StoredParts(parts)[f := Range(p % 0x1_0000, 1)]
  {
  }

  /** A URL whose path is 65536 bytes long: the path is reported as empty. */
  lemma {:induction false} LongPath(buf: seq<Byte>, last: Option<Part>, exact: Parts)
    requires |buf| == 0x1_0000 && forall i :: 0 <= i < |buf| ==> buf[i] == SLASH
    requires ScanInv(buf, UrlStart, |buf|, exact, last)
    ensures exact == map[PPath := Range(0, 0x1_0000)] && StoredParts(exact)[PPath].len == 0
  {
    hide ParseUrlChar, Rank, StateAt;
    AllPath(buf, 1);
    AllPath(buf, |buf|);
    InPart(buf, UrlStart, exact, last, PPath, 0);
    InPart(buf, UrlStart, exact, last, PPath, |buf| - 1);
    forall f | f in exact ensures f == PPath {
      AllPath(buf, exact[f].off + 1);
      InPart(buf, UrlStart, exact, last, f, exact[f].off);
    }
  }

  lemma InPart(buf: seq<Byte>, from: UrlState, parts: Parts, last: Option<Part>, f: Part, p: nat)
    requires ScanInv(buf, from, |buf|, parts, last) && p < |buf|
    ensures (f in parts && parts[f].Has(p)) <==> PartOf(StateAfter(buf, from, p)) == Some(f)
    ensures f in parts ==> parts[f].len > 0 && parts[f].off + parts[f].len <= |buf|
  {
    hide StateAt, Rank, PartOf;
  }

  lemma {:induction false} AllPath(buf: seq<Byte>, i: nat)
    requires 0 < i <= |buf| && forall j :: 0 <= j < |buf| ==> buf[j] == SLASH
    ensures StateAt(buf, UrlStart, i) == Path
    decreases i
  {
    if i > 1 {
      AllPath(buf, i - 1);
    }
  }

  lemma ScanStart(buf: seq<Byte>, from: UrlState)
    ensures ScanInv(buf, from, 0, map[], None) && StoredParts(map[]) == map[]
  {
  }

  lemma PartInside(buf: seq<Byte>, from: UrlState, p: nat, parts: Parts, last: Option<Part>)
    requires ScanInv(buf, from, p, parts, last) && last.Some?
    ensures last.value in parts && parts[last.value].off + parts[last.value].len <= p
  {
  }

  lemma LastRank(s: UrlState)
    ensures Rank(s) >= 11 ==> s.UrlDead?
  {
  }
}
