/** The grammar of the URLs that are accepted, as text: what the states of `parse_url_char` and
    `http_parse_host_char` amount to. */
module UrlGrammar {
  import opened Ascii
  import opened Options
  import opened HttpTypes
  import opened HttpTrans
  import opened Url
  import opened UrlHost

  // ---------- bytes ----------

  predicate Letter(c: Byte) { 65 <= c <= 90 || 97 <= c <= 122 }

  predicate Digit(c: Byte) { 48 <= c <= 57 }

  predicate UserByte(c: Byte) { Letter(c) || Digit(c) || OneOf(c, "-_.!~*'()%;:&=+$,") }

  predicate HostByte(c: Byte) { Letter(c) || Digit(c) || OneOf(c, ".-") }

  predicate AddressByte(c: Byte) { Digit(c) || 65 <= c <= 70 || 97 <= c <= 102 || OneOf(c, ":.") }

  predicate ZoneByte(c: Byte) { Letter(c) || Digit(c) || OneOf(c, "%.-_~") }

  predicate ServerByte(c: Byte) { UserByte(c) || OneOf(c, "[]@") }

  predicate Printable(c: Byte) { 33 <= c <= 126 }

  predicate QueryByte(c: Byte) { Printable(c) && !OneOf(c, "#") }

  predicate PathByte(c: Byte) { Printable(c) && !OneOf(c, "#?") }

  /** The tables of the parser hold these bytes. */
  lemma Classes(c: Byte)
    ensures (Letter(c) <==> IsAlpha(c)) && (Digit(c) <==> IsNum(c))
    ensures UserByte(c) <==> IsUserInfoChar(c)
    ensures HostByte(c) <==> IsHostChar(c)
    ensures AddressByte(c) <==> IsHex(c) || c == COLON || c == DOT
    ensures ZoneByte(c) <==> IsZoneChar(c)
    ensures PathByte(c) <==> IsUrlChar(c)
    ensures QueryByte(c) <==> IsUrlChar(c) || c == QUESTION
    ensures ServerByte(c) <==> IsUserInfoChar(c) || c == LBRACKET || c == RBRACKET || c == AT
  {
  }

  /** Every byte of `s` is of the class. */
  predicate All(s: seq<Byte>, ok: Byte -> bool) { forall i :: 0 <= i < |s| ==> ok(s[i]) }

  // ---------- pieces of a text ----------

  /** A stretch of a URL, and the part it is, if it is one. */
  datatype Piece = Piece(part: Option<Part>, text: seq<Byte>)

  function TextOf(ps: seq<Piece>): seq<Byte> {
    if ps == [] then [] else ps[0].text + TextOf(ps[1..])
  }

  /** The slices of the parts that are not empty, when the text starts at `at`. */
  function Slices(at: nat, ps: seq<Piece>): Parts
    decreases |ps|
  {
    if ps == [] then map[]
    else
      var rest := Slices(at + |ps[0].text|, ps[1..]);
      if ps[0].part.Some? && ps[0].text != [] then rest[ps[0].part.value := Range(at, |ps[0].text|)] else rest
  }

  /** No part comes twice. */
  predicate Apart(ps: seq<Piece>) {
    forall i, j :: 0 <= i < j < |ps| && ps[i].part.Some? ==> ps[i].part != ps[j].part
  }

  /** The order of the parts in a URL. */
  function Order(f: Part): nat {
    match f
    case PSchema => 0 case PUserInfo => 1 case PHost => 2 case PPort => 3 case PPath => 4 case PQuery => 5 case PFragment => 6
  }

  /** The parts are in order, from `lo` on and before `hi`. */
  predicate Sorted(ps: seq<Piece>, lo: nat, hi: nat) {
    (forall i :: 0 <= i < |ps| && ps[i].part.Some? ==> lo <= Order(ps[i].part.value) < hi)
    && forall i, j :: 0 <= i < j < |ps| && ps[i].part.Some? && ps[j].part.Some? ==> Order(ps[i].part.value) < Order(ps[j].part.value)
  }

  lemma SortedBoth(a: seq<Piece>, b: seq<Piece>, lo: nat, mid: nat, hi: nat)
    requires lo <= mid <= hi && Sorted(a, lo, mid) && Sorted(b, mid, hi)
    ensures Sorted(a + b, lo, hi)
  {
  }

  lemma SortedApart(ps: seq<Piece>, lo: nat, hi: nat)
    requires Sorted(ps, lo, hi)
    ensures Apart(ps)
  {
  }

  lemma {:induction false} SlicesBetween(at: nat, ps: seq<Piece>, lo: nat, hi: nat)
    requires Sorted(ps, lo, hi)
    ensures forall f :: f in Slices(at, ps) ==> lo <= Order(f) < hi
  {
    forall f | f in Slices(at, ps) ensures lo <= Order(f) < hi {
      var i := SlicesIn(at, ps, f);
    }
  }

  lemma {:induction false} SlicesBoth(at: nat, a: seq<Piece>, b: seq<Piece>)
    ensures Slices(at, a + b) == Slices(at + |TextOf(a)|, b) + Slices(at, a)
    decreases |a|
  {
    if a == [] {
      assert a + b == b;
    } else {
      assert (a + b)[1..] == a[1..] + b;
      SlicesBoth(at + |a[0].text|, a[1..], b);
    }
  }

  /** The part of the byte at `p` of the text. */
  function PieceAt(ps: seq<Piece>, p: nat): Option<Part> {
    if ps == [] then None else if p < |ps[0].text| then ps[0].part else PieceAt(ps[1..], p - |ps[0].text|)
  }

  lemma {:induction false} PieceIn(ps: seq<Piece>, p: nat) returns (i: nat)
    requires PieceAt(ps, p).Some?
    ensures i < |ps| && ps[i].part == PieceAt(ps, p)
    decreases |ps|
  {
    if p < |ps[0].text| {
      i := 0;
    } else {
      i := PieceIn(ps[1..], p - |ps[0].text|);
      i := i + 1;
    }
  }

  lemma {:induction false} SlicesIn(at: nat, ps: seq<Piece>, f: Part) returns (i: nat)
    requires f in Slices(at, ps)
    ensures i < |ps| && ps[i].part == Some(f)
    decreases |ps|
  {
    if ps[0].part == Some(f) {
      i := 0;
    } else {
      i := SlicesIn(at + |ps[0].text|, ps[1..], f);
      i := i + 1;
    }
  }

  /** Slices are not empty and lie in the text. */
  predicate Inside(parts: Parts, lo: nat, hi: nat) {
    forall f :: f in parts ==> parts[f].len > 0 && lo <= parts[f].off && parts[f].off + parts[f].len <= hi
  }

  lemma {:induction false} SlicesInside(at: nat, ps: seq<Piece>)
    ensures Inside(Slices(at, ps), at, at + |TextOf(ps)|)
    decreases |ps|
  {
    if ps != [] {
      SlicesInside(at + |ps[0].text|, ps[1..]);
    }
  }

  /** The slices hold the bytes of their pieces. */
  lemma {:induction false} SlicesExact(at: nat, ps: seq<Piece>, f: Part, p: nat)
    requires Apart(ps) && at <= p
    ensures (f in Slices(at, ps) && Slices(at, ps)[f].Has(p)) <==> PieceAt(ps, p - at) == Some(f)
    decreases |ps|
  {
    if ps != [] {
      var rest, k := ps[1..], |ps[0].text|;
      assert forall i, j :: 0 <= i < j < |rest| ==> rest[i] == ps[i + 1] && rest[j] == ps[j + 1];
      SlicesInside(at + k, rest);
      if at + k <= p {
        SlicesExact(at + k, rest, f, p);
        if PieceAt(rest, p - at - k) == Some(f) {
          var i := PieceIn(rest, p - at - k);
          assert ps[i + 1].part == Some(f);
        }
      }
      if f in Slices(at + k, rest) {
        var i := SlicesIn(at + k, rest, f);
        assert ps[i + 1].part == Some(f);
      }
    }
  }

  /** The slice of a part holds the text of its piece. */
  lemma {:induction false} SliceText(at: nat, ps: seq<Piece>, i: nat)
    requires i < |ps| && ps[i].part.Some? && ps[i].text != [] && Apart(ps)
    ensures
      var f := ps[i].part.value;
      f in Slices(at, ps)
      && (var r := Slices(at, ps)[f]; at <= r.off && r.off + r.len <= at + |TextOf(ps)| && TextOf(ps)[r.off - at..r.off - at + r.len] == ps[i].text)
    decreases i
  {
    var f, k := ps[i].part.value, |ps[0].text|;
    if i > 0 {
      var rest := ps[1..];
      assert rest[i - 1] == ps[i];
      ApartRest(ps);
      SliceText(at + k, rest, i - 1);
      var r := Slices(at + k, rest)[f];
      Shifted(ps[0].text, TextOf(rest), r.off - at - k, r.len);
    }
  }

  lemma ApartRest(ps: seq<Piece>)
    requires Apart(ps) && ps != []
    ensures Apart(ps[1..]) && forall i :: 0 < i < |ps| && ps[0].part.Some? ==> ps[i].part != ps[0].part
  {
    assert forall i, j :: 0 <= i < j < |ps| - 1 ==> ps[1..][i] == ps[i + 1] && ps[1..][j] == ps[j + 1];
  }

  lemma Shifted(a: seq<Byte>, b: seq<Byte>, x: nat, k: nat)
    requires x + k <= |b|
    ensures (a + b)[|a| + x..|a| + x + k] == b[x..x + k]
  {
  }

  /** Two lists of slices that hold the same bytes are the same. */
  lemma {:induction false} SameSlices(a: Parts, b: Parts, lo: nat, hi: nat)
    requires Inside(a, lo, hi) && Inside(b, lo, hi)
    requires forall f: Part, p: nat :: lo <= p < hi ==> ((f in a && a[f].Has(p)) <==> (f in b && b[f].Has(p)))
    ensures a == b
  {
    forall f | f in a ensures f in b && a[f] == b[f] { OneSlice(a, b, lo, hi, f); }
    forall f | f in b ensures f in a { OneSlice(b, a, lo, hi, f); }
  }

  lemma {:induction false} OneSlice(a: Parts, b: Parts, lo: nat, hi: nat, f: Part)
    requires f in a && Inside(a, lo, hi) && Inside(b, lo, hi)
    requires forall g: Part, p: nat :: lo <= p < hi ==> ((g in a && a[g].Has(p)) <==> (g in b && b[g].Has(p)))
    ensures f in b && a[f] == b[f]
  {
    assert a[f].Has(a[f].off);
    var x, y := a[f], b[f];
    assert y.Has(x.off) && x.Has(y.off);
    assert x.Has(x.off + x.len - 1) && y.Has(y.off + y.len - 1);
    assert y.Has(x.off + x.len - 1) && x.Has(y.off + y.len - 1);
  }

  // ---------- reading pieces with a machine ----------

  /** The state after a text. */
  function Final<S>(step: (S, Byte) -> S, s: S, t: seq<Byte>): S
    decreases |t|
  {
    if t == [] then s else Final(step, step(s, t[0]), t[1..])
  }

  /** Every byte of `t` leads to a state with the label `part`. */
  predicate Reads<S>(step: (S, Byte) -> S, part: S -> Option<Part>, s: S, t: seq<Byte>, f: Option<Part>)
    decreases |t|
  {
    t == [] || (part(step(s, t[0])) == f && Reads(step, part, step(s, t[0]), t[1..], f))
  }

  predicate ReadsAll<S>(step: (S, Byte) -> S, part: S -> Option<Part>, s: S, ps: seq<Piece>)
    decreases |ps|
  {
    ps == [] || (Reads(step, part, s, ps[0].text, ps[0].part) && ReadsAll(step, part, Final(step, s, ps[0].text), ps[1..]))
  }

  lemma {:induction false} AfterBoth<S>(step: (S, Byte) -> S, s: S, a: seq<Byte>, b: seq<Byte>)
    ensures Final(step, s, a + b) == Final(step, Final(step, s, a), b)
    decreases |a|
  {
    if a == [] {
      assert a + b == b;
    } else {
      assert (a + b)[1..] == a[1..] + b;
      AfterBoth(step, step(s, a[0]), a[1..], b);
    }
  }

  lemma {:induction false} AfterOne<S>(step: (S, Byte) -> S, s: S, a: seq<Byte>, c: Byte)
    ensures Final(step, s, a + [c]) == step(Final(step, s, a), c)
  {
    AfterBoth(step, s, a, [c]);
    assert [c][1..] == [];
  }

  lemma {:induction false} ReadsInside<S>(step: (S, Byte) -> S, part: S -> Option<Part>, s: S, t: seq<Byte>, f: Option<Part>, p: nat)
    requires Reads(step, part, s, t, f) && p < |t|
    ensures part(Final(step, s, t[..p + 1])) == f
    decreases |t|
  {
    if p == 0 {
      assert t[..1][1..] == [];
    } else {
      ReadsInside(step, part, step(s, t[0]), t[1..], f, p - 1);
      assert t[..p + 1][1..] == t[1..][..p];
    }
  }

  /** The label of the state behind a byte is the part of its piece. */
  lemma {:induction false} PiecesRead<S>(step: (S, Byte) -> S, part: S -> Option<Part>, s: S, ps: seq<Piece>, p: nat)
    requires ReadsAll(step, part, s, ps) && p < |TextOf(ps)|
    ensures part(Final(step, s, TextOf(ps)[..p + 1])) == PieceAt(ps, p)
    decreases |ps|
  {
    var t, rest := ps[0].text, TextOf(ps[1..]);
    if p < |t| {
      ReadsInside(step, part, s, t, ps[0].part, p);
      assert TextOf(ps)[..p + 1] == t[..p + 1];
    } else {
      var q := p - |t|;
      PiecesRead(step, part, Final(step, s, t), ps[1..], q);
      assert TextOf(ps)[..p + 1] == t + rest[..q + 1];
      AfterBoth(step, s, t, rest[..q + 1]);
    }
  }

  lemma {:induction false} UrlAfter(buf: seq<Byte>, from: UrlState, i: nat)
    requires i <= |buf|
    ensures StateAt(buf, from, i) == Final(ParseUrlChar, from, buf[..i])
    decreases i
  {
    hide ParseUrlChar;
    if i > 0 {
      UrlAfter(buf, from, i - 1);
      assert buf[..i] == buf[..i - 1] + [buf[i - 1]];
      AfterOne(ParseUrlChar, from, buf[..i - 1], buf[i - 1]);
    }
  }

  lemma {:induction false} HostAfterText(buf: seq<Byte>, from: HostState, lo: nat, p: nat)
    requires lo <= p <= |buf|
    ensures HostAt(buf, from, lo, p) == Final(ParseHostChar, from, buf[lo..p])
    decreases p
  {
    hide ParseHostChar;
    if p > lo {
      HostAfterText(buf, from, lo, p - 1);
      assert buf[lo..p] == buf[lo..p - 1] + [buf[p - 1]];
      AfterOne(ParseHostChar, from, buf[lo..p - 1], buf[p - 1]);
    }
  }

  /** The first pass finds the slices of the pieces it reads. */
  lemma {:induction false} RawIs(buf: seq<Byte>, from: UrlState, parts: Parts, last: Option<Part>, ps: seq<Piece>)
    requires ScanInv(buf, from, |buf|, parts, last) && buf == TextOf(ps) && Apart(ps) && ReadsAll(ParseUrlChar, PartOf, from, ps)
    ensures parts == Slices(0, ps)
  {
    hide ParseUrlChar, PartOf, Apart, StateAt, Rank, PartRank;
    SlicesInside(0, ps);
    ScanInside(buf, from, parts, last);
    forall f: Part, p: nat | 0 <= p < |buf|
      ensures (f in parts && parts[f].Has(p)) <==> (f in Slices(0, ps) && Slices(0, ps)[f].Has(p))
    {
      InPart(buf, from, parts, last, f, p);
      UrlAfter(buf, from, p + 1);
      PiecesRead(ParseUrlChar, PartOf, from, ps, p);
      SlicesExact(0, ps, f, p);
    }
    SameSlices(parts, Slices(0, ps), 0, |buf|);
  }

  lemma ScanInside(buf: seq<Byte>, from: UrlState, parts: Parts, last: Option<Part>)
    requires ScanInv(buf, from, |buf|, parts, last)
    ensures Inside(parts, 0, |buf|)
  {
    hide StateAt, Rank, PartRank, PartOf;
  }

  /** So does the second. */
  lemma {:induction false} HostPartsAre(buf: seq<Byte>, from: HostState, lo: nat, hi: nat, parts: Parts, ps: seq<Piece>)
    requires HostInv(buf, from, lo, hi, parts) && buf[lo..hi] == TextOf(ps) && Apart(ps) && ReadsAll(ParseHostChar, HostPartOf, from, ps)
    ensures parts == Slices(lo, ps)
  {
    hide ParseHostChar, HostPartOf, Apart, HostAt, HostRank, HostPartRank, HostInv;
    SlicesInside(lo, ps);
    HostPartsInside(buf, from, lo, hi, parts);
    forall f: Part, p: nat | lo <= p < hi
      ensures (f in parts && parts[f].Has(p)) <==> (f in Slices(lo, ps) && Slices(lo, ps)[f].Has(p))
    {
      InHostPart(buf, from, lo, hi, parts, f, p);
      HostAfterText(buf, from, lo, p + 1);
      assert buf[lo..p + 1] == buf[lo..hi][..p - lo + 1];
      PiecesRead(ParseHostChar, HostPartOf, from, ps, p - lo);
      SlicesExact(lo, ps, f, p);
    }
    SameSlices(parts, Slices(lo, ps), lo, hi);
  }

  lemma HostPartsInside(buf: seq<Byte>, from: HostState, lo: nat, hi: nat, parts: Parts)
    requires HostInv(buf, from, lo, hi, parts)
    ensures lo <= hi <= |buf| && Inside(parts, lo, hi)
  {
    hide HostAt, HostRank, HostPartRank, HostPartOf;
  }

  lemma InHostPart(buf: seq<Byte>, from: HostState, lo: nat, hi: nat, parts: Parts, f: Part, p: nat)
    requires HostInv(buf, from, lo, hi, parts) && lo <= p < hi
    ensures (f in parts && parts[f].Has(p)) <==> HostPartOf(HostAfter(buf, from, lo, p)) == Some(f)
  {
    hide HostAt, HostRank, HostPartRank, HostPartOf;
  }

  // ---------- path, query and fragment ----------

  /** A fragment, and how many `#` stand in front of it. */
  datatype FragmentText = NoFragment | WithHashes(hashes: nat, text: seq<Byte>)

  datatype TailText = TailText(path: seq<Byte>, query: Option<seq<Byte>>, fragment: FragmentText)

  predicate IsFragment(f: FragmentText) {
    f.WithHashes? ==> f.hashes > 0 && All(f.text, Printable) && (f.text == [] || !OneOf(f.text[0], "#"))
  }

  predicate IsQuery(q: Option<seq<Byte>>) { q.Some? ==> All(q.value, QueryByte) }

  /** A path that starts with one of the characters `starts`, if there is one. */
  predicate IsPath(path: seq<Byte>, starts: string) {
    path == [] || (OneOf(path[0], starts) && All(path[1..], PathByte))
  }

  /** What may stand behind an authority. */
  predicate IsTail(t: TailText) {
    IsPath(t.path, "/") && IsQuery(t.query) && IsFragment(t.fragment)
    && (t.path == [] && t.query.None? ==> t.fragment.NoFragment?)
  }

  /** What may stand without one. */
  predicate IsOrigin(t: TailText) {
    t.path != [] && IsPath(t.path, "/*") && IsQuery(t.query) && IsFragment(t.fragment)
  }

  function Hashes(n: nat): (h: seq<Byte>)
    ensures |h| == n && forall i :: 0 <= i < n ==> h[i] == 35
  {
    if n == 0 then [] else [35] + Hashes(n - 1)
  }

  function FragmentPieces(f: FragmentText): seq<Piece> {
    if f.NoFragment? then [] else [Piece(None, Hashes(f.hashes)), Piece(Some(PFragment), f.text)]
  }

  function QueryPieces(q: Option<seq<Byte>>): seq<Piece> {
    if q.None? then [] else [Piece(None, [63]), Piece(Some(PQuery), q.value)]
  }

  function TailPieces(t: TailText): seq<Piece> {
    [Piece(Some(PPath), t.path)] + QueryPieces(t.query) + FragmentPieces(t.fragment)
  }

  lemma {:induction false} Stays<S>(step: (S, Byte) -> S, part: S -> Option<Part>, s: S, t: seq<Byte>, u: S)
    requires forall i :: 0 <= i < |t| ==> step(s, t[i]) == u && step(u, t[i]) == u
    ensures Reads(step, part, s, t, part(u)) && Final(step, s, t) == if t == [] then s else u
    decreases |t|
  {
    if t != [] {
      assert step(s, t[0]) == u;
      Stays(step, part, u, t[1..], u);
    }
  }

  lemma {:induction false} OnePiece<S>(step: (S, Byte) -> S, part: S -> Option<Part>, s: S, f: Option<Part>, t: seq<Byte>)
    requires Reads(step, part, s, t, f)
    ensures ReadsAll(step, part, s, [Piece(f, t)]) && TextOf([Piece(f, t)]) == t
  {
    assert [Piece(f, t)][1..] == [];
    assert TextOf([]) == [];
  }

  lemma {:induction false} TextBoth(a: seq<Piece>, b: seq<Piece>)
    ensures TextOf(a + b) == TextOf(a) + TextOf(b)
    decreases |a|
  {
    if a == [] {
      assert a + b == b;
    } else {
      TextBoth(a[1..], b);
      assert (a + b)[1..] == a[1..] + b;
    }
  }

  lemma {:induction false} BothRead<S>(step: (S, Byte) -> S, part: S -> Option<Part>, s: S, a: seq<Piece>, b: seq<Piece>)
    requires ReadsAll(step, part, s, a) && ReadsAll(step, part, Final(step, s, TextOf(a)), b)
    ensures ReadsAll(step, part, s, a + b) && TextOf(a + b) == TextOf(a) + TextOf(b)
    ensures Final(step, s, TextOf(a + b)) == Final(step, Final(step, s, TextOf(a)), TextOf(b))
  {
    hide Final, ReadsAll, TextOf;
    TextBoth(a, b);
    AfterBoth(step, s, TextOf(a), TextOf(b));
    BothReadAll(step, part, s, a, b);
  }

  lemma {:induction false} BothReadAll<S>(step: (S, Byte) -> S, part: S -> Option<Part>, s: S, a: seq<Piece>, b: seq<Piece>)
    requires ReadsAll(step, part, s, a) && ReadsAll(step, part, Final(step, s, TextOf(a)), b)
    ensures ReadsAll(step, part, s, a + b)
    decreases |a|
  {
    hide Final, Reads;
    if a == [] {
      assert a + b == b;
      NothingAfter(step, s);
    } else {
      var t, rest := a[0].text, a[1..];
      AfterBoth(step, s, t, TextOf(rest));
      BothReadAll(step, part, Final(step, s, t), rest, b);
      assert (a + b)[1..] == rest + b;
    }
  }

  lemma NothingAfter<S>(step: (S, Byte) -> S, s: S)
    ensures Final(step, s, []) == s
  {
  }

  lemma {:induction false} TwoPieces<S>(step: (S, Byte) -> S, part: S -> Option<Part>, s: S, a: Piece, b: Piece)
    requires Reads(step, part, s, a.text, a.part) && Reads(step, part, Final(step, s, a.text), b.text, b.part)
    ensures ReadsAll(step, part, s, [a, b]) && TextOf([a, b]) == a.text + b.text
    ensures Final(step, s, TextOf([a, b])) == Final(step, Final(step, s, a.text), b.text)
  {
    hide Final, Reads, ReadsAll;
    TextTwo(a, b);
    AfterBoth(step, s, a.text, b.text);
    OnePiece(step, part, s, a.part, a.text);
    OnePiece(step, part, Final(step, s, a.text), b.part, b.text);
    BothReadAll(step, part, s, [a], [b]);
    assert [a] + [b] == [a, b];
  }

  /** The states in which a fragment may follow. */
  predicate InTail(s: UrlState) { s.Path? || s.QueryStart? || s.Query? || s.FragmentStart? || s.Fragment? }

  lemma FragmentStates(c: Byte)
    ensures ParseUrlChar(Path, 35) == FragmentStart && ParseUrlChar(QueryStart, 35) == FragmentStart && ParseUrlChar(Query, 35) == FragmentStart
    ensures ParseUrlChar(FragmentStart, 35) == FragmentStart
    ensures Printable(c) ==> ParseUrlChar(Fragment, c) == Fragment
    ensures Printable(c) && !OneOf(c, "#") ==> ParseUrlChar(FragmentStart, c) == Fragment
    ensures QueryByte(c) ==> ParseUrlChar(QueryStart, c) == Query && ParseUrlChar(Query, c) == Query
    ensures PathByte(c) ==> ParseUrlChar(Path, c) == Path
  {
    Classes(c);
  }

  lemma {:induction false} FragmentRead(s: UrlState, f: FragmentText)
    requires IsFragment(f) && (s.Path? || s.QueryStart? || s.Query? || f.NoFragment?)
    ensures ReadsAll(ParseUrlChar, PartOf, s, FragmentPieces(f))
    ensures var e := Final(ParseUrlChar, s, TextOf(FragmentPieces(f))); if f.NoFragment? then e == s else InTail(e)
  {
    hide ParseUrlChar, Printable;
    if f.WithHashes? {
      var h := Hashes(f.hashes);
      FragmentStates(35);
      Stays(ParseUrlChar, PartOf, s, h, FragmentStart);
      OnePiece(ParseUrlChar, PartOf, s, None, h);
      FragmentBody(f.text);
      OnePiece(ParseUrlChar, PartOf, FragmentStart, Some(PFragment), f.text);
      BothRead(ParseUrlChar, PartOf, s, [Piece(None, h)], [Piece(Some(PFragment), f.text)]);
      assert FragmentPieces(f) == [Piece(None, h)] + [Piece(Some(PFragment), f.text)];
    }
  }

  lemma {:induction false} FragmentBody(t: seq<Byte>)
    requires All(t, Printable) && (t == [] || !OneOf(t[0], "#"))
    ensures Reads(ParseUrlChar, PartOf, FragmentStart, t, Some(PFragment))
    ensures Final(ParseUrlChar, FragmentStart, t) == if t == [] then FragmentStart else Fragment
  {
    hide ParseUrlChar, Printable;
    if t != [] {
      FragmentStates(t[0]);
      forall i | 0 <= i < |t[1..]| ensures ParseUrlChar(Fragment, t[1..][i]) == Fragment {
        FragmentStates(t[1..][i]);
      }
      Stays(ParseUrlChar, PartOf, Fragment, t[1..], Fragment);
    }
  }

  lemma {:induction false} QueryRead(s: UrlState, q: Option<seq<Byte>>)
    requires IsQuery(q) && (q.Some? ==> ParseUrlChar(s, 63) == QueryStart)
    ensures ReadsAll(ParseUrlChar, PartOf, s, QueryPieces(q))
    ensures var e := Final(ParseUrlChar, s, TextOf(QueryPieces(q))); if q.None? then e == s else e.QueryStart? || e.Query?
  {
    hide ParseUrlChar, QueryByte;
    if q.Some? {
      Stays(ParseUrlChar, PartOf, s, [], s);
      MarkRead(s);
      forall i | 0 <= i < |q.value| ensures ParseUrlChar(QueryStart, q.value[i]) == Query && ParseUrlChar(Query, q.value[i]) == Query {
        FragmentStates(q.value[i]);
      }
      Stays(ParseUrlChar, PartOf, QueryStart, q.value, Query);
      OnePiece(ParseUrlChar, PartOf, QueryStart, Some(PQuery), q.value);
      BothRead(ParseUrlChar, PartOf, s, [Piece(None, [63])], [Piece(Some(PQuery), q.value)]);
      assert QueryPieces(q) == [Piece(None, [63])] + [Piece(Some(PQuery), q.value)];
    }
  }

  lemma {:induction false} MarkRead(s: UrlState)
    requires ParseUrlChar(s, 63) == QueryStart
    ensures ReadsAll(ParseUrlChar, PartOf, s, [Piece(None, [63])]) && Final(ParseUrlChar, s, TextOf([Piece(None, [63])])) == QueryStart
  {
    var t: seq<Byte> := [63];
    assert t[1..] == [];
    OnePiece(ParseUrlChar, PartOf, s, None, t);
  }

  predicate InServer(s: UrlState) { s.ServerStart? || s.Server? || s.ServerWithAt? }

  lemma {:induction false} PathRead(s: UrlState, path: seq<Byte>)
    requires path == [] || (ParseUrlChar(s, path[0]) == Path && All(path[1..], PathByte))
    ensures Reads(ParseUrlChar, PartOf, s, path, Some(PPath)) && Final(ParseUrlChar, s, path) == if path == [] then s else Path
  {
    hide ParseUrlChar, PathByte;
    if path != [] {
      forall i | 0 <= i < |path[1..]| ensures ParseUrlChar(Path, path[1..][i]) == Path {
        FragmentStates(path[1..][i]);
      }
      Stays(ParseUrlChar, PartOf, Path, path[1..], Path);
    }
  }

  /** Path, query and fragment are read as such, behind an authority or without one. */
  lemma {:induction false} TailRead(s: UrlState, t: TailText)
    requires (InServer(s) && IsTail(t)) || (s.UrlStart? && IsOrigin(t))
    ensures ReadsAll(ParseUrlChar, PartOf, s, TailPieces(t))
    ensures var e := Final(ParseUrlChar, s, TextOf(TailPieces(t))); if TextOf(TailPieces(t)) == [] then e == s else InTail(e)
  {
    hide ParseUrlChar, All, Reads, Final, ReadsAll, TextOf;
    TailStates(s, if t.path == [] then 0 else t.path[0]);
    PathRead(s, t.path);
    var a, b, c := [Piece(Some(PPath), t.path)], QueryPieces(t.query), FragmentPieces(t.fragment);
    OnePiece(ParseUrlChar, PartOf, s, Some(PPath), t.path);
    var s1 := Final(ParseUrlChar, s, t.path);
    TailStates(s1, 0);
    QueryRead(s1, t.query);
    var s2 := Final(ParseUrlChar, s1, TextOf(b));
    FragmentRead(s2, t.fragment);
    BothRead(ParseUrlChar, PartOf, s, a, b);
    BothRead(ParseUrlChar, PartOf, s, a + b, c);
    TailTexts(t);
  }

  lemma TailStates(s: UrlState, c: Byte)
    ensures InServer(s) || s.Path? ==> ParseUrlChar(s, 63) == QueryStart
    ensures InServer(s) && OneOf(c, "/") ==> ParseUrlChar(s, c) == Path
    ensures s.UrlStart? && OneOf(c, "/*") ==> ParseUrlChar(s, c) == Path
  {
  }

  lemma TailTexts(t: TailText)
    requires IsFragment(t.fragment)
    ensures TextOf(QueryPieces(t.query)) == if t.query.None? then [] else [63] + t.query.value
    ensures TextOf(FragmentPieces(t.fragment)) == if t.fragment.NoFragment? then [] else Hashes(t.fragment.hashes) + t.fragment.text
    ensures t.fragment.WithHashes? ==> TextOf(FragmentPieces(t.fragment)) != []
  {
    if t.query.Some? {
      TextTwo(Piece(None, [63]), Piece(Some(PQuery), t.query.value));
    }
    if t.fragment.WithHashes? {
      TextTwo(Piece(None, Hashes(t.fragment.hashes)), Piece(Some(PFragment), t.fragment.text));
    }
  }

  lemma TextTwo(a: Piece, b: Piece)
    ensures TextOf([a]) == a.text && TextOf([a, b]) == a.text + b.text
  {
    assert [a][1..] == [] && [b][1..] == [] && [a, b][1..] == [b];
    assert TextOf([]) == [];
    assert TextOf([b]) == b.text;
  }

  // ---------- what the first pass accepts ----------

  /** Bytes of an authority, as the first pass takes them: no two `@` side by side. */
  predicate IsServer(t: seq<Byte>) {
    All(t, ServerByte) && forall i :: 0 < i < |t| ==> !(OneOf(t[i - 1], "@") && OneOf(t[i], "@"))
  }

  /** An authority and what stands behind it. */
  ghost predicate IsRest(b: seq<Byte>) {
    b != [] && exists server: seq<Byte>, tail: seq<Byte> :: b == server + tail && IsServer(server) && MayFollow(tail)
  }

  predicate MayFollow(tail: seq<Byte>) { tail == [] || (OneOf(tail[0], "/?") && All(tail, Printable)) }

  /** `schema://` and an authority, and what stands behind it. */
  ghost predicate IsAbsolute(b: seq<Byte>) {
    exists schema: seq<Byte>, rest: seq<Byte> :: b == schema + [58, 47, 47] + rest && schema != [] && All(schema, Letter) && IsRest(rest)
  }

  /** The request targets after which the request line may go on. */
  ghost predicate IsTargetText(connect: bool, b: seq<Byte>) {
    if connect then IsRest(b) else (b != [] && OneOf(b[0], "/*") && All(b, Printable)) || IsAbsolute(b)
  }

  /** The same without looking for the parts: `at` says whether an `@` stands in front. */
  predicate ServerFrom(at: bool, t: seq<Byte>)
    decreases |t|
  {
    t == [] || (ServerByte(t[0]) && !(at && t[0] == 64) && ServerFrom(t[0] == 64, t[1..]))
  }

  lemma {:induction false} ServerFromIs(at: bool, t: seq<Byte>)
    ensures ServerFrom(at, t) <==> IsServer(t) && !(at && t != [] && t[0] == 64)
    decreases |t|
  {
    hide ServerByte;
    if t != [] {
      ServerFromIs(t[0] == 64, t[1..]);
      AllCons(t, ServerByte);
      if IsServer(t) {
        var u := t[1..];
        forall i | 0 < i < |u| ensures !(OneOf(u[i - 1], "@") && OneOf(u[i], "@")) {
          assert u[i - 1] == t[i] && u[i] == t[i + 1];
        }
        assert |t| > 1 ==> !(OneOf(t[0], "@") && OneOf(t[1], "@"));
      }
      if IsServer(t[1..]) && !(t[0] == 64 && |t| > 1 && t[1] == 64) {
        forall i | 0 < i < |t| ensures !(OneOf(t[i - 1], "@") && OneOf(t[i], "@")) {
          if i > 1 {
            assert t[1..][i - 2] == t[i - 1] && t[1..][i - 1] == t[i];
          }
        }
      }
    }
  }

  lemma AllCons(t: seq<Byte>, ok: Byte -> bool)
    requires t != []
    ensures All(t, ok) <==> ok(t[0]) && All(t[1..], ok)
  {
    assert forall i :: 0 < i < |t| ==> t[i] == t[1..][i - 1];
  }

  /** How many bytes stand in front of the first `/` or `?`. */
  function ServerEnd(b: seq<Byte>): (k: nat)
    ensures k <= |b| && (k < |b| ==> OneOf(b[k], "/?"))
  {
    if b == [] || OneOf(b[0], "/?") then 0 else 1 + ServerEnd(b[1..])
  }

  lemma {:induction false} StaysDead(t: seq<Byte>)
    ensures Final(ParseUrlChar, UrlDead, t) == UrlDead
    decreases |t|
  {
    if t != [] {
      StaysDead(t[1..]);
    }
  }

  lemma TailStep(s: UrlState, c: Byte)
    requires InTail(s)
    ensures if Printable(c) then InTail(ParseUrlChar(s, c)) else ParseUrlChar(s, c).UrlDead?
  {
    Classes(c);
  }

  lemma {:induction false} LiveTail(s: UrlState, b: seq<Byte>)
    requires InTail(s)
    ensures if All(b, Printable) then InTail(Final(ParseUrlChar, s, b)) else Final(ParseUrlChar, s, b).UrlDead?
    decreases |b|
  {
    hide ParseUrlChar, Printable, All;
    if b != [] {
      AllCons(b, Printable);
      TailStep(s, b[0]);
      if Printable(b[0]) {
        LiveTail(ParseUrlChar(s, b[0]), b[1..]);
      } else {
        StaysDead(b[1..]);
      }
    } else {
      AllOfNone(Printable);
    }
  }

  lemma AllOfNone(ok: Byte -> bool)
    ensures All([], ok)
  {
  }

  lemma ServerStep(s: UrlState, c: Byte)
    requires InServer(s)
    ensures
      var n := ParseUrlChar(s, c);
      if OneOf(c, "/?") then InTail(n) && Printable(c)
      else if ServerByte(c) && !(s.ServerWithAt? && c == 64) then (if c == 64 then n.ServerWithAt? else n.Server?)
      else n.UrlDead?
  {
    Classes(c);
  }

  lemma {:induction false} LiveServer(s: UrlState, b: seq<Byte>)
    requires InServer(s)
    ensures
      var k, e := ServerEnd(b), Final(ParseUrlChar, s, b);
      if ServerFrom(s.ServerWithAt?, b[..k]) && All(b[k..], Printable)
      then (if b == [] then e == s else InTail(e) || e.Server? || e.ServerWithAt?) else e.UrlDead?
    decreases |b|
  {
    hide ParseUrlChar, Printable, All, ServerByte;
    if b != [] {
      var n := ParseUrlChar(s, b[0]);
      ServerStep(s, b[0]);
      if OneOf(b[0], "/?") {
        LiveTail(n, b[1..]);
        AllCons(b, Printable);
        assert b[0..] == b;
      } else {
        var k := ServerEnd(b);
        assert b[..k][1..] == b[1..][..k - 1] && b[k..] == b[1..][k - 1..];
        if n.UrlDead? {
          StaysDead(b[1..]);
        } else {
          LiveServer(n, b[1..]);
        }
      }
    } else {
      AllOfNone(Printable);
    }
  }

  lemma {:induction false} ServerEndIs(server: seq<Byte>, tail: seq<Byte>)
    requires All(server, ServerByte) && (tail == [] || OneOf(tail[0], "/?"))
    ensures ServerEnd(server + tail) == |server|
    decreases |server|
  {
    hide ServerByte;
    if server == [] {
      assert server + tail == tail;
    } else {
      assert (server + tail)[1..] == server[1..] + tail;
      AllCons(server, ServerByte);
      NotInServer(server[0]);
      ServerEndIs(server[1..], tail);
    }
  }

  lemma NotInServer(c: Byte)
    ensures ServerByte(c) ==> !OneOf(c, "/?")
  {
  }

  /** The states in which a target may end. */
  predicate MayEnd(s: UrlState) { !s.UrlDead? && !UrlCannotEnd(s) }

  lemma Endings(s: UrlState)
    ensures InTail(s) || s.Server? || s.ServerWithAt? ==> MayEnd(s)
    ensures s.UrlDead? || s.ServerStart? ==> !MayEnd(s)
  {
  }

  lemma {:induction false} RestRead(b: seq<Byte>, server: seq<Byte>, tail: seq<Byte>)
    requires b == server + tail && IsServer(server) && MayFollow(tail)
    ensures !Final(ParseUrlChar, ServerStart, b).UrlDead? && (b != [] ==> MayEnd(Final(ParseUrlChar, ServerStart, b)))
  {
    hide ParseUrlChar, ServerByte, Printable, Final;
    ServerEndIs(server, tail);
    ServerFromIs(false, server);
    assert b[..|server|] == server && b[|server|..] == tail;
    AllOfNone(Printable);
    LiveServer(ServerStart, b);
    Endings(Final(ParseUrlChar, ServerStart, b));
    if b == [] {
      NothingAfter(ParseUrlChar, ServerStart);
    }
  }

  lemma {:induction false} RestWritten(b: seq<Byte>) returns (server: seq<Byte>, tail: seq<Byte>)
    requires !Final(ParseUrlChar, ServerStart, b).UrlDead?
    ensures b == server + tail && IsServer(server) && MayFollow(tail)
  {
    hide ParseUrlChar, ServerByte, Printable, Final;
    var k := ServerEnd(b);
    LiveServer(ServerStart, b);
    server, tail := b[..k], b[k..];
    ServerFromIs(false, server);
  }

  /** How many bytes of a class a text starts with. */
  function Span(b: seq<Byte>, ok: Byte -> bool): (k: nat)
    ensures k <= |b| && All(b[..k], ok) && (k < |b| ==> !ok(b[k]))
    decreases |b|
  {
    if b == [] || !ok(b[0]) then 0
    else
      var k := Span(b[1..], ok);
      assert forall i :: 0 < i <= k ==> b[i] == b[1..][i - 1];
      1 + k
  }

  lemma SchemaSteps(c: Byte)
    ensures Letter(c) ==> ParseUrlChar(UrlStart, c) == Schema && ParseUrlChar(Schema, c) == Schema
    ensures !Letter(c) && !OneOf(c, "/*") ==> ParseUrlChar(UrlStart, c) == UrlDead
    ensures OneOf(c, "/*") ==> ParseUrlChar(UrlStart, c) == Path && Printable(c)
    ensures !Letter(c) ==> ParseUrlChar(Schema, c) == if c == 58 then SchemaSlash else UrlDead
    ensures ParseUrlChar(SchemaSlash, c) == if c == 47 then SchemaSlashSlash else UrlDead
    ensures ParseUrlChar(SchemaSlashSlash, c) == if c == 47 then ServerStart else UrlDead
  {
  }

  lemma {:induction false} SchemaRead(schema: seq<Byte>)
    requires schema != [] && All(schema, Letter)
    ensures Reads(ParseUrlChar, PartOf, UrlStart, schema, Some(PSchema)) && Final(ParseUrlChar, UrlStart, schema) == Schema
  {
    hide ParseUrlChar, Letter;
    forall i | 0 <= i < |schema| ensures ParseUrlChar(UrlStart, schema[i]) == Schema && ParseUrlChar(Schema, schema[i]) == Schema {
      SchemaSteps(schema[i]);
    }
    Stays(ParseUrlChar, PartOf, UrlStart, schema, Schema);
  }

  lemma {:induction false} SlashesRead()
    ensures Final(ParseUrlChar, Schema, [58, 47, 47]) == ServerStart
    ensures Reads(ParseUrlChar, PartOf, Schema, [58, 47, 47], None)
  {
    var t: seq<Byte> := [58, 47, 47];
    assert t[1..] == [47, 47] && t[1..][1..] == [47] && t[1..][1..][1..] == [];
  }

  lemma {:induction false} AbsoluteRead(schema: seq<Byte>, rest: seq<Byte>)
    requires schema != [] && All(schema, Letter)
    ensures Final(ParseUrlChar, UrlStart, schema + [58, 47, 47] + rest) == Final(ParseUrlChar, ServerStart, rest)
  {
    hide ParseUrlChar, Letter, Final;
    SchemaRead(schema);
    SlashesRead();
    AfterBoth(ParseUrlChar, UrlStart, schema, [58, 47, 47]);
    AfterBoth(ParseUrlChar, UrlStart, schema + [58, 47, 47], rest);
  }

  /** A text that starts with a letter and is not refused: only a schema and slashes, or an authority follows. */
  lemma {:induction false} AbsoluteWritten(b: seq<Byte>) returns (schema: seq<Byte>, rest: seq<Byte>, whole: bool)
    requires b != [] && Letter(b[0]) && !Final(ParseUrlChar, UrlStart, b).UrlDead?
    ensures schema != [] && All(schema, Letter)
    ensures whole ==> b == schema + [58, 47, 47] + rest && Final(ParseUrlChar, UrlStart, b) == Final(ParseUrlChar, ServerStart, rest)
    ensures !whole ==> UrlCannotEnd(Final(ParseUrlChar, UrlStart, b)) && b == schema + rest && (rest == [] || rest == [58] || rest == [58, 47])
  {
    hide ParseUrlChar, Letter, Final;
    var k := Span(b, Letter);
    schema, rest := b[..k], b[k..];
    whole := false;
    SchemaRead(schema);
    AfterBoth(ParseUrlChar, UrlStart, schema, rest);
    assert b == schema + rest;
    AfterCons(ParseUrlChar, Schema, rest);
    if rest != [] {
      SchemaSteps(rest[0]);
      StaysDead(rest[1..]);
      AfterCons(ParseUrlChar, SchemaSlash, rest[1..]);
      if |rest| > 1 {
        SchemaSteps(rest[1]);
        StaysDead(rest[2..]);
        assert rest[1..][1..] == rest[2..];
        AfterCons(ParseUrlChar, SchemaSlashSlash, rest[2..]);
        if |rest| > 2 {
          SchemaSteps(rest[2]);
          StaysDead(rest[3..]);
          assert rest[2..][1..] == rest[3..];
          whole := true;
          assert rest == [58, 47, 47] + rest[3..];
          rest := rest[3..];
        }
      }
    }
  }

  lemma AfterCons<S>(step: (S, Byte) -> S, s: S, t: seq<Byte>)
    ensures Final(step, s, t) == if t == [] then s else Final(step, step(s, t[0]), t[1..])
  {
  }

  /** The targets that `http_parser_execute` takes are those of the grammar. */
  lemma {:induction false} TargetGrammar(connect: bool, b: seq<Byte>)
    ensures IsTargetText(connect, b) <==> b != [] && MayEnd(Final(ParseUrlChar, StartOf(connect), b))
  {
    if connect {
      RestGrammar(b);
    } else {
      UrlGrammarOf(b);
    }
  }

  lemma {:induction false} RestGrammar(b: seq<Byte>)
    ensures IsRest(b) <==> b != [] && MayEnd(Final(ParseUrlChar, ServerStart, b))
  {
    hide ParseUrlChar, Final, MayFollow, IsServer;
    if IsRest(b) {
      var server: seq<Byte>, tail: seq<Byte> :| b == server + tail && IsServer(server) && MayFollow(tail);
      RestRead(b, server, tail);
    }
    if b != [] && MayEnd(Final(ParseUrlChar, ServerStart, b)) {
      var server, tail := RestWritten(b);
    }
  }

  lemma {:induction false} UrlGrammarOf(b: seq<Byte>)
    ensures IsTargetText(false, b) <==> b != [] && MayEnd(Final(ParseUrlChar, UrlStart, b))
  {
    hide ParseUrlChar, Final, Printable, Letter, IsRest, All;
    if IsAbsolute(b) {
      var schema: seq<Byte>, rest: seq<Byte> :| b == schema + [58, 47, 47] + rest && schema != [] && All(schema, Letter) && IsRest(rest);
      AbsoluteRead(schema, rest);
      RestGrammar(rest);
    }
    if b != [] {
      SchemaSteps(b[0]);
      AfterCons(ParseUrlChar, UrlStart, b);
      if OneOf(b[0], "/*") {
        LiveTail(Path, b[1..]);
        AllCons(b, Printable);
      } else if !Letter(b[0]) {
        StaysDead(b[1..]);
      } else if MayEnd(Final(ParseUrlChar, UrlStart, b)) {
        var schema, rest, whole := AbsoluteWritten(b);
        RestGrammar(rest);
        NothingAfter(ParseUrlChar, ServerStart);
      }
    }
  }

  // ---------- cutting a text ----------

  predicate IsHash(c: Byte) { c == 35 }

  lemma {:induction false} HashesAre(t: seq<Byte>)
    requires All(t, IsHash)
    ensures Hashes(|t|) == t
  {
  }

  lemma {:induction false} FragmentWritten(r: seq<Byte>) returns (f: FragmentText)
    requires All(r, Printable) && (r == [] || IsHash(r[0]))
    ensures IsFragment(f) && TextOf(FragmentPieces(f)) == r && (f.NoFragment? <==> r == [])
  {
    if r == [] {
      f := NoFragment;
    } else {
      var k := Span(r, IsHash);
      HashesAre(r[..k]);
      f := WithHashes(k, r[k..]);
      TextTwo(Piece(None, Hashes(k)), Piece(Some(PFragment), r[k..]));
      assert r == r[..k] + r[k..];
    }
  }

  lemma {:induction false} QueryWritten(r: seq<Byte>) returns (q: Option<seq<Byte>>, f: FragmentText)
    requires All(r, Printable) && (r == [] || OneOf(r[0], "?#"))
    ensures IsQuery(q) && IsFragment(f) && r == TextOf(QueryPieces(q)) + TextOf(FragmentPieces(f))
    ensures r == [] || r[0] == 63 ==> (q.None? ==> f.NoFragment?)
  {
    hide Printable;
    if r == [] || r[0] != 63 {
      q := None;
      f := FragmentWritten(r);
    } else {
      var t := r[1..];
      var k := Span(t, QueryByte);
      q := Some(t[..k]);
      f := FragmentWritten(t[k..]);
      TextTwo(Piece(None, [63]), Piece(Some(PQuery), t[..k]));
      assert r == [63] + t[..k] + t[k..];
    }
  }

  /** What stands behind an authority, or without one, is a path, a query and a fragment. */
  lemma {:induction false} TailWritten(b: seq<Byte>, origin: bool) returns (t: TailText)
    requires if origin then b != [] && OneOf(b[0], "/*") && All(b, Printable) else MayFollow(b)
    ensures TextOf(TailPieces(t)) == b && if origin then IsOrigin(t) else IsTail(t)
  {
    hide Printable, QueryPieces, FragmentPieces, TextOf, IsQuery, IsFragment;
    var path: seq<Byte>, rest := [], b;
    if b != [] && OneOf(b[0], "/*") {
      var k := 1 + Span(b[1..], PathByte);
      path, rest := b[..k], b[k..];
      assert path[1..] == b[1..][..k - 1];
      if rest != [] {
        assert rest[0] == b[1..][k - 1] && !PathByte(rest[0]);
      }
    }
    var q, f := QueryWritten(rest);
    t := TailText(path, q, f);
    TailTextIs(t);
    assert b == path + rest;
  }

  lemma TailTextIs(t: TailText)
    ensures TextOf(TailPieces(t)) == t.path + (TextOf(QueryPieces(t.query)) + TextOf(FragmentPieces(t.fragment)))
  {
    var p, q, f := [Piece(Some(PPath), t.path)], QueryPieces(t.query), FragmentPieces(t.fragment);
    TextBoth(p, q);
    TextBoth(p + q, f);
    TextTwo(p[0], p[0]);
    assert t.path + TextOf(q) + TextOf(f) == t.path + (TextOf(q) + TextOf(f));
  }

  lemma TailSorted(t: TailText)
    ensures Sorted(TailPieces(t), 4, 7)
  {
    var p, q, f := [Piece(Some(PPath), t.path)], QueryPieces(t.query), FragmentPieces(t.fragment);
    SortedBoth(p, q, 4, 5, 6);
    SortedBoth(p + q, f, 4, 6, 7);
  }
}
