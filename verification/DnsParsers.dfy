/** The two-pass parsers `dns_parse_a` and `dns_parse_mx`: count and check first, then fill. */
module DnsParsers {
  import opened Ascii
  import opened Options
  import opened DnsNames
  import opened DnsText
  import opened DnsPacket
  import opened DnsRecords
  import opened DnsWriter

  datatype Fault = Protocol | NoData

  /** The walk over the answers of `pkt` for the question that ends at `start + 4`. */
  function Answers(pkt: seq<Byte>, start: nat, name: seq<Label>): Walked
    requires |pkt| >= HEADER && start + 4 <= |pkt|
  {
    WalkAll(pkt, Asked(pkt, start), StartPlace(pkt, start + 4, Some(name)))
  }

  function Asked(pkt: seq<Byte>, start: nat): Query
    requires start + 4 <= |pkt|
  {
    Query(if Get16(pkt, start + 2) == 255 then 0 else Get16(pkt, start + 2),
          if Get16(pkt, start) == 255 then 0 else Get16(pkt, start))
  }

  /** The walk `w` has found the records `seen` and goes on from `s`. */
  ghost predicate OnTheWay(pkt: seq<Byte>, q: Query, w: Walked, seen: seq<Record>, s: Place) {
    var v := WalkAll(pkt, q, s);
    TakenOf(w.items) == seen + TakenOf(v.items) && w.ok == v.ok && w.last == v.last && s.found == |seen|
    && Within(pkt, seen)
  }

  /** The data of the records lies in the packet. */
  predicate Within(pkt: seq<Byte>, rs: seq<Record>) {
    forall i :: 0 <= i < |rs| ==> rs[i].dptr <= rs[i].dend <= |pkt|
  }

  lemma {:induction false} GoesOn(pkt: seq<Byte>, q: Query, w: Walked, seen: seq<Record>, s: Place)
    requires OnTheWay(pkt, q, w, seen, s)
    ensures
      match NextFrom(pkt, q, s)
      case End(t) => w.ok && TakenOf(w.items) == seen && t.found == |seen| && w.last == t
      case Got(t, r) =>
        OnTheWay(pkt, q, w, seen + [r], t) && t.left < s.left && |seen| < |TakenOf(w.items)|
        && TakenOf(w.items)[|seen|] == r && r.dptr <= r.dend <= |pkt|
      case Error => !w.ok
  {
    NextIsWalk(pkt, q, s);
    var n := NextFrom(pkt, q, s);
    if n.Got? {
      var v := WalkAll(pkt, q, n.s);
      assert seen + ([n.r] + TakenOf(v.items)) == seen + [n.r] + TakenOf(v.items);
    } else if n.End? {
      assert seen + [] == seen;
    }
  }

  lemma StartsOff(pkt: seq<Byte>, q: Query, s: Place)
    requires s.found == 0
    ensures OnTheWay(pkt, q, WalkAll(pkt, q, s), [], s)
  {
    var t := TakenOf(WalkAll(pkt, q, s).items);
    assert [] + t == t;
  }

  /** What the walk gives on a reply as it is written ... */
  lemma {:induction false} AnswersRead(pkt: seq<Byte>, start: nat, name: seq<Label>, typ: nat, cls: nat, parts: seq<Part>)
    requires |pkt| >= 12 && start + 4 <= |pkt| && IsReply(pkt, start, typ, cls, name, parts)
    ensures
      var w := Answers(pkt, start, name);
      w.ok && Gives(TakenOf(w.items), AnswersOf(parts)) && LeastTtl(SmallestTtl(w.items, MAX_TTL), MAX_TTL, parts)
  {
    hide WalkAll, TakenOf, SmallestTtl, SectionAt, Get16, Put16;
    var q := pkt[start..start + 4];
    PutTwo(typ, cls);
    assert q[0..2] == pkt[start..start + 2] && q[2..4] == pkt[start + 2..start + 4];
    Got16(pkt, 6, |parts|);
    Got16(pkt, start, typ);
    Got16(pkt, start + 2, cls);
    SectionRead(pkt, typ, cls, name, parts, StartPlace(pkt, start + 4, Some(name)));
  }

  /** ... and whenever it gives anything, such a reply is written. */
  lemma {:induction false} AnswersWritten(pkt: seq<Byte>, start: nat, name: seq<Label>)
    returns (typ: nat, cls: nat, parts: seq<Part>)
    requires |pkt| >= 12 && start + 4 <= |pkt| && Answers(pkt, start, name).ok
    ensures IsReply(pkt, start, typ, cls, name, parts)
  {
    hide WalkAll, SectionAt, Get16, Put16;
    typ, cls := Get16(pkt, start), Get16(pkt, start + 2);
    Is16(pkt, start);
    Is16(pkt, start + 2);
    Is16(pkt, 6);
    assert pkt[start..start + 4] == pkt[start..start + 2] + pkt[start + 2..start + 4];
    parts := SectionWritten(pkt, typ, cls, name, StartPlace(pkt, start + 4, Some(name)));
  }

  lemma PutTwo(a: nat, b: nat)
    requires a < 65536 && b < 65536
    ensures (Put16(a) + Put16(b))[0..2] == Put16(a) && (Put16(a) + Put16(b))[2..4] == Put16(b)
  {
  }

  // ---------- addresses ----------

  predicate RightSize(r: Record, dsize: nat) { r.dend - r.dptr == dsize }

  predicate AllRightSize(rs: seq<Record>, dsize: nat) { forall i :: 0 <= i < |rs| ==> RightSize(rs[i], dsize) }

  /** The addresses of some records, one after the other. */
  function Addresses(pkt: seq<Byte>, rs: seq<Record>): seq<Byte>
    requires Within(pkt, rs)
  {
    if rs == [] then [] else Addresses(pkt, rs[..|rs| - 1]) + pkt[rs[|rs| - 1].dptr..rs[|rs| - 1].dend]
  }

  lemma {:induction false} AddressesSize(pkt: seq<Byte>, rs: seq<Record>, dsize: nat)
    requires Within(pkt, rs)
    requires AllRightSize(rs, dsize)
    ensures |Addresses(pkt, rs)| == dsize * |rs|
    decreases |rs|
  {
    if rs != [] {
      AddressesSize(pkt, rs[..|rs| - 1], dsize);
      assert dsize * |rs| == dsize * (|rs| - 1) + dsize;
    }
  }

  /** The first pass: count the records and check the size of each. */
  method CountAddresses(p: Parse, dsize: nat) returns (r: Option<Fault>, nrr: nat)
    requires p.Valid() && p.Here().found == 0
    modifies p
    ensures p.Valid()
    ensures
      var w := WalkAll(p.pkt, p.query, old(p.Here()));
      var rs := TakenOf(w.items);
      r == (if !w.ok || !AllRightSize(rs, dsize) then Some(Protocol) else if rs == [] then Some(NoData) else None)
      && (r.None? ==> nrr == |rs|)
  {
    hide WalkAll, OnTheWay, NextFrom;
    ghost var w := WalkAll(p.pkt, p.query, p.Here());
    ghost var seen: seq<Record> := [];
    StartsOff(p.pkt, p.query, p.Here());
    nrr := 0;
    while true
      invariant p.Valid() && OnTheWay(p.pkt, p.query, w, seen, p.Here()) && AllRightSize(seen, dsize)
      decreases p.rrl
    {
      GoesOn(p.pkt, p.query, w, seen, p.Here());
      var got, rr := p.NextRecord();
      if got < 0 { return Some(Protocol), nrr; }
      if got == 0 { break; }
      if rr.dend - rr.dptr != dsize { return Some(Protocol), nrr; }
      seen := seen + [rr];
    }
    nrr := p.nrr;
    r := if nrr == 0 then Some(NoData) else None;
  }

  /** The second pass: after `dns_rewind` the same records come again, without an error, and fill the
      area exactly. */
  method CopyAddresses(p: Parse, dsize: nat, area: array<Byte>, ghost w: Walked) returns (n: nat)
    requires p.Valid() && p.Here().found == 0 && w == WalkAll(p.pkt, p.query, p.Here())
    requires w.ok && AllRightSize(TakenOf(w.items), dsize) && area.Length == dsize * |TakenOf(w.items)|
    modifies p, area
    ensures p.Valid() && n == |TakenOf(w.items)| && p.Here() == w.last
    ensures Within(p.pkt, TakenOf(w.items))
    ensures area[..] == Addresses(p.pkt, TakenOf(w.items))
  {
    hide WalkAll, NextFrom, OnTheWay, TakenOf, Addresses;
    ghost var seen: seq<Record> := [];
    ghost var rs := TakenOf(w.items);
    StartsOff(p.pkt, p.query, p.Here());
    NoAddresses(p.pkt, seen);
    n := 0;
    var off := 0;
    while true
      invariant p.Valid() && OnTheWay(p.pkt, p.query, w, seen, p.Here()) && Within(p.pkt, seen)
      invariant n == |seen| && off == dsize * n <= area.Length && area[..off] == Addresses(p.pkt, seen)
      decreases p.rrl
    {
      GoesOn(p.pkt, p.query, w, seen, p.Here());
      var got, rr := p.NextRecord();
      if got == 0 { break; }
      RoomForOne(dsize, n, |rs|);
      assert RightSize(rs[n], dsize);
      CopyInto(area, off, p.pkt, rr.dptr, dsize);
      MoreAddresses(p.pkt, seen, rr);
      seen := seen + [rr];
      assert area[..off + dsize] == area[..off] + area[off..off + dsize];
      off := off + dsize;
      n := n + 1;
    }
    assert area[..] == area[..off];
  }

  lemma NoAddresses(pkt: seq<Byte>, rs: seq<Record>)
    requires rs == []
    ensures Addresses(pkt, rs) == []
  {
  }

  lemma MoreAddresses(pkt: seq<Byte>, seen: seq<Record>, r: Record)
    requires Within(pkt, seen) && r.dptr <= r.dend <= |pkt|
    ensures Within(pkt, seen + [r]) && Addresses(pkt, seen + [r]) == Addresses(pkt, seen) + pkt[r.dptr..r.dend]
  {
    var rs := seen + [r];
    assert rs[..|rs| - 1] == seen;
  }

  lemma RoomForOne(dsize: nat, n: nat, k: nat)
    requires n < k
    ensures dsize * n + dsize == dsize * (n + 1) <= dsize * k
  {
    assert dsize * k == dsize * (n + 1) + dsize * (k - n - 1);
  }

  method CopyInto(area: array<Byte>, off: nat, pkt: seq<Byte>, from: nat, k: nat)
    requires off + k <= area.Length && from + k <= |pkt|
    modifies area
    ensures area[..off] == old(area[..off]) && area[off..off + k] == pkt[from..from + k]
  {
    for i := 0 to k
      invariant area[..off] == old(area[..off])
      invariant area[off..off + i] == pkt[from..from + i]
    {
      area[off + i] := pkt[from + i];
      assert area[off..off + i + 1] == area[off..off + i] + [area[off + i]];
      assert pkt[from..from + i + 1] == pkt[from..from + i] + [pkt[from + i]];
    }
  }

  datatype AddressAnswer = Found(count: nat, addresses: seq<Byte>, ttl: nat) | Faulty(why: Fault)

  /** What is made of the records of a reply: the data of its answers and the least TTL, if every size is right. */
  predicate AddressesOf(a: AddressAnswer, dsize: nat, parts: seq<Part>) {
    var answers := AnswersOf(parts);
    if exists i :: 0 <= i < |answers| && |answers[i].rr.data| != dsize then a == Faulty(Protocol)
    else if answers == [] then a == Faulty(NoData)
    else a.Found? && a.count == |answers| && a.addresses == DataOf(answers) && LeastTtl(a.ttl, 4294967295, parts)
  }

  /** Records as they are written have their data where they are read. */
  lemma {:induction false} DataRead(pkt: seq<Byte>, r: Record, part: Part)
    requires RecordAt(pkt, part.at, part.rr) && r == RecordOf(part.at, part.rr)
    ensures r.dptr <= r.dend <= |pkt| && pkt[r.dptr..r.dend] == part.rr.data && r.dend - r.dptr == |part.rr.data|
  {
    hide StandsAt, Written, Fields, Labels, Spelled;
  }

  lemma {:induction false} AllDataRead(pkt: seq<Byte>, rs: seq<Record>, answers: seq<Part>)
    requires Gives(rs, answers) && forall i :: 0 <= i < |answers| ==> RecordAt(pkt, answers[i].at, answers[i].rr)
    ensures Within(pkt, rs) && Addresses(pkt, rs) == DataOf(answers)
    ensures forall i :: 0 <= i < |rs| ==> rs[i].dend - rs[i].dptr == |answers[i].rr.data|
    decreases |rs|
  {
    hide RecordAt, RecordOf, IsRr;
    if rs != [] {
      var n := |rs| - 1;
      AllDataRead(pkt, rs[..n], answers[..n]);
      DataRead(pkt, rs[n], answers[n]);
    }
  }

  lemma {:induction false} AddressesMean(pkt: seq<Byte>, start: nat, name: seq<Label>, dsize: nat, a: AddressAnswer, typ: nat, cls: nat,
                                         parts: seq<Part>)
    requires |pkt| >= HEADER && start + 4 <= |pkt| && AnswerOf(pkt, start, name, dsize, a) && IsReply(pkt, start, typ, cls, name, parts)
    ensures AddressesOf(a, dsize, parts)
  {
    hide Answers, AnswersOf, TakenOf, SmallestTtl, Addresses, DataOf, RecordAt, LeastTtl, SectionAt;
    AnswersRead(pkt, start, name, typ, cls, parts);
    SectionHolds(pkt, start + 4, typ, cls, name, true, parts);
    var rs, answers := TakenOf(Answers(pkt, start, name).items), AnswersOf(parts);
    AllDataRead(pkt, rs, answers);
    assert (exists i :: 0 <= i < |answers| && |answers[i].rr.data| != dsize) <==> !AllRightSize(rs, dsize);
  }

  /** The answer the walk over the packet gives. */
  predicate AnswerOf(pkt: seq<Byte>, start: nat, name: seq<Label>, dsize: nat, a: AddressAnswer)
    requires |pkt| >= HEADER && start + 4 <= |pkt|
  {
    var w := Answers(pkt, start, name);
    var rs := TakenOf(w.items);
    if !w.ok || !AllRightSize(rs, dsize) then a == Faulty(Protocol)
    else if rs == [] then a == Faulty(NoData)
    else Within(pkt, rs) && a == Found(|rs|, Addresses(pkt, rs), SmallestTtl(w.items, MAX_TTL)) && |a.addresses| == dsize * a.count
  }

  /** `dns_parse_a`: on a packet that is a reply as it is written, its answers; on any other, a fault. */
  method ParseA(pkt: seq<Byte>, start: nat, caller: seq<Byte>, dsize: nat, ghost name: seq<Label>)
    returns (a: AddressAnswer)
    requires |pkt| >= HEADER && start + 4 <= |pkt| && IsName(name) && HoldsAt(caller, 0, name)
    ensures AnswerOf(pkt, start, name, dsize, a)
    ensures forall typ: nat, cls: nat, parts: seq<Part> :: IsReply(pkt, start, typ, cls, name, parts) ==> AddressesOf(a, dsize, parts)
    ensures a != Faulty(Protocol) ==> exists typ: nat, cls: nat, parts: seq<Part> :: IsReply(pkt, start, typ, cls, name, parts)
  {
    hide AddressesOf, IsReply, Addresses, TakenOf, SmallestTtl, WalkAll;
    a := ParseAWalk(pkt, start, caller, dsize, name);
    forall typ: nat, cls: nat, parts: seq<Part> | IsReply(pkt, start, typ, cls, name, parts) ensures AddressesOf(a, dsize, parts) {
      AddressesMean(pkt, start, name, dsize, a, typ, cls, parts);
    }
    if a != Faulty(Protocol) {
      ghost var typ, cls, parts := AnswersWritten(pkt, start, name);
    }
  }

  method ParseAWalk(pkt: seq<Byte>, start: nat, caller: seq<Byte>, dsize: nat, ghost name: seq<Label>)
    returns (a: AddressAnswer)
    requires |pkt| >= HEADER && start + 4 <= |pkt| && IsName(name) && HoldsAt(caller, 0, name)
    ensures AnswerOf(pkt, start, name, dsize, a)
  {
    hide WalkAll, TakenOf, SmallestTtl, Addresses;
    var p := new Parse(pkt, start, Some(caller), Some(name));
    ghost var w := Answers(pkt, start, name);
    var fault, nrr := CountAddresses(p, dsize);
    if fault.Some? { return Faulty(fault.value); }
    var area := new Byte[dsize * nrr];
    p.Rewind(Some(caller), Some(name));
    var n := CopyAddresses(p, dsize, area, w);
    AddressesSize(pkt, TakenOf(w.items), dsize);
    WalkCounts(pkt, Asked(pkt, start), StartPlace(pkt, start + 4, Some(name)));
    a := Found(n, area[..], p.ttl);
  }

  // ---------- mail exchangers ----------

  /** The exchanger name of an MX record, if its data is a priority and exactly one name. */
  function MxName(pkt: seq<Byte>, r: Record): (t: Option<seq<Label>>)
    ensures t.Some? ==> IsName(t.value) && |Labels(t.value)| <= MAX_DN && r.dptr + 2 < r.dend <= |pkt|
  {
    if Fits(pkt, r.dptr + 2, MAX_DN) then
      FitsMeans(pkt, r.dptr + 2);
      if WalkFrom(pkt, r.dptr + 2).at == r.dend then Expand(pkt, r.dptr + 2, MAX_JUMPS) else None
    else None
  }

  predicate AllMx(pkt: seq<Byte>, rs: seq<Record>) { forall i :: 0 <= i < |rs| ==> MxName(pkt, rs[i]).Some? }

  /** The texts of the exchanger names, each ended by a zero byte. */
  function NamesArea(pkt: seq<Byte>, rs: seq<Record>): seq<Byte>
    requires AllMx(pkt, rs)
  {
    if rs == [] then [] else NamesArea(pkt, rs[..|rs| - 1]) + Text(MxName(pkt, rs[|rs| - 1]).value) + [0]
  }

  /** An entry of the result: the priority, and where in the area the name starts. */
  datatype Mx = Mx(priority: nat, at: nat)

  function MxEntries(pkt: seq<Byte>, rs: seq<Record>): seq<Mx>
    requires AllMx(pkt, rs)
  {
    if rs == [] then []
    else MxEntries(pkt, rs[..|rs| - 1]) + [Mx(Get16(pkt, rs[|rs| - 1].dptr), |NamesArea(pkt, rs[..|rs| - 1])|)]
  }

  lemma NoMx(pkt: seq<Byte>, rs: seq<Record>)
    requires rs == []
    ensures NamesArea(pkt, rs) == [] && MxEntries(pkt, rs) == []
  {
  }

  lemma {:induction false} MoreMx(pkt: seq<Byte>, seen: seq<Record>, r: Record)
    requires AllMx(pkt, seen) && MxName(pkt, r).Some?
    ensures AllMx(pkt, seen + [r])
    ensures NamesArea(pkt, seen + [r]) == NamesArea(pkt, seen) + Text(MxName(pkt, r).value) + [0]
    ensures MxEntries(pkt, seen + [r]) == MxEntries(pkt, seen) + [Mx(Get16(pkt, r.dptr), |NamesArea(pkt, seen)|)]
  {
    hide Text, MxName;
    var rs := seen + [r];
    assert rs[..|rs| - 1] == seen;
  }

  /** Longer lists need more room. */
  lemma {:induction false} AreaGrows(pkt: seq<Byte>, rs: seq<Record>, k: nat)
    requires AllMx(pkt, rs) && k <= |rs|
    ensures AllMx(pkt, rs[..k]) && |NamesArea(pkt, rs[..k])| <= |NamesArea(pkt, rs)|
    decreases |rs|
  {
    hide Text, MxName;
    if k == |rs| {
      assert rs[..k] == rs;
    } else {
      assert rs[..|rs| - 1][..k] == rs[..k];
      AreaGrows(pkt, rs[..|rs| - 1], k);
    }
  }

  /** Decodes the name of one MX record. */
  method ReadMx(pkt: seq<Byte>, rr: Record) returns (ok: bool, dn: seq<Byte>)
    ensures ok <==> MxName(pkt, rr).Some?
    ensures ok ==> HoldsAt(dn, 0, MxName(pkt, rr).value)
  {
    var got, next;
    got, dn, next := GetDn(pkt, rr.dptr + 2, MAX_DN);
    ok := got > 0 && next == rr.dend;
    if ok {
      WireHolds(MxName(pkt, rr).value);
    }
  }

  /** The first pass: check every record and add up the room for the names. */
  method SizeMx(p: Parse) returns (r: Option<Fault>, nrr: nat, room: nat)
    requires p.Valid() && p.Here().found == 0
    modifies p
    ensures p.Valid()
    ensures
      var w := WalkAll(p.pkt, p.query, old(p.Here()));
      var rs := TakenOf(w.items);
      r == (if !w.ok || !AllMx(p.pkt, rs) then Some(Protocol) else if rs == [] then Some(NoData) else None)
      && (r.None? ==> nrr == |rs| && room == |NamesArea(p.pkt, rs)|)
  {
    hide WalkAll, OnTheWay, NextFrom, MxName, NamesArea, MxEntries, Text, HoldsAt;
    ghost var w := WalkAll(p.pkt, p.query, p.Here());
    ghost var seen: seq<Record> := [];
    StartsOff(p.pkt, p.query, p.Here());
    NoMx(p.pkt, seen);
    nrr, room := 0, 0;
    while true
      invariant p.Valid() && OnTheWay(p.pkt, p.query, w, seen, p.Here())
      invariant AllMx(p.pkt, seen) && room == |NamesArea(p.pkt, seen)|
      decreases p.rrl
    {
      GoesOn(p.pkt, p.query, w, seen, p.Here());
      var got, rr := p.NextRecord();
      if got < 0 { return Some(Protocol), nrr, room; }
      if got == 0 { break; }
      var ok, dn := ReadMx(p.pkt, rr);
      if !ok { return Some(Protocol), nrr, room; }
      ghost var n := MxName(p.pkt, rr).value;
      LongTextFits(n);
      var size := TextRoom(dn, n);
      MoreMx(p.pkt, seen, rr);
      room := room + size;
      seen := seen + [rr];
    }
    nrr := p.nrr;
    r := if nrr == 0 then Some(NoData) else None;
  }

  /** The second pass: the same records come again and their names fill the area exactly. */
  method FillMx(p: Parse, area: array<Byte>, ghost w: Walked) returns (mx: seq<Mx>)
    requires p.Valid() && p.Here().found == 0 && w == WalkAll(p.pkt, p.query, p.Here())
    requires w.ok && AllMx(p.pkt, TakenOf(w.items)) && area.Length == |NamesArea(p.pkt, TakenOf(w.items))|
    modifies p, area
    ensures p.Valid() && p.Here() == w.last
    ensures mx == MxEntries(p.pkt, TakenOf(w.items)) && |mx| == |TakenOf(w.items)|
    ensures area[..] == NamesArea(p.pkt, TakenOf(w.items))
  {
    hide WalkAll, OnTheWay, NextFrom, TakenOf, MxName, NamesArea, MxEntries, Text, HoldsAt;
    ghost var seen: seq<Record> := [];
    ghost var rs := TakenOf(w.items);
    StartsOff(p.pkt, p.query, p.Here());
    NoMx(p.pkt, seen);
    mx := [];
    var sp := 0;
    while true
      invariant p.Valid() && OnTheWay(p.pkt, p.query, w, seen, p.Here()) && seen <= rs && AllMx(p.pkt, seen)
      invariant mx == MxEntries(p.pkt, seen) && |mx| == |seen|
      invariant 0 <= sp == |NamesArea(p.pkt, seen)| <= area.Length && area[..sp] == NamesArea(p.pkt, seen)
      decreases p.rrl
    {
      GoesOn(p.pkt, p.query, w, seen, p.Here());
      var got, rr := p.NextRecord();
      if got == 0 { break; }
      assert rr == rs[|seen|];
      MoreMx(p.pkt, seen, rr);
      AreaGrows(p.pkt, rs, |seen| + 1);
      assert rs[..|seen| + 1] == seen + [rr];
      mx := mx + [Mx(Get16(p.pkt, rr.dptr), sp)];
      var ok, dn := ReadMx(p.pkt, rr);
      ghost var n := MxName(p.pkt, rr).value;
      LongTextFits(n);
      var size, text := DnToText(dn, MAX_NAME, n);
      CopyInto(area, sp, text, 0, size);
      assert text[..size] == text && text[0..size] == text;
      assert area[..sp + size] == area[..sp] + area[sp..sp + size];
      seen := seen + [rr];
      sp := sp + size;
    }
    assert area[..] == area[..sp];
  }

  datatype MxAnswer = Exchangers(mx: seq<Mx>, names: seq<Byte>, ttl: nat) | MxFaulty(why: Fault)

  /** The answer the walk over the packet gives. */
  predicate MxAnswerOf(pkt: seq<Byte>, start: nat, name: seq<Label>, a: MxAnswer)
    requires |pkt| >= HEADER && start + 4 <= |pkt|
  {
    var w := Answers(pkt, start, name);
    var rs := TakenOf(w.items);
    if !w.ok || !AllMx(pkt, rs) then a == MxFaulty(Protocol)
    else if rs == [] then a == MxFaulty(NoData)
    else a == Exchangers(MxEntries(pkt, rs), NamesArea(pkt, rs), SmallestTtl(w.items, MAX_TTL)) && |a.mx| == |rs|
  }

  method ParseMxWalk(pkt: seq<Byte>, start: nat, caller: seq<Byte>, ghost name: seq<Label>) returns (a: MxAnswer)
    requires |pkt| >= HEADER && start + 4 <= |pkt| && IsName(name) && HoldsAt(caller, 0, name)
    ensures MxAnswerOf(pkt, start, name, a)
  {
    hide WalkAll, TakenOf, SmallestTtl, MxName, NamesArea, MxEntries;
    var p := new Parse(pkt, start, Some(caller), Some(name));
    ghost var w := Answers(pkt, start, name);
    var fault, nrr, room := SizeMx(p);
    if fault.Some? { return MxFaulty(fault.value); }
    var area := new Byte[room];
    p.Rewind(Some(caller), Some(name));
    var mx := FillMx(p, area, w);
    WalkCounts(pkt, Asked(pkt, start), StartPlace(pkt, start + 4, Some(name)));
    a := Exchangers(mx, area[..], p.ttl);
  }

  /** What the data of an MX record says. */
  datatype Mail = Mail(priority: nat, to: Spelling)

  /** The data of a record is a priority of two bytes and exactly one name. */
  predicate IsMail(pkt: seq<Byte>, part: Part, mail: Mail) {
    IsRr(part.rr) && mail.priority < 65536 && |part.rr.data| >= 2 && part.rr.data[..2] == Put16(mail.priority)
    && IsExactly(pkt, DataAt(part.at, part.rr) + 2, mail.to, EndAt(part.at, part.rr))
  }

  /** The texts of the names, each ended by a zero byte. */
  function TextsOf(mails: seq<Mail>): seq<Byte>
    requires forall i :: 0 <= i < |mails| ==> IsSpelling(mails[i].to)
  {
    if mails == [] then [] else TextsOf(mails[..|mails| - 1]) + Text(Spelled(mails[|mails| - 1].to)) + [0]
  }

  /** The packet is a reply whose answers say `mails`. */
  predicate IsMailReply(pkt: seq<Byte>, start: nat, typ: nat, cls: nat, name: seq<Label>, parts: seq<Part>, mails: seq<Mail>)
    requires |pkt| >= 12 && start + 4 <= |pkt|
  {
    IsReply(pkt, start, typ, cls, name, parts) && |mails| == |AnswersOf(parts)|
    && forall i :: 0 <= i < |mails| ==> IsMail(pkt, AnswersOf(parts)[i], mails[i])
  }

  /** What is made of them: the priorities, the texts and where each starts, and the least TTL. */
  predicate MailsOf(a: MxAnswer, mails: seq<Mail>, parts: seq<Part>)
    requires forall i :: 0 <= i < |mails| ==> IsSpelling(mails[i].to)
  {
    if mails == [] then a == MxFaulty(NoData)
    else a.Exchangers? && a.names == TextsOf(mails) && |a.mx| == |mails| && LeastTtl(a.ttl, 4294967295, parts)
         && forall i :: 0 <= i < |mails| ==> a.mx[i] == Mx(mails[i].priority, |TextsOf(mails[..i])|)
  }

  lemma {:induction false} MailRead(pkt: seq<Byte>, r: Record, part: Part, mail: Mail)
    requires RecordAt(pkt, part.at, part.rr) && r == RecordOf(part.at, part.rr) && IsMail(pkt, part, mail)
    ensures IsSpelling(mail.to) && MxName(pkt, r) == Some(Spelled(mail.to)) && Get16(pkt, r.dptr) == mail.priority
  {
    hide Expand, WalkFrom, Labels, StandsAt, Written, Fields, Get16, Put16;
    DataRead(pkt, r, part);
    Stretch(pkt, r.dptr, part.rr.data, 0, 2);
    assert part.rr.data[0..2] == part.rr.data[..2];
    ReadableFits(pkt, r.dptr + 2, 255, mail.to);
    PutOne(mail.priority);
    Got16(pkt, r.dptr, mail.priority);
  }

  lemma PutOne(n: nat)
    requires n < 65536
    ensures |Put16(n)| == 2
  {
  }

  lemma {:induction false} MailWritten(pkt: seq<Byte>, r: Record, part: Part) returns (mail: Mail)
    requires RecordAt(pkt, part.at, part.rr) && r == RecordOf(part.at, part.rr) && MxName(pkt, r).Some?
    ensures IsMail(pkt, part, mail)
  {
    hide Expand, WalkFrom, Labels, StandsAt, Written, Fields, Get16, Put16;
    DataRead(pkt, r, part);
    var s := FitsReadable(pkt, r.dptr + 2, 255);
    ReadableFits(pkt, r.dptr + 2, 255, s);
    Is16(pkt, r.dptr);
    Stretch(pkt, r.dptr, part.rr.data, 0, 2);
    assert part.rr.data[0..2] == part.rr.data[..2];
    mail := Mail(Get16(pkt, r.dptr), s);
  }

  /** What the walk makes of the records is what the mails say. */
  predicate SameMails(pkt: seq<Byte>, rs: seq<Record>, mails: seq<Mail>) {
    AllMx(pkt, rs) && (forall i :: 0 <= i < |mails| ==> IsSpelling(mails[i].to))
    && NamesArea(pkt, rs) == TextsOf(mails) && |MxEntries(pkt, rs)| == |mails|
    && forall i :: 0 <= i < |mails| ==> MxEntries(pkt, rs)[i] == Mx(mails[i].priority, |TextsOf(mails[..i])|)
  }

  lemma {:induction false} OneMailMore(pkt: seq<Byte>, rs: seq<Record>, mails: seq<Mail>, r: Record, mail: Mail)
    requires SameMails(pkt, rs, mails)
    requires IsSpelling(mail.to) && MxName(pkt, r) == Some(Spelled(mail.to)) && Get16(pkt, r.dptr) == mail.priority
    ensures SameMails(pkt, rs + [r], mails + [mail])
  {
    hide Text, Spelled, MxName, IsSpelling, Get16, NamesArea, MxEntries;
    MoreMx(pkt, rs, r);
    var more := mails + [mail];
    assert more[..|mails|] == mails;
    assert forall i :: 0 <= i < |mails| ==> more[..i] == mails[..i];
  }

  lemma {:induction false} AllMailRead(pkt: seq<Byte>, rs: seq<Record>, answers: seq<Part>, mails: seq<Mail>)
    requires Gives(rs, answers) && |mails| == |answers|
    requires forall i :: 0 <= i < |answers| ==> RecordAt(pkt, answers[i].at, answers[i].rr) && IsMail(pkt, answers[i], mails[i])
    ensures SameMails(pkt, rs, mails)
    decreases |rs|
  {
    hide RecordAt, RecordOf, IsRr, IsMail, MxName, Text, Spelled, Get16, IsSpelling, SameMails;
    if rs == [] {
      NoMailRead(pkt, rs, mails);
    } else {
      var n := |rs| - 1;
      AllMailRead(pkt, rs[..n], answers[..n], mails[..n]);
      MailRead(pkt, rs[n], answers[n], mails[n]);
      OneMailMore(pkt, rs[..n], mails[..n], rs[n], mails[n]);
      assert rs[..n] + [rs[n]] == rs && mails[..n] + [mails[n]] == mails;
    }
  }

  lemma NoMailRead(pkt: seq<Byte>, rs: seq<Record>, mails: seq<Mail>)
    requires rs == [] && mails == []
    ensures SameMails(pkt, rs, mails)
  {
  }

  lemma {:induction false} AllMailWritten(pkt: seq<Byte>, rs: seq<Record>, answers: seq<Part>) returns (mails: seq<Mail>)
    requires Gives(rs, answers) && AllMx(pkt, rs) && forall i :: 0 <= i < |answers| ==> RecordAt(pkt, answers[i].at, answers[i].rr)
    ensures |mails| == |answers| && forall i :: 0 <= i < |mails| ==> IsMail(pkt, answers[i], mails[i])
    decreases |rs|
  {
    hide RecordAt, RecordOf, IsRr, IsMail, MxName;
    if rs == [] {
      mails := [];
    } else {
      var n := |rs| - 1;
      mails := AllMailWritten(pkt, rs[..n], answers[..n]);
      var mail := MailWritten(pkt, rs[n], answers[n]);
      mails := mails + [mail];
    }
  }

  lemma {:induction false} MailsMean(pkt: seq<Byte>, start: nat, name: seq<Label>, a: MxAnswer, typ: nat, cls: nat, parts: seq<Part>,
                                     mails: seq<Mail>)
    requires |pkt| >= HEADER && start + 4 <= |pkt| && MxAnswerOf(pkt, start, name, a)
    requires IsMailReply(pkt, start, typ, cls, name, parts, mails)
    ensures forall i :: 0 <= i < |mails| ==> IsSpelling(mails[i].to)
    ensures MailsOf(a, mails, parts)
  {
    hide Answers, AnswersOf, TakenOf, SmallestTtl, RecordAt, LeastTtl, SectionAt, IsMail, NamesArea, TextsOf, MxEntries, MxName, IsSpelling;
    AnswersRead(pkt, start, name, typ, cls, parts);
    SectionHolds(pkt, start + 4, typ, cls, name, true, parts);
    AllMailRead(pkt, TakenOf(Answers(pkt, start, name).items), AnswersOf(parts), mails);
  }

  lemma {:induction false} MailReplyWritten(pkt: seq<Byte>, start: nat, name: seq<Label>, a: MxAnswer)
    returns (typ: nat, cls: nat, parts: seq<Part>, mails: seq<Mail>)
    requires |pkt| >= HEADER && start + 4 <= |pkt| && MxAnswerOf(pkt, start, name, a) && a != MxFaulty(Protocol)
    ensures IsMailReply(pkt, start, typ, cls, name, parts, mails)
  {
    hide Answers, AnswersOf, TakenOf, SmallestTtl, RecordAt, LeastTtl, SectionAt, IsMail, NamesArea, TextsOf, MxEntries, MxName, IsSpelling;
    typ, cls, parts := AnswersWritten(pkt, start, name);
    AnswersRead(pkt, start, name, typ, cls, parts);
    SectionHolds(pkt, start + 4, typ, cls, name, true, parts);
    mails := AllMailWritten(pkt, TakenOf(Answers(pkt, start, name).items), AnswersOf(parts));
  }

  /** `dns_parse_mx`: on a packet that is a reply whose answers are priorities and names, as they are written, these; on
      any other, a fault. */
  method ParseMx(pkt: seq<Byte>, start: nat, caller: seq<Byte>, ghost name: seq<Label>) returns (a: MxAnswer)
    requires |pkt| >= HEADER && start + 4 <= |pkt| && IsName(name) && HoldsAt(caller, 0, name)
    ensures MxAnswerOf(pkt, start, name, a)
    ensures forall typ: nat, cls: nat, parts: seq<Part>, mails: seq<Mail> :: IsMailReply(pkt, start, typ, cls, name, parts, mails) ==>
      (forall i :: 0 <= i < |mails| ==> IsSpelling(mails[i].to)) && MailsOf(a, mails, parts)
    ensures a != MxFaulty(Protocol) ==>
      exists typ: nat, cls: nat, parts: seq<Part>, mails: seq<Mail> :: IsMailReply(pkt, start, typ, cls, name, parts, mails)
  {
    hide MailsOf, IsMailReply, MxAnswerOf, IsSpelling;
    a := ParseMxWalk(pkt, start, caller, name);
    forall typ: nat, cls: nat, parts: seq<Part>, mails: seq<Mail> | IsMailReply(pkt, start, typ, cls, name, parts, mails)
      ensures (forall i :: 0 <= i < |mails| ==> IsSpelling(mails[i].to)) && MailsOf(a, mails, parts)
    {
      MailsMean(pkt, start, name, a, typ, cls, parts, mails);
    }
    if a != MxFaulty(Protocol) {
      ghost var typ, cls, parts, mails := MailReplyWritten(pkt, start, name, a);
    }
  }
}
