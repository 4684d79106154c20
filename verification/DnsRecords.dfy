/** Walking over the answer section: `dns_nextrr` (ext/udns-0.4/udns_parse.c) and what a walk does. */
module DnsRecords {
  import opened Ascii
  import opened Options
  import opened DnsNames
  import opened DnsText
  import opened DnsPacket

  const CNAME: nat := 5
  const MAX_TTL: nat := 0xFFFF_FFFF

  function Get16(pkt: seq<Byte>, p: nat): nat
    requires p + 2 <= |pkt|
  {
    pkt[p] as int * 256 + pkt[p + 1] as int
  }

  function Get32(pkt: seq<Byte>, p: nat): nat
    requires p + 4 <= |pkt|
  {
    Get16(pkt, p) * 65536 + Get16(pkt, p + 2)
  }

  /** A resource record: its name, fields and the bounds of its data. */
  datatype Record = Record(name: seq<Label>, typ: nat, cls: nat, ttl: nat, dptr: nat, dend: nat)

  /** The record at `p`, if it lies within the packet. */
  function ReadRecord(pkt: seq<Byte>, p: nat): (r: Option<Record>)
    ensures r.Some? ==> IsName(r.value.name) && p < r.value.dptr <= r.value.dend <= |pkt|
  {
    if !Fits(pkt, p, MAX_DN) then None
    else
      ExpandWalks(pkt, p, MAX_JUMPS);
      var c := WalkFrom(pkt, p).at;
      if c + 10 > |pkt| || c + 10 + Get16(pkt, c + 8) > |pkt| then None
      else Some(Record(Expand(pkt, p, MAX_JUMPS).value, Get16(pkt, c), Get16(pkt, c + 2), Get32(pkt, c + 4),
                       c + 10, c + 10 + Get16(pkt, c + 8)))
  }

  /** What is asked for; 0 stands for any class or type. */
  datatype Query = Query(cls: nat, typ: nat)

  /** The mutable part of `struct dns_parse`: position, records left, records found, smallest TTL, and
      the name looked for, if any. */
  datatype Place = Place(cur: nat, left: nat, found: nat, ttl: nat, want: Option<seq<Label>>)

  predicate Wanted(q: Query, r: Record) { (q.cls == 0 || q.cls == r.cls) && (q.typ == 0 || q.typ == r.typ) }

  function Min(a: nat, b: nat): nat { if a > b then b else a }

  /** What one record is for a walk. */
  datatype Item = Taken(r: Record) | Followed(r: Record, to: seq<Label>) | Passed(r: Record) | Broken

  /** The name a CNAME record points to, if its data is exactly one name. */
  function CnameTarget(pkt: seq<Byte>, r: Record): (t: Option<seq<Label>>)
    ensures t.Some? ==> IsName(t.value)
  {
    if Fits(pkt, r.dptr, MAX_DN) && WalkFrom(pkt, r.dptr).Ends? && WalkFrom(pkt, r.dptr).at == r.dend
    then Expand(pkt, r.dptr, MAX_JUMPS) else None
  }

  function Classify(pkt: seq<Byte>, q: Query, s: Place): Item {
    match ReadRecord(pkt, s.cur)
    case None => Broken
    case Some(r) =>
      if s.want.Some? && !SameName(s.want.value, r.name) then Passed(r)
      else if Wanted(q, r) then Taken(r)
      else if s.want.Some? && r.typ == CNAME && s.found == 0 then
        (match CnameTarget(pkt, r) case Some(t) => Followed(r, t) case None => Broken)
      else Passed(r)
  }

  /** The place after a record. */
  function Past(s: Place, i: Item): Place
    requires !i.Broken? && s.left > 0
  {
    var t := s.(cur := i.r.dend, left := s.left - 1);
    match i
    case Taken(r) => t.(found := s.found + 1, ttl := Min(s.ttl, r.ttl))
    case Followed(r, to) => t.(want := Some(to), ttl := Min(s.ttl, r.ttl))
    case Passed(_) => t
  }

  /** A whole walk: its records in order, ended by an error or not, and the place at the end. */
  datatype Walked = Walked(items: seq<Item>, ok: bool, last: Place)

  function WalkAll(pkt: seq<Byte>, q: Query, s: Place): Walked
    decreases s.left
  {
    if s.left == 0 then Walked([], true, s)
    else
      var i := Classify(pkt, q, s);
      if i.Broken? then Walked([], false, s)
      else
        var w := WalkAll(pkt, q, Past(s, i));
        Walked([i] + w.items, w.ok, w.last)
  }

  /** The records found. */
  function TakenOf(items: seq<Item>): seq<Record> {
    if items == [] then []
    else (if items[0].Taken? then [items[0].r] else []) + TakenOf(items[1..])
  }

  /** The smallest TTL among the records found and the aliases followed. */
  function SmallestTtl(items: seq<Item>, bound: nat): nat {
    if items == [] then bound
    else SmallestTtl(items[1..], if items[0].Taken? || items[0].Followed? then Min(bound, items[0].r.ttl) else bound)
  }

  /** A walk counts the records found and keeps the smallest TTL. */
  lemma {:induction false} WalkCounts(pkt: seq<Byte>, q: Query, s: Place)
    ensures
      var w := WalkAll(pkt, q, s);
      w.last.found == s.found + |TakenOf(w.items)| && w.last.ttl == SmallestTtl(w.items, s.ttl)
    decreases s.left
  {
    if s.left > 0 && !Classify(pkt, q, s).Broken? {
      var i := Classify(pkt, q, s);
      WalkCounts(pkt, q, Past(s, i));
      var w := WalkAll(pkt, q, Past(s, i));
      assert ([i] + w.items)[1..] == w.items;
    }
  }

  /** What `dns_nextrr` returns. */
  datatype Next = End(s: Place) | Got(s: Place, r: Record) | Error

  function NextFrom(pkt: seq<Byte>, q: Query, s: Place): Next
    decreases s.left
  {
    if s.left == 0 then End(s)
    else
      var i := Classify(pkt, q, s);
      match i
      case Broken => Error
      case Taken(r) => Got(Past(s, i), r)
      case _ => NextFrom(pkt, q, Past(s, i))
  }

  /** Stepping from record to record is the walk. */
  lemma {:induction false} NextIsWalk(pkt: seq<Byte>, q: Query, s: Place)
    ensures
      var w := WalkAll(pkt, q, s);
      match NextFrom(pkt, q, s)
      case End(t) => w.ok && TakenOf(w.items) == [] && w.last == t && t.left == 0 && t.found == s.found
      case Got(t, r) =>
        var v := WalkAll(pkt, q, t);
        t.left < s.left && t.found == s.found + 1 && w.ok == v.ok && TakenOf(w.items) == [r] + TakenOf(v.items) && w.last == v.last
        && r.dptr <= r.dend <= |pkt|
      case Error => !w.ok
    decreases s.left
  {
    if s.left > 0 {
      var i := Classify(pkt, q, s);
      if !i.Broken? {
        var w := WalkAll(pkt, q, Past(s, i));
        assert ([i] + w.items)[1..] == w.items;
        if !i.Taken? {
          NextIsWalk(pkt, q, Past(s, i));
        }
      }
    }
  }

  /** The place at the start of the answers of a packet. */
  function StartPlace(pkt: seq<Byte>, ans: nat, want: Option<seq<Label>>): Place
    requires |pkt| >= HEADER
  {
    Place(ans, Get16(pkt, 6), 0, MAX_TTL, want)
  }

  /** Where the name looked for is kept: nowhere, with the caller, or in the buffer of the parser. */
  datatype Looking = AnyName | CallerName(dn: seq<Byte>) | OwnBuffer

  /** The caller's name, if there is one, holds this name. */
  ghost predicate Names(caller: Option<seq<Byte>>, name: Option<seq<Label>>) {
    if caller.None? then name.None? else name.Some? && IsName(name.value) && HoldsAt(caller.value, 0, name.value)
  }

  /** `struct dns_parse`. */
  class Parse {
    const pkt: seq<Byte>
    const ans: nat
    const query: Query
    var cur: nat
    var rrl: nat
    var nrr: nat
    var ttl: nat
    var qdn: Looking
    var dnbuf: seq<Byte>
    ghost var name: seq<Label>

    ghost predicate Valid()
      reads this
    {
      |pkt| >= HEADER
      && (qdn.CallerName? ==> IsName(name) && HoldsAt(qdn.dn, 0, name))
      && (qdn.OwnBuffer? ==> IsName(name) && HoldsAt(dnbuf, 0, name))
    }

    ghost function Want(): Option<seq<Label>>
      reads this
    {
      if qdn.AnyName? then None else Some(name)
    }

    ghost function Here(): Place
      reads this
    {
      Place(cur, rrl, nrr, ttl, Want())
    }

    /** `dns_initparse`; the question ends at `start + 4`. Without a name every record is looked at. */
    constructor (pkt: seq<Byte>, start: nat, caller: Option<seq<Byte>>, ghost name: Option<seq<Label>>)
      requires |pkt| >= HEADER && start + 4 <= |pkt| && Names(caller, name)
      ensures Valid() && this.pkt == pkt && ans == start + 4
      ensures query == Query(if Get16(pkt, start + 2) == 255 then 0 else Get16(pkt, start + 2),
                             if Get16(pkt, start) == 255 then 0 else Get16(pkt, start))
      ensures Here() == StartPlace(pkt, ans, name)
    {
      this.pkt := pkt;
      var typ, cls := Get16(pkt, start), Get16(pkt, start + 2);
      query := Query(if cls == 255 then 0 else cls, if typ == 255 then 0 else typ);
      cur, ans := start + 4, start + 4;
      rrl, nrr, ttl := Get16(pkt, 6), 0, MAX_TTL;
      dnbuf := [];
      qdn := match caller case None => AnyName case Some(dn) => CallerName(dn);
      this.name := match name case None => [] case Some(n) => n;
    }

    /** `dns_rewind`: back to where the walk started, with any name or none. */
    method Rewind(caller: Option<seq<Byte>>, ghost name: Option<seq<Label>>)
      requires Valid() && Names(caller, name)
      modifies this
      ensures Valid() && Here() == StartPlace(pkt, ans, name)
    {
      qdn := match caller case None => AnyName case Some(dn) => CallerName(dn);
      this.name := match name case None => [] case Some(n) => n;
      cur, rrl, ttl, nrr := ans, Get16(pkt, 6), MAX_TTL, 0;
    }

    /** `dns_dnequal` against the name looked for. */
    method Matches(dn: seq<Byte>, ghost n: seq<Label>) returns (same: bool)
      requires Valid() && IsName(n) && HoldsAt(dn, 0, n)
      ensures same <==> (Want().Some? ==> SameName(Want().value, n))
    {
      if qdn.AnyName? { return true; }
      var r: nat;
      if qdn.CallerName? {
        r := Equal(qdn.dn, dn, name, n);
      } else {
        r := Equal(dnbuf, dn, name, n);
      }
      same := r > 0;
    }

    /** `dns_nextrr`. */
    method NextRecord() returns (r: int, rr: Record)
      requires Valid()
      modifies this
      ensures Valid()
      ensures
        match NextFrom(pkt, query, old(Here()))
        case End(s) => r == 0 && Here() == s
        case Got(s, rec) => r == 1 && Here() == s && rr == rec
        case Error => r == -1
    {
      hide NextFrom, HoldsAt, ReadRecord, CnameTarget, SameName;
      rr := Record([], 0, 0, 0, 0, 0);
      var c: nat := cur;
      while rrl > 0
        invariant Valid()
        invariant NextFrom(pkt, query, Place(c, rrl, nrr, ttl, Want())) == NextFrom(pkt, query, old(Here()))
        decreases rrl
      {
        NextStep(pkt, query, Place(c, rrl, nrr, ttl, Want()));
        rrl := rrl - 1;
        var ok, dn;
        ok, rr, dn := ReadRr(pkt, c);
        if !ok { return -1, rr; }
        c := rr.dend;
        var same := Matches(dn, rr.name);
        if !same { continue; }
        if Wanted(query, rr) {
          cur := c;
          nrr := nrr + 1;
          if ttl > rr.ttl { ttl := rr.ttl; }
          return 1, rr;
        }
        if !qdn.AnyName? && rr.typ == CNAME && nrr == 0 {
          var ok2, dn2, t := ReadTarget(pkt, rr);
          if !ok2 { return -1, rr; }
          dnbuf, name, qdn := dn2, t, OwnBuffer;
          if ttl > rr.ttl { ttl := rr.ttl; }
        }
      }
      NextStep(pkt, query, Place(c, rrl, nrr, ttl, Want()));
      cur := c;
      r := 0;
    }
  }

  /** The fixed part of a record. */
  method ReadRr(pkt: seq<Byte>, c: nat) returns (ok: bool, rr: Record, dn: seq<Byte>)
    ensures ok <==> ReadRecord(pkt, c).Some?
    ensures ok ==> rr == ReadRecord(pkt, c).value && IsName(rr.name) && HoldsAt(dn, 0, rr.name)
  {
    rr := Record([], 0, 0, 0, 0, 0);
    var got, next;
    got, dn, next := GetDn(pkt, c, MAX_DN);
    if got <= 0 { return false, rr, dn; }
    FitsMeans(pkt, c);
    if next + 10 > |pkt| { return false, rr, dn; }
    var dsz := Get16(pkt, next + 8);
    rr := Record(Expand(pkt, c, MAX_JUMPS).value, Get16(pkt, next), Get16(pkt, next + 2), Get32(pkt, next + 4),
                 next + 10, next + 10 + dsz);
    WireHolds(rr.name);
    ok := rr.dend <= |pkt|;
  }

  /** The name in the data of a CNAME record. */
  method ReadTarget(pkt: seq<Byte>, rr: Record) returns (ok: bool, dn: seq<Byte>, ghost t: seq<Label>)
    ensures ok <==> CnameTarget(pkt, rr).Some?
    ensures ok ==> t == CnameTarget(pkt, rr).value && IsName(t) && HoldsAt(dn, 0, t)
  {
    var got, next;
    got, dn, next := GetDn(pkt, rr.dptr, MAX_DN);
    t := [];
    ok := got > 0 && next == rr.dend;
    if ok {
      FitsMeans(pkt, rr.dptr);
      t := Expand(pkt, rr.dptr, MAX_JUMPS).value;
      WireHolds(t);
    }
  }

  lemma WireHolds(n: seq<Label>)
    requires IsName(n)
    ensures HoldsAt(Wire(n), 0, n)
  {
  }

  lemma NextStep(pkt: seq<Byte>, q: Query, s: Place)
    ensures s.left == 0 ==> NextFrom(pkt, q, s) == End(s)
    ensures s.left > 0 ==>
      var i := Classify(pkt, q, s);
      NextFrom(pkt, q, s) == match i
        case Broken => Error
        case Taken(r) => Got(Past(s, i), r)
        case _ => NextFrom(pkt, q, Past(s, i))
  {
  }

  lemma FitsMeans(pkt: seq<Byte>, p: nat)
    requires Fits(pkt, p, MAX_DN)
    ensures Expand(pkt, p, MAX_JUMPS).Some? && WalkFrom(pkt, p).Ends? && p < WalkFrom(pkt, p).at <= |pkt|
  {
    ExpandWalks(pkt, p, MAX_JUMPS);
  }
}
