/** Queries as objects, and the doubly linked list of the queries in flight
    (ext/udns-0.4/udns_resolver.c). */
module ResolverQueue {
  import opened Ascii
  import opened Options
  import opened DnsNames
  import opened DnsPacket
  import DnsRecords
  import opened Resolver

  /** `struct dns_query`. Bit masks of servers are sets; the search cursor is an offset in the search
      buffer. */
  class Query {
    var next: Query?
    var prev: Query?
    const handle: nat
    const typ: nat
    const cls: nat
    const origLen: nat
    var dn: seq<Byte>
    var id: nat
    var asisDone: bool
    var seenNodata: bool
    var nxtsrch: nat
    var tryNo: nat
    var servi: nat
    var servwait: set<nat>
    var servskip: set<nat>
    var servnEdns: set<nat>
    var deadline: nat

    constructor (cfg: Config, handle: nat, typ: nat, cls: nat, dn: seq<Byte>, ghost ask: Ask)
      requires dn == Wire(ask.name) && ask.handle == handle && ask.typ == typ && ask.cls == cls
      ensures Shows(cfg, First(ask))
    {
      this.handle, this.typ, this.cls, this.dn, this.origLen := handle, typ, cls, dn, |dn| - 1;
      next, prev, asisDone, seenNodata, nxtsrch, deadline, id := null, null, false, false, 0, 0, 0;
      tryNo, servi, servwait, servskip, servnEdns := 0, 0, {}, {}, {};
    }

    /** The choice of the first name in `dns_submit_dn`. */
    method Prepare(cfg: Config, srchbuf: seq<Byte>, noSearch: bool, ghost ask: Ask)
      requires Shows(cfg, First(ask)) && srchbuf == Buffer(Entries(cfg)) && Short(ask.name, []) && ask.noSearch == noSearch
      modifies this`nxtsrch, this`dn, this`asisDone
      ensures Shows(cfg, Prepared(cfg, ask))
    {
      hide Buffer, HoldsAt, Wire, Labels, Offset, NextEntry, Short;
      WholeName(dn, ask.name);
      var labels := DnLabels(dn, ask.name);
      if noSearch || labels > cfg.ndots {
        CursorEnds(cfg);
        nxtsrch := if noSearch then |srchbuf| - 1 else 0;
        asisDone := true;
      } else {
        var found, shown, k := NextName(cfg, srchbuf, First(ask));
      }
    }

    /** The object stands for the query `p` of the model. */
    ghost predicate Shows(cfg: Config, p: Pending)
      reads this`dn, this`id, this`asisDone, this`seenNodata, this`nxtsrch, this`deadline
      reads this`tryNo, this`servi, this`servwait, this`servskip, this`servnEdns
    {
      && handle == p.ask.handle && typ == p.ask.typ && cls == p.ask.cls
      && origLen == |Labels(p.ask.name)| && Labels(p.ask.name) <= dn && dn == Wire(p.cur.name)
      && id == p.id && deadline == p.deadline
      && p.round == Round(tryNo, servi, servwait, servskip, servnEdns)
      && p.search.next <= |cfg.suffixes| + 1 && nxtsrch == Offset(cfg, p.search.next)
      && asisDone == p.search.asisDone && seenNodata == p.search.seenNodata
    }

    /** `dns_find_serv`. */
    method FindServer(nserv: nat) returns (found: bool)
      modifies this`servi
      ensures servi == FindServ(nserv, servskip, old(servi)) && found == (servi < nserv)
    {
      while servi < nserv
        invariant FindServ(nserv, servskip, servi) == FindServ(nserv, servskip, old(servi))
      {
        if servi !in servskip { return true; }
        servi := servi + 1;
      }
      found := false;
    }

    /** The comparison of a reply with the query in `dns_ioevent`. */
    method IsFor(cfg: Config, pkt: seq<Byte>, ghost p: Pending) returns (yes: bool)
      requires Shows(cfg, p) && HeaderOk(pkt)
      ensures yes == Concerns(p, pkt)
    {
      hide Expand, WalkFrom, SameName, Buffer;
      if DnsRecords.Get16(pkt, 4) == 0 { return Rcode(pkt) == FORMERR; }
      var r, name, cur := GetDn(pkt, HEADER, MAX_DN);
      if r <= 0 || cur + 4 > |pkt| { return false; }
      ghost var n := Expand(pkt, HEADER, MAX_JUMPS).value;
      WholeName(name, n);
      WholeName(dn, p.cur.name);
      var same := Equal(name, dn, n, p.cur.name);
      yes := same > 0 && DnsRecords.Get16(pkt, cur) == typ && DnsRecords.Get16(pkt, cur + 2) == cls;
    }

    /** The loop of `dns_next_srch` over the search buffer; its end is at the closing root. */
    method SeekSuffix(cfg: Config, srchbuf: seq<Byte>, ghost p: Pending) returns (found: bool, length: nat, ghost k: nat)
      requires Shows(cfg, p) && srchbuf == Buffer(Entries(cfg))
      modifies this`nxtsrch
      ensures k == NextEntry(cfg, p.ask.name, p.search.asisDone, p.search.next) <= |cfg.suffixes| + 1
      ensures found == (k <= |cfg.suffixes|) && nxtsrch == Offset(cfg, k)
      ensures found ==> length == |Wire(Suffix(cfg, k))|
    {
      hide Buffer, HoldsAt, Wire, Labels;
      k := p.search.next;
      length := 0;
      while true
        invariant k <= |cfg.suffixes| + 1 && nxtsrch == Offset(cfg, k)
        invariant NextEntry(cfg, p.ask.name, p.search.asisDone, k)
          == NextEntry(cfg, p.ask.name, p.search.asisDone, p.search.next)
        decreases |cfg.suffixes| + 1 - k
      {
        BufferEnd(cfg, k);
        if nxtsrch >= |srchbuf| { return false, 0, k; }
        EntryAt(cfg, k);
        RootByte(srchbuf, nxtsrch, Suffix(cfg, k));
        length := DnLen(srchbuf, nxtsrch, Suffix(cfg, k));
        if length + origLen <= MAX_DN && (srchbuf[nxtsrch] != 0 || !asisDone) { return true, length, k; }
        nxtsrch := nxtsrch + length;
        k := k + 1;
      }
    }

    /** `dns_next_srch` up to the new id: the next name of the search. */
    method NextName(cfg: Config, srchbuf: seq<Byte>, ghost p: Pending) returns (found: bool, ghost shown: Pending, ghost k: nat)
      requires Shows(cfg, p) && srchbuf == Buffer(Entries(cfg))
      modifies this`nxtsrch, this`dn, this`asisDone
      ensures k == NextEntry(cfg, p.ask.name, p.search.asisDone, p.search.next) && found == (k <= |cfg.suffixes|)
      ensures Shows(cfg, shown) && shown.ask == p.ask
      ensures found ==> shown == OnName(cfg, p, k)
    {
      hide Buffer, HoldsAt, Wire, Labels, Offset, NextEntry;
      var length: nat;
      found, length, k := SeekSuffix(cfg, srchbuf, p);
      shown := p.(search := p.search.(next := k));
      if found {
        EntryAt(cfg, k);
        RootByte(srchbuf, nxtsrch, Suffix(cfg, k));
        NameJoined(dn, origLen, p.ask.name, Suffix(cfg, k));
        dn := dn[..origLen] + srchbuf[nxtsrch..nxtsrch + length];
        if srchbuf[nxtsrch] == 0 { asisDone := true; }
        nxtsrch := nxtsrch + length;
        shown := OnName(cfg, p, k);
      }
    }

    /** The first half of `dns_send`: the server whose turn it is, in this round or the next. */
    method TakeTurn(cfg: Config, ghost p: Pending) returns (found: bool, server: nat, ghost shown: Pending)
      requires Shows(cfg, p)
      modifies this`servi, this`tryNo
      ensures Shows(cfg, shown) && shown.ask == p.ask
      ensures found <==> NextServer(cfg, p.round).Some?
      ensures found ==>
        var r := NextServer(cfg, p.round).value;
        server == r.servi && shown == p.(round := r.(servi := r.servi + 1))
    {
      found := FindServer(cfg.nserv);
      if !found {
        servi := 0;
        tryNo := tryNo + 1;
        if tryNo < cfg.ntries {
          found := FindServer(cfg.nserv);
        }
      }
      server := servi;
      if found {
        servi := servi + 1;
      }
      shown := p.(round := p.round.(tryNo := tryNo, servi := servi));
    }

    method MarkSeen(cfg: Config, seen: bool, ghost p: Pending)
      requires Shows(cfg, p)
      modifies this`seenNodata
      ensures Shows(cfg, p.(search := p.search.(seenNodata := seen)))
    {
      seenNodata := seen;
    }

    /** A reply from `server` has come. */
    method NoteReply(cfg: Config, server: nat, ghost pkt: seq<Byte>, ghost p: Pending)
      requires Shows(cfg, p)
      modifies this`servwait
      ensures Shows(cfg, Got(p, server, pkt))
    {
      servwait := servwait - {server};
    }

    method RefuseEdns(cfg: Config, server: nat, ghost p: Pending)
      requires Shows(cfg, p)
      modifies this`servnEdns
      ensures Shows(cfg, p.(round := p.round.(noEdns := p.round.noEdns + {server})))
    {
      servnEdns := servnEdns + {server};
    }

    method SkipServer(cfg: Config, server: nat, ghost p: Pending)
      requires Shows(cfg, p)
      modifies this`servskip
      ensures Shows(cfg, p.(round := p.round.(skip := p.round.skip + {server})))
    {
      servskip := servskip + {server};
    }

    /** A sending has got out: a reply is expected from `server`, until the new deadline. */
    method Expect(cfg: Config, server: nat, now: nat, ghost p: Pending)
      requires Shows(cfg, p)
      modifies this`servwait, this`servi, this`deadline
      ensures Shows(cfg, Waiting(cfg, p, server, now))
    {
      servwait := servwait + {server};
      var found := FindServer(cfg.nserv);
      deadline := now + if found then 1 else Backoff(cfg, tryNo);
    }
  }

  lemma {:induction false} NameJoined(dn: seq<Byte>, size: nat, name: Name, suffix: Name)
    requires Labels(name) <= dn && size == |Labels(name)|
    ensures dn[..size] + Wire(suffix) == Wire(name + suffix) && Labels(name) <= Wire(name + suffix)
  {
    LabelsConcat(name, suffix);
    assert dn[..size] == Labels(name);
  }

  lemma WholeName(dn: seq<Byte>, n: seq<Label>)
    requires IsName(n) && dn == Wire(n)
    ensures HoldsAt(dn, 0, n)
  {
  }

  /** The root, and only the root, starts with a zero byte. */
  lemma RootByte(mem: seq<Byte>, i: nat, n: Name)
    requires HoldsAt(mem, i, n)
    ensures i < |mem| && i + |Wire(n)| <= |mem| && mem[i..i + |Wire(n)|] == Wire(n) && (mem[i] == 0 <==> n == [])
  {
    HoldsNext(mem, i, n);
  }

  // ---------- the search buffer ----------

  /** The suffixes with the closing root, one after the other. */
  function Buffer(names: seq<Name>): seq<Byte> {
    if names == [] then [] else Buffer(names[..|names| - 1]) + Wire(names[|names| - 1])
  }

  function Entries(cfg: Config): seq<Name> { cfg.suffixes + [[]] }

  function Offset(cfg: Config, k: nat): nat
    requires k <= |cfg.suffixes| + 1
  {
    |Buffer(Entries(cfg)[..k])|
  }

  lemma {:induction false} BufferPrefix(names: seq<Name>, k: nat)
    requires k <= |names|
    ensures Buffer(names[..k]) <= Buffer(names)
    decreases |names|
  {
    if k == |names| {
      assert names[..k] == names;
    } else {
      BufferPrefix(names[..|names| - 1], k);
      assert names[..|names| - 1][..k] == names[..k];
    }
  }

  /** Each entry stands at its offset, and the next one follows it. */
  lemma {:induction false} EntryAt(cfg: Config, k: nat)
    requires k <= |cfg.suffixes|
    ensures HoldsAt(Buffer(Entries(cfg)), Offset(cfg, k), Suffix(cfg, k))
    ensures Offset(cfg, k + 1) == Offset(cfg, k) + |Wire(Suffix(cfg, k))|
  {
    var e := Entries(cfg);
    assert e[k] == Suffix(cfg, k);
    assert e[..k + 1][..k] == e[..k] && e[..k + 1][k] == e[k];
    BufferPrefix(e, k + 1);
    var b, a, w := Buffer(e), Buffer(e[..k]), Wire(e[k]);
    assert a + w <= b;
    assert b[|a|..|a| + |w|] == (a + w)[|a|..];
  }

  lemma {:induction false} OffsetGrows(cfg: Config, j: nat, k: nat)
    requires j <= k <= |cfg.suffixes| + 1
    ensures Offset(cfg, j) <= Offset(cfg, k) && (j < k ==> Offset(cfg, j) < Offset(cfg, k))
    decreases k
  {
    if j < k {
      OffsetGrows(cfg, j, k - 1);
      EntryAt(cfg, k - 1);
    }
  }

  /** The cursor is past the buffer only past the closing root. */
  lemma {:induction false} BufferEnd(cfg: Config, k: nat)
    requires k <= |cfg.suffixes| + 1
    ensures Offset(cfg, k) >= |Buffer(Entries(cfg))| <==> k > |cfg.suffixes|
  {
    var n := |cfg.suffixes| + 1;
    assert Entries(cfg)[..n] == Entries(cfg);
    OffsetGrows(cfg, k, n);
  }

  lemma CursorEnds(cfg: Config)
    ensures Offset(cfg, 0) == 0 && Offset(cfg, |cfg.suffixes|) == |Buffer(Entries(cfg))| - 1
  {
    var n := |cfg.suffixes|;
    assert Entries(cfg)[..n + 1] == Entries(cfg);
    EntryAt(cfg, n);
  }

  // ---------- the list ----------

  function Nth(s: seq<Query>, i: int): Query? { if 0 <= i < |s| then s[i] else null }

  ghost predicate Distinct(s: seq<Query>) { forall i, j :: 0 <= i < j < |s| ==> s[i] != s[j] }

  lemma DistinctWith(s: seq<Query>, q: Query, k: nat)
    requires Distinct(s) && q !in s && k <= |s|
    ensures Distinct(s[..k] + [q] + s[k..])
  {
  }

  /** The neighbours of every query in the list. */
  ghost predicate Chained(s: seq<Query>)
    reads s`next, s`prev
  {
    && (forall i {:trigger s[i].next} :: 0 <= i < |s| ==> s[i].next == Nth(s, i + 1))
    && (forall i {:trigger s[i].prev} :: 0 <= i < |s| ==> s[i].prev == Nth(s, i - 1))
  }

  /** A query put between its neighbours. */
  lemma ChainedWith(s: seq<Query>, q: Query, k: nat)
    requires 0 < k <= |s| && q.prev == s[k - 1] && q.next == Nth(s, k) && s[k - 1].next == q && (k < |s| ==> s[k].prev == q)
    requires forall i {:trigger s[i].next} :: 0 <= i < |s| && i != k - 1 ==> s[i].next == Nth(s, i + 1)
    requires forall i {:trigger s[i].prev} :: 0 <= i < |s| && i != k ==> s[i].prev == Nth(s, i - 1)
    ensures Chained(s[..k] + [q] + s[k..])
  {
    var t := s[..k] + [q] + s[k..];
    forall i | 0 <= i < |t| ensures t[i].next == Nth(t, i + 1) && t[i].prev == Nth(t, i - 1) {
      assert t[i] == if i < k then s[i] else if i == k then q else s[i - 1];
    }
  }

  /** A query taken from between its neighbours. */
  lemma ChainedWithout(s: seq<Query>, i: nat)
    requires i < |s| && (i > 0 ==> s[i - 1].next == Nth(s, i + 1)) && (i + 1 < |s| ==> s[i + 1].prev == Nth(s, i - 1))
    requires forall j {:trigger s[j].next} :: 0 <= j < |s| && j != i - 1 ==> s[j].next == Nth(s, j + 1)
    requires forall j {:trigger s[j].prev} :: 0 <= j < |s| && j != i + 1 ==> s[j].prev == Nth(s, j - 1)
    ensures Chained(s[..i] + s[i + 1..])
  {
    var t := s[..i] + s[i + 1..];
    forall j | 0 <= j < |t| ensures t[j].next == Nth(t, j + 1) && t[j].prev == Nth(t, j - 1) {
      assert t[j] == if j < i then s[j] else s[j + 1];
    }
  }

  lemma GoneFrom(list: List, i: nat)
    requires list.Linked() && i < |list.order|
    ensures list.order[i] !in list.order[..i] + list.order[i + 1..]
  {
  }

  lemma MovedIn(s: seq<Query>, i: nat)
    requires i < |s|
    ensures forall j :: 0 <= j < |Moved(s, i)| ==> Moved(s, i)[j] in s
  {
    var rest := s[..i] + s[i + 1..];
    assert forall j :: 0 <= j < |rest| ==> rest[j] == s[if j < i then j else j + 1];
    var k := SpotIn(rest, s[i].deadline, |rest|);
    var t := Moved(s, i);
    forall j | 0 <= j < |t| ensures t[j] in s {
      assert t[j] == if j < k then rest[j] else if j == k then s[i] else rest[j - 1];
    }
  }

  lemma DistinctWithout(s: seq<Query>, i: nat)
    requires Distinct(s) && i < |s|
    ensures Distinct(s[..i] + s[i + 1..])
  {
  }

  /** The place of a deadline among the first `k` queries, from the tail. */
  ghost function SpotIn(s: seq<Query>, deadline: nat, k: nat): (r: nat)
    requires k <= |s|
    reads s`deadline
    ensures r <= k
  {
    if k == 0 || s[k - 1].deadline <= deadline then k else SpotIn(s, deadline, k - 1)
  }

  /** The list after its i-th query has gone to the place of its deadline. */
  ghost function Moved(s: seq<Query>, i: nat): seq<Query>
    requires i < |s|
    reads s`deadline
  {
    var rest := s[..i] + s[i + 1..];
    var k := SpotIn(rest, s[i].deadline, |rest|);
    rest[..k] + [s[i]] + rest[k..]
  }

  /** `struct dns_qlist` with its operations. */
  class List {
    var head: Query?
    var tail: Query?
    ghost var order: seq<Query>

    ghost predicate Linked()
      reads this, order`next, order`prev
    {
      Distinct(order) && Chained(order) && head == Nth(order, 0) && tail == Nth(order, |order| - 1)
    }

    constructor ()
      ensures Linked() && order == []
    {
      head, tail, order := null, null, [];
    }

    /** `qlist_init`. */
    method Init()
      modifies this
      ensures Linked() && order == []
    {
      head, tail, order := null, null, [];
    }

    /** `qlist_remove`. */
    method Remove(q: Query, ghost i: nat)
      requires Linked() && i < |order| && order[i] == q
      modifies this, order`next, order`prev
      ensures Linked() && order == old(order[..i] + order[i + 1..])
    {
      if q.prev != null { q.prev.next := q.next; } else { head := q.next; }
      if q.next != null { q.next.prev := q.prev; } else { tail := q.prev; }
      DistinctWithout(order, i);
      ChainedWithout(order, i);
      order := order[..i] + order[i + 1..];
    }

    /** `qlist_add_head`. */
    method AddHead(q: Query)
      requires Linked() && q !in order
      modifies this, order`prev, q`next, q`prev
      ensures Linked() && order == [q] + old(order)
    {
      q.next := head;
      if head != null { head.prev := q; } else { tail := q; }
      head := q;
      q.prev := null;
      order := [q] + order;
    }

    method InsertBehind(q: Query, p: Query, ghost k: nat)
      requires Linked() && q !in order && 0 < k <= |order| && p == order[k - 1]
      modifies this, order`next, order`prev, q`next, q`prev
      ensures Linked() && order == old(order[..k] + [q] + order[k..])
    {
      q.prev := p;
      q.next := p.next;
      if q.next != null { q.next.prev := q; } else { tail := q; }
      p.next := q;
      DistinctWith(order, q, k);
      ChainedWith(order, q, k);
      order := order[..k] + [q] + order[k..];
    }

    /** `qlist_insert_after`. */
    method InsertAfter(q: Query, p: Query?, ghost k: nat)
      requires Linked() && q !in order && k <= |order| && p == Nth(order, k - 1)
      modifies this, order`next, order`prev, q`next, q`prev
      ensures Linked() && order == old(order[..k] + [q] + order[k..])
    {
      hide Linked;
      if p == null {
        assert order[..0] + [q] + order[0..] == [q] + order;
        AddHead(q);
      } else {
        InsertBehind(q, p, k);
      }
    }

    /** The search from the tail for the place of a deadline. */
    method FindPlace(deadline: nat) returns (c: Query?, ghost k: nat)
      requires Linked()
      ensures k == SpotIn(order, deadline, |order|) && c == Nth(order, SpotIn(order, deadline, |order|) - 1)
    {
      c, k := tail, |order|;
      while c != null && c.deadline > deadline
        invariant k <= |order| && c == Nth(order, k - 1)
        invariant SpotIn(order, deadline, k) == SpotIn(order, deadline, |order|)
        decreases k
      {
        assert order[k - 1].prev == Nth(order, k - 2);
        c := c.prev;
        k := k - 1;
      }
    }

    /** The end of `dns_send_this`: the query goes to its place by its new deadline. */
    method Relocate(q: Query, ghost i: nat)
      requires Linked() && i < |order| && order[i] == q
      modifies this, order`next, order`prev
      ensures Linked() && order == old(Moved(order, i))
      ensures forall j :: 0 <= j < |order| ==> order[j] in old(order)
    {
      hide Linked, Distinct, Chained;
      GoneFrom(this, i);
      MovedIn(order, i);
      Remove(q, i);
      var c, k := FindPlace(q.deadline);
      InsertAfter(q, c, k);
    }
  }
}
