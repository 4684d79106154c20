/** `struct dns_ctx` and its operations over the list of queries, proved to do the steps of the model. */
module ResolverContext {
  import opened Ascii
  import opened Options
  import opened DnsNames
  import opened DnsPacket
  import DnsRecords
  import opened Resolver
  import opened ResolverSearch
  import opened ResolverRuns
  import opened ResolverTime
  import opened ResolverQueue

  /** The callbacks made, by handle. */
  function Calls(done: seq<Completion>): seq<(nat, Status)> {
    if done == [] then []
    else Calls(done[..|done| - 1]) + [(done[|done| - 1].q.ask.handle, done[|done| - 1].status)]
  }

  lemma NoCalls()
    ensures Calls([]) == []
  {
  }

  lemma CallsMore(done: seq<Completion>, c: Completion)
    ensures Calls(done + [c]) == Calls(done) + [(c.q.ask.handle, c.status)]
  {
    assert (done + [c])[..|done|] == done;
  }

  /** The objects stand for the queries. */
  ghost predicate Shown(cfg: Config, order: seq<Query>, active: seq<Pending>)
    reads order`dn, order`id, order`asisDone, order`seenNodata, order`nxtsrch, order`deadline
    reads order`tryNo, order`servi, order`servwait, order`servskip, order`servnEdns
  {
    |order| == |active| && forall i :: 0 <= i < |order| ==> order[i].Shows(cfg, active[i])
  }

  lemma ShownWithout(cfg: Config, order: seq<Query>, active: seq<Pending>, i: nat, p: Pending)
    requires i < |active| && Shown(cfg, order, active[i := p])
    ensures Shown(cfg, order[..i] + order[i + 1..], Drop(active, i))
  {
  }

  lemma ShownBack(cfg: Config, order: seq<Query>, active: seq<Pending>, i: nat, p: Pending)
    requires i < |active| == |order| && order[i].Shows(cfg, p) && Shown(cfg, order[..i] + order[i + 1..], Drop(active, i))
    ensures Shown(cfg, order, active[i := p])
  {
    var rest := order[..i] + order[i + 1..];
    forall j | 0 <= j < |order| && j != i ensures order[j].Shows(cfg, active[j]) {
      assert rest[if j < i then j else j - 1] == order[j];
    }
  }

  lemma ShownWith(cfg: Config, order: seq<Query>, active: seq<Pending>, q: Query, p: Pending, k: nat)
    requires Shown(cfg, order, active) && q.Shows(cfg, p) && k <= |order|
    ensures Shown(cfg, order[..k] + [q] + order[k..], active[..k] + [p] + active[k..])
  {
  }

  lemma {:induction false} SameSpot(cfg: Config, order: seq<Query>, active: seq<Pending>, deadline: nat, k: nat)
    requires Shown(cfg, order, active) && k <= |order|
    ensures SpotIn(order, deadline, k) == Spot(active, deadline, k)
    decreases k
  {
    hide Query.Shows;
    if k > 0 {
      ShownDeadline(cfg, order[k - 1], active[k - 1]);
      SameSpot(cfg, order, active, deadline, k - 1);
    }
  }

  lemma ShownMoved(cfg: Config, order: seq<Query>, active: seq<Pending>, i: nat, p: Pending)
    requires i < |active| && Shown(cfg, order, active[i := p])
    ensures |order| == |active| && |Moved(order, i)| == |order|
    ensures Shown(cfg, Moved(order, i), Place(Drop(active, i), p)) && |Place(Drop(active, i), p)| == |active|
  {
    hide Query.Shows;
    ShownAt(cfg, order, active[i := p], i);
    ShownDeadline(cfg, order[i], p);
    ShownWithout(cfg, order, active, i, p);
    var rest := order[..i] + order[i + 1..];
    SameSpot(cfg, rest, Drop(active, i), p.deadline, |rest|);
    ShownWith(cfg, rest, Drop(active, i), order[i], p, SpotIn(rest, p.deadline, |rest|));
  }

  lemma ShownAt(cfg: Config, order: seq<Query>, active: seq<Pending>, i: nat)
    requires Shown(cfg, order, active) && i < |active|
    ensures |order| == |active| && order[i].Shows(cfg, active[i])
  {
  }

  lemma ShownSize(cfg: Config, order: seq<Query>, active: seq<Pending>)
    requires Shown(cfg, order, active)
    ensures |order| == |active|
  {
  }

  lemma ShownDeadline(cfg: Config, q: Query, p: Pending)
    requires q.Shows(cfg, p)
    ensures q.deadline == p.deadline && q.handle == p.ask.handle && q.id == p.id
  {
  }

  lemma NoneShown(cfg: Config, order: seq<Query>, active: seq<Pending>)
    requires order == [] && active == []
    ensures Shown(cfg, order, active)
  {
  }

  lemma TriedShown(cfg: Config, q: Query, p: Pending, again: bool)
    requires q.Shows(cfg, p)
    ensures q.Shows(cfg, Tried(p, again)) && Tried(p, again).ask == p.ask
  {
  }

  lemma ListHead(list: List)
    requires list.Linked()
    ensures list.head == null <==> list.order == []
    ensures list.order != [] ==> list.head == list.order[0]
  {
  }

  lemma {:induction false} TwoPlaces(s: seq<Pending>, i: nat, j: nat)
    requires j < i < |s| && s[i].ask.handle == s[j].ask.handle
    ensures Handles(s)[s[i].ask.handle] >= 2
  {
    hide Handles;
    Dropped(s, i, 0);
    assert Drop(s, i)[j] == s[j];
    Dropped(Drop(s, i), j, 0);
  }

  /** A handle leads to one query only. */
  lemma {:induction false} OneIndex(cfg: Config, sys: System, i: nat)
    requires Inv(cfg, sys, 0) && i < |sys.active|
    ensures IndexOfHandle(sys.active, sys.active[i].ask.handle) == i
  {
    hide Sorted, Good, Closed, Within, AllSent, Partition;
    var h := sys.active[i].ask.handle;
    var j := IndexOfHandle(sys.active, h);
    PartitionCounts(sys, h);
    if j < i {
      TwoPlaces(sys.active, i, j);
      assert false;
    }
  }

  ghost predicate SameIds(order: seq<Query>, active: seq<Pending>)
    reads order`id
  {
    |order| == |active| && forall i :: 0 <= i < |order| ==> order[i].id == active[i].id
  }

  lemma ShownIds(cfg: Config, order: seq<Query>, active: seq<Pending>, i: nat, p: Pending)
    requires i < |active| && Shown(cfg, order, active[i := p]) && p.id == active[i].id
    ensures SameIds(order, active)
  {
    hide Query.Shows;
    forall j | 0 <= j < |order| ensures order[j].id == active[j].id {
      ShownAt(cfg, order, active[i := p], j);
      ShownDeadline(cfg, order[j], active[i := p][j]);
    }
  }

  lemma ShownWaits(cfg: Config, q: Query, p: Pending)
    requires q.Shows(cfg, p)
    ensures q.servwait == p.round.wait && q.servnEdns == p.round.noEdns && q.seenNodata == p.search.seenNodata
  {
  }

  lemma ShownIdsAll(cfg: Config, order: seq<Query>, active: seq<Pending>)
    requires Shown(cfg, order, active)
    ensures SameIds(order, active)
  {
  }

  lemma ShortName(name: Name, dn: seq<Byte>)
    requires dn == Wire(name) && |dn| <= MAX_DN
    ensures Short(name, [])
  {
  }

  lemma ShownHead(cfg: Config, order: seq<Query>, active: seq<Pending>, q: Query, p: Pending)
    requires Shown(cfg, order, active) && q.Shows(cfg, p)
    ensures Shown(cfg, [q] + order, [p] + active) && |order| == |active|
  {
  }

  /** `loop` draws have been made, and more are to come. */
  predicate Drawing(cfg: Config, active: seq<Pending>, first: nat, loop: nat)
    requires loop < ID_DRAWS
  {
    Draws(cfg, active, first, ID_DRAWS - 1) == loop + Draws(cfg, active, first + loop, ID_DRAWS - 1 - loop)
  }

  lemma DrawingStarts(cfg: Config, active: seq<Pending>, first: nat)
    ensures Drawing(cfg, active, first, 0)
  {
    hide Draws;
  }

  lemma DrawingStep(cfg: Config, active: seq<Pending>, first: nat, loop: nat)
    requires loop < ID_DRAWS && Drawing(cfg, active, first, loop)
    ensures if !HasId(active, cfg.draw(first + loop)) || loop + 1 == ID_DRAWS then Draws(cfg, active, first, ID_DRAWS - 1) == loop + 1
            else Drawing(cfg, active, first, loop + 1)
  {
    hide HasId;
  }

  lemma LinkedAt(list: List, k: nat)
    requires list.Linked() && k <= |list.order|
    ensures k == |list.order| ==> list.tail == Nth(list.order, k - 1)
    ensures k < |list.order| ==> list.order[k].prev == Nth(list.order, k - 1) && list.order[k].next == Nth(list.order, k + 1)
    ensures list.head == Nth(list.order, 0)
  {
  }

  function ReceiveAll(cfg: Config, s: System, packets: seq<(seq<Byte>, nat)>, now: nat): System {
    if packets == [] then s
    else
      var n := |packets| - 1;
      Resolver.Receive(cfg, ReceiveAll(cfg, s, packets[..n], now), packets[n].0, packets[n].1, now)
  }

  class Context {
    const cfg: Config
    const srchbuf: seq<Byte>
    const list: List
    var nactive: int
    var sends: nat
    var draws: nat
    var submitted: nat
    var called: seq<(nat, Status)>
    ghost var sys: System

    ghost predicate Base()
      reads this, list, list.order
    {
      && list.Linked() && nactive == |list.order| && srchbuf == Buffer(Entries(cfg))
      && sends == sys.sends && draws == sys.draws && submitted == sys.submitted && called == Calls(sys.done)
    }

    ghost predicate Valid()
      reads this, list, list.order
    {
      Base() && Shown(cfg, list.order, sys.active)
    }

    /** All is in order but for the i-th query, which has become `p`. */
    ghost predicate Holding(i: nat, p: Pending)
      reads this, list, list.order
    {
      Base() && i < |sys.active| && Shown(cfg, list.order, sys.active[i := p])
    }

    constructor (cfg: Config, srchbuf: seq<Byte>)
      requires srchbuf == Buffer(Entries(cfg)) && IsConfig(cfg)
      ensures this.cfg == cfg && fresh(list) && Valid() && sys == START
    {
      hide Shown, List.Linked, Calls, Buffer, Entries, IsConfig, Query.Shows;
      this.cfg, this.srchbuf := cfg, srchbuf;
      list := new List();
      nactive, sends, draws, submitted, called, sys := 0, 0, 0, 0, [], START;
      new;
      NoneShown(cfg, list.order, sys.active);
      NoCalls();
    }

    /** `dns_end_query`; `p` is the query as its object shows it, `told` as the history keeps it. */
    method EndQuery(q: Query, status: Status, ghost i: nat, ghost p: Pending, ghost told: Pending)
      requires Holding(i, p) && q == list.order[i] && told.ask == p.ask
      modifies this, list, list.order`next, list.order`prev
      ensures Valid() && sys == End(old(sys), i, told, status)
      ensures forall k :: 0 <= k < |list.order| ==> list.order[k] in old(list.order)
    {
      hide Shown, List.Linked, Query.Shows, Calls, Drop;
      ghost var order := list.order;
      ShownAt(cfg, order, sys.active[i := p], i);
      ShownDeadline(cfg, q, p);
      nactive := nactive - 1;
      list.Remove(q, i);
      ShownWithout(cfg, order, sys.active, i, p);
      assert forall k :: 0 <= k < |list.order| ==> list.order[k] == order[if k < i then k else k + 1];
      CallsMore(sys.done, Completion(told, status));
      called := called + [(q.handle, status)];
      sys := End(sys, i, told, status);
    }

    /** The end of `dns_send_this`: the query goes to its place by its new deadline. */
    method Requeue(q: Query, ghost i: nat, ghost p: Pending)
      requires Holding(i, p) && q == list.order[i]
      modifies this, list, list.order`next, list.order`prev
      ensures Valid() && sys == old(sys).(active := Place(Drop(old(sys).active, i), p))
      ensures forall k :: 0 <= k < |list.order| ==> list.order[k] in old(list.order)
    {
      hide Shown, List.Linked, Query.Shows, Calls, Drop, Place, Moved;
      ghost var order := list.order;
      ShownSize(cfg, order, sys.active[i := p]);
      list.Relocate(q, i);
      ShownMoved(cfg, order, sys.active, i, p);
      sys := sys.(active := Place(Drop(sys.active, i), p));
    }

    /** `dns_send_this`. */
    method SendTo(q: Query, server: nat, now: nat, ghost again: bool, ghost i: nat, ghost p: Pending)
      requires Holding(i, p) && q == list.order[i]
      modifies this, list, list.order
      ensures Valid() && sys == SendThis(cfg, old(sys), i, p, server, again, now)
      ensures forall k :: 0 <= k < |list.order| ==> list.order[k] in old(list.order)
    {
      hide Shown, List.Linked, Query.Shows, Calls, Drop, Place, Waiting;
      ghost var order, active := list.order, sys.active;
      ShownAt(cfg, order, active[i := p], i);
      ghost var t := Tried(p, again);
      TriedShown(cfg, q, p, again);
      var sent := cfg.net(sends);
      sends, sys := sends + 1, sys.(sends := sys.sends + 1);
      if !sent {
        EndQuery(q, Unsent, i, p, t);
        return;
      }
      GoneFrom(list, i);
      ShownWithout(cfg, order, active, i, p);
      q.Expect(cfg, server, now, t);
      ShownBack(cfg, order, active, i, Waiting(cfg, t, server, now));
      Requeue(q, i, Waiting(cfg, t, server, now));
    }

    /** `dns_send`. */
    method Send(q: Query, now: nat, ghost i: nat, ghost p: Pending)
      requires Holding(i, p) && q == list.order[i]
      modifies this, list, list.order
      ensures Valid() && sys == Resolver.Send(cfg, old(sys), i, p, now)
      ensures forall k :: 0 <= k < |list.order| ==> list.order[k] in old(list.order)
    {
      hide Shown, List.Linked, Query.Shows, Calls, Drop, NextServer, SendThis, End;
      ghost var order, active := list.order, sys.active;
      ShownAt(cfg, order, active[i := p], i);
      GoneFrom(list, i);
      ShownWithout(cfg, order, active, i, p);
      var found, server, shown := q.TakeTurn(cfg, p);
      ShownBack(cfg, order, active, i, shown);
      if found {
        SendTo(q, server, now, false, i, shown);
      } else {
        EndQuery(q, GivenUp, i, shown, p);
      }
    }

    /** One turn of the loop in `dns_timeouts`: the query at the head is due. */
    method SendHead(q: Query, now: nat)
      requires Valid() && IsConfig(cfg) && Inv(cfg, sys, 0) && q == list.head && q.deadline <= now
      modifies this, list, list.order
      ensures Valid() && Inv(cfg, sys, 0) && Expired(sys.active, now) < old(Expired(sys.active, now))
      ensures ResolverTime.Timeouts(cfg, sys, now) == ResolverTime.Timeouts(cfg, old(sys), now)
      ensures forall k :: 0 <= k < |list.order| ==> list.order[k] in old(list.order)
    {
      hide Shown, List.Linked, Query.Shows, Calls, IsConfig, Inv, Resolver.Send, Expired;
      ListHead(list);
      ShownSize(cfg, list.order, sys.active);
      ShownAt(cfg, list.order, sys.active, 0);
      ShownDeadline(cfg, q, sys.active[0]);
      HeadGood(cfg, sys);
      SendSettles(cfg, sys, now);
      SendInv(cfg, sys, 0, sys.active[0], now);
      assert sys.active[0 := sys.active[0]] == sys.active;
      Send(q, now, 0, sys.active[0]);
    }

    /** `dns_timeouts`. */
    method Timeouts(maxwait: int, now: nat) returns (wait: int)
      requires Valid() && IsConfig(cfg) && Inv(cfg, sys, 0)
      modifies this, list, list.order
      ensures Valid() && Inv(cfg, sys, 0) && sys == ResolverTime.Timeouts(cfg, old(sys), now)
      ensures wait == Wait(sys.active, maxwait, now)
      ensures forall k :: 0 <= k < |list.order| ==> list.order[k] in old(list.order)
    {
      hide Shown, List.Linked, Query.Shows, Calls, IsConfig, Inv, Expired;
      wait := maxwait;
      var q := list.head;
      while q != null
        invariant Valid() && Inv(cfg, sys, 0) && q == list.head
        invariant ResolverTime.Timeouts(cfg, sys, now) == ResolverTime.Timeouts(cfg, old(sys), now)
        invariant forall k :: 0 <= k < |list.order| ==> list.order[k] in old(list.order)
        decreases Expired(sys.active, now)
      {
        if q.deadline > now {
          ListHead(list);
          ShownSize(cfg, list.order, sys.active);
          ShownAt(cfg, list.order, sys.active, 0);
          ShownDeadline(cfg, q, sys.active[0]);
          var w := Int32(q.deadline - now);
          if maxwait < 0 || maxwait > w { wait := w; }
          return;
        }
        SendHead(q, now);
        q := list.head;
      }
      ListHead(list);
      ShownSize(cfg, list.order, sys.active);
    }

    /** `dns_cancel`. */
    method Cancel(q: Query, ghost i: nat)
      requires Valid() && Inv(cfg, sys, 0) && i < |list.order| && q == list.order[i]
      modifies this, list, list.order`next, list.order`prev
      ensures Valid() && Inv(cfg, sys, 0) && sys == Resolver.Cancel(old(sys), q.handle)
      ensures list.order == old(list.order[..i] + list.order[i + 1..])
    {
      hide Shown, List.Linked, Query.Shows, Calls, Inv, Drop;
      ghost var order, p := list.order, sys.active;
      ShownSize(cfg, order, p);
      ShownAt(cfg, order, p, i);
      ShownDeadline(cfg, q, p[i]);
      OneIndex(cfg, sys, i);
      CancelInv(cfg, sys, q.handle);
      list.Remove(q, i);
      assert p[i := p[i]] == p;
      ShownWithout(cfg, order, p, i, p[i]);
      nactive := nactive - 1;
      sys := sys.(active := Drop(p, i), cancelled := sys.cancelled + [p[i]]);
    }

    /** The part of `dns_close` about the queries: every query is freed once, in the order of the list, its link
        being read before, and no callback is made. */
    method Close() returns (freed: seq<Query>)
      requires Valid() && Inv(cfg, sys, 0)
      modifies this, list
      ensures Valid() && Inv(cfg, sys, 0) && sys == Resolver.Close(old(sys)) && list.order == []
      ensures freed == old(list.order) && called == old(called)
    {
      hide Shown, List.Linked, Query.Shows, Calls, Inv;
      ghost var order := list.order;
      freed := [];
      LinkedAt(list, 0);
      var q := list.head;
      while q != null
        invariant |freed| <= |order| && freed == order[..|freed|] && q == Nth(order, |freed|)
        modifies {}
        decreases |order| - |freed|
      {
        LinkedAt(list, |freed|);
        var p := q;
        q := q.next;
        freed := freed + [p];
      }
      assert order[..|order|] == order;
      list.Init();
      nactive := 0;
      CloseInv(cfg, sys);
      sys := Resolver.Close(sys);
      NoneShown(cfg, list.order, sys.active);
    }

    // ---------- ids and names ----------

    /** The scan of `dns_newid` over the list. */
    method IdUsed(id: nat, ghost active: seq<Pending>) returns (used: bool)
      requires list.Linked() && SameIds(list.order, active)
      ensures used == HasId(active, id)
    {
      hide List.Linked;
      var c := list.head;
      ghost var k: nat := 0;
      LinkedAt(list, 0);
      while c != null
        invariant k <= |active| && c == Nth(list.order, k)
        invariant forall j :: 0 <= j < k ==> active[j].id != id
        decreases |active| - k
      {
        LinkedAt(list, k);
        if c.id == id { return true; }
        c := c.next;
        k := k + 1;
      }
      used := false;
    }

    /** `dns_newid`: up to five draws for an id that is not in use. */
    method PickId(ghost active: seq<Pending>) returns (id: nat)
      requires list.Linked() && SameIds(list.order, active)
      modifies this`draws
      ensures var n := Draws(cfg, active, old(draws), ID_DRAWS - 1);
        draws == old(draws) + n && id == cfg.draw(old(draws) + n - 1)
    {
      hide List.Linked, SameIds, HasId, Draws, Drawing;
      var loop: nat := 0;
      DrawingStarts(cfg, active, draws);
      while true
        invariant loop < ID_DRAWS && Drawing(cfg, active, draws, loop)
        modifies {}
        decreases ID_DRAWS - loop
      {
        DrawingStep(cfg, active, draws, loop);
        id := cfg.draw(draws + loop);
        var used := IdUsed(id, active);
        loop := loop + 1;
        if !used || loop == ID_DRAWS { break; }
      }
      draws := draws + loop;
    }

    /** The rest of `dns_newid`. */
    method NewId(q: Query, ghost p: Pending, ghost s: System)
      requires list.Linked() && SameIds(list.order, s.active) && q.Shows(cfg, p) && s.draws == draws
      modifies this`draws, q`id, q`tryNo, q`servi, q`servwait, q`servskip, q`servnEdns
      ensures draws == Drawn(cfg, s).draws && q.Shows(cfg, WithId(cfg, s, p))
    {
      hide List.Linked, SameIds, HasId, Draws;
      q.id := PickId(s.active);
      q.tryNo, q.servi := 0, 0;
      q.servwait, q.servskip, q.servnEdns := {}, {}, {};
    }

    /** `dns_newid` for a query in the list. */
    method Renew(q: Query, ghost i: nat, ghost p: Pending)
      requires Holding(i, p) && q == list.order[i] && p.id == sys.active[i].id
      modifies this`draws, this`sys, q`id, q`tryNo, q`servi, q`servwait, q`servskip, q`servnEdns
      ensures sys == Drawn(cfg, old(sys)) && Holding(i, WithId(cfg, old(sys), p))
    {
      hide Shown, List.Linked, Query.Shows, Calls, Drop, SameIds, Draws, Buffer;
      ghost var order, active := list.order, sys.active;
      ShownIds(cfg, order, active, i, p);
      ShownAt(cfg, order, active[i := p], i);
      GoneFrom(list, i);
      ShownWithout(cfg, order, active, i, p);
      NewId(q, p, sys);
      ShownBack(cfg, order, active, i, WithId(cfg, sys, p));
      sys := Drawn(cfg, sys);
    }

    /** `dns_next_srch` up to the new id. */
    method TurnToName(q: Query, ghost i: nat, ghost p: Pending) returns (found: bool, ghost shown: Pending, ghost k: nat)
      requires Holding(i, p) && q == list.order[i]
      modifies q`nxtsrch, q`dn, q`asisDone
      ensures k == NextEntry(cfg, p.ask.name, p.search.asisDone, p.search.next) && found == (k <= |cfg.suffixes|)
      ensures Holding(i, shown) && shown.ask == p.ask && (found ==> shown == OnName(cfg, p, k))
    {
      hide Shown, List.Linked, Query.Shows, Calls, Drop, NextEntry, Draws, Buffer, Entries, OnName, Place;
      ghost var order, active := list.order, sys.active;
      ShownAt(cfg, order, active[i := p], i);
      GoneFrom(list, i);
      ShownWithout(cfg, order, active, i, p);
      found, shown, k := q.NextName(cfg, srchbuf, p);
      assert Shown(cfg, order[..i] + order[i + 1..], Drop(active, i));
      ShownBack(cfg, order, active, i, shown);
    }

    /** `dns_next_srch`. */
    method NextSearch(q: Query, ghost i: nat, ghost p: Pending) returns (found: bool, ghost shown: Pending, ghost k: nat)
      requires Holding(i, p) && q == list.order[i] && p.id == sys.active[i].id
      modifies this`draws, this`sys, q`nxtsrch, q`dn, q`asisDone
      modifies q`id, q`tryNo, q`servi, q`servwait, q`servskip, q`servnEdns
      ensures k == NextEntry(cfg, p.ask.name, p.search.asisDone, p.search.next) && found == (k <= |cfg.suffixes|)
      ensures Holding(i, shown) && shown.ask == p.ask
      ensures found ==> shown == OnEntry(cfg, old(sys), p, k) && sys == Drawn(cfg, old(sys))
      ensures !found ==> sys == old(sys)
    {
      hide Base, Shown, NextEntry, Draws;
      ghost var s := sys;
      found, shown, k := TurnToName(q, i, p);
      if found {
        Renew(q, i, shown);
        shown := OnEntry(cfg, s, p, k);
      }
    }

    /** DNS_SEEN_NODATA. */
    method Mark(q: Query, seen: bool, ghost i: nat, ghost p: Pending)
      requires Holding(i, p) && q == list.order[i]
      modifies q`seenNodata
      ensures Holding(i, p.(search := p.search.(seenNodata := seen)))
    {
      hide Shown, List.Linked, Query.Shows, Calls, Drop, Buffer;
      ghost var order, active := list.order, sys.active;
      ShownAt(cfg, order, active[i := p], i);
      GoneFrom(list, i);
      ShownWithout(cfg, order, active, i, p);
      q.MarkSeen(cfg, seen, p);
      ShownBack(cfg, order, active, i, p.(search := p.search.(seenNodata := seen)));
    }

    /** The search goes on with the next name, or ends. */
    method SearchFurther(q: Query, now: nat, seen: bool, ghost i: nat, ghost p: Pending)
      requires Holding(i, p) && q == list.order[i] && p.id == sys.active[i].id
      modifies this, list, list.order
      ensures Valid() && sys == SearchOn(cfg, old(sys), i, p, now, seen)
      ensures forall k :: 0 <= k < |list.order| ==> list.order[k] in old(list.order)
    {
      hide Shown, Base, NextEntry, Draws, Resolver.Send, End;
      ShownSize(cfg, list.order, sys.active[i := p]);
      var found, shown, k := NextSearch(q, i, p);
      if found {
        Mark(q, seen, i, shown);
        Send(q, now, i, shown.(search := shown.search.(seenNodata := seen)));
      } else {
        EndQuery(q, if seen then NoData else NxDomain, i, shown, p);
      }
    }

    // ---------- replies ----------

    /** The search for the query of a reply, by id. */
    method FindQuery(id: nat) returns (q: Query?, ghost i: nat)
      requires Valid()
      ensures i == IndexOfId(sys.active, id) && |list.order| == |sys.active|
      ensures q == Nth(list.order, IndexOfId(sys.active, id))
    {
      hide List.Linked, Shown, Query.Shows, Calls, Buffer;
      ghost var active := sys.active;
      ShownSize(cfg, list.order, active);
      q := list.head;
      i := 0;
      LinkedAt(list, 0);
      while q != null
        invariant i <= |active| && q == Nth(list.order, i)
        invariant forall j :: 0 <= j < i ==> active[j].id != id
        decreases |active| - i
      {
        LinkedAt(list, i);
        ShownAt(cfg, list.order, active, i);
        ShownDeadline(cfg, q, active[i]);
        if q.id == id { return; }
        q := q.next;
        i := i + 1;
      }
    }

    /** A server that did not do: it is skipped from now on, and the next one is asked when no reply is
        expected any more. */
    method BadReply(q: Query, server: nat, now: nat, ghost i: nat, ghost p: Pending)
      requires Holding(i, p) && q == list.order[i]
      modifies this, list, list.order
      ensures Valid() && sys ==
        (var t := p.(round := p.round.(skip := p.round.skip + {server}));
         if t.round.wait == {} then Resolver.Send(cfg, old(sys), i, t, now) else old(sys).(active := old(sys).active[i := t]))
      ensures forall k :: 0 <= k < |list.order| ==> list.order[k] in old(list.order)
    {
      hide Shown, List.Linked, Query.Shows, Calls, Drop, Buffer, Resolver.Send;
      ghost var order, active := list.order, sys.active;
      ShownAt(cfg, order, active[i := p], i);
      ShownWaits(cfg, q, p);
      GoneFrom(list, i);
      ShownWithout(cfg, order, active, i, p);
      q.SkipServer(cfg, server, p);
      ghost var t := p.(round := p.round.(skip := p.round.skip + {server}));
      ShownBack(cfg, order, active, i, t);
      if q.servwait == {} {
        Send(q, now, i, t);
      } else {
        sys := sys.(active := sys.active[i := t]);
      }
    }

    /** A server that refuses EDNS0 is asked again without. */
    method AskAgain(q: Query, server: nat, now: nat, ghost i: nat, ghost p: Pending)
      requires Holding(i, p) && q == list.order[i]
      modifies this, list, list.order
      ensures Valid() && sys ==
        SendThis(cfg, old(sys), i, p.(round := p.round.(noEdns := p.round.noEdns + {server})), server, true, now)
      ensures forall k :: 0 <= k < |list.order| ==> list.order[k] in old(list.order)
    {
      hide Shown, List.Linked, Query.Shows, Calls, Drop, Buffer, SendThis;
      ghost var order, active := list.order, sys.active;
      ShownAt(cfg, order, active[i := p], i);
      GoneFrom(list, i);
      ShownWithout(cfg, order, active, i, p);
      q.RefuseEdns(cfg, server, p);
      ghost var t := p.(round := p.round.(noEdns := p.round.noEdns + {server}));
      ShownBack(cfg, order, active, i, t);
      SendTo(q, server, now, true, i, t);
    }

    method Note(q: Query, server: nat, ghost pkt: seq<Byte>, ghost i: nat)
      requires Valid() && i < |list.order| && q == list.order[i]
      modifies q`servwait
      ensures i < |sys.active| && Holding(i, Got(sys.active[i], server, pkt))
    {
      hide Shown, List.Linked, Query.Shows, Calls, Drop, Buffer, Got;
      ghost var order, active := list.order, sys.active;
      ShownSize(cfg, order, active);
      ShownAt(cfg, order, active, i);
      GoneFrom(list, i);
      assert active[i := active[i]] == active;
      ShownWithout(cfg, order, active, i, active[i]);
      q.NoteReply(cfg, server, pkt, active[i]);
      ShownBack(cfg, order, active, i, Got(active[i], server, pkt));
    }

    /** The switch over the reply code. */
    method ProcessReply(q: Query, pkt: seq<Byte>, server: nat, now: nat, ghost i: nat)
      requires Valid() && i < |list.order| && q == list.order[i] && |pkt| >= HEADER
      modifies this, list, list.order
      ensures i < |old(sys).active| && Valid() && sys == Process(cfg, old(sys), i, pkt, server, now)
      ensures forall k :: 0 <= k < |list.order| ==> list.order[k] in old(list.order)
    {
      hide Shown, Base, Query.Shows, KindOf, SearchOn, Resolver.Send, SendThis, End;
      var kind := KindOf(pkt);
      Note(q, server, pkt, i);
      ghost var p := sys.active[i];
      ghost var g := Got(p, server, pkt);
      ShownAt(cfg, list.order, sys.active[i := g], i);
      ShownWaits(cfg, q, g);
      if kind == Answer {
        EndQuery(q, Answered(pkt, server), i, g, p);
      } else if kind == Empty {
        SearchFurther(q, now, true, i, g);
      } else if kind == NoName {
        SearchFurther(q, now, q.seenNodata, i, g);
      } else if kind == Refused && cfg.edns && server !in q.servnEdns {
        AskAgain(q, server, now, i, g);
      } else {
        BadReply(q, server, now, i, g);
      }
    }

    /** One datagram in `dns_ioevent`; `server` is the number of the server it came from, or any other
        number when it came from elsewhere. */
    method Receive(pkt: seq<Byte>, server: nat, now: nat)
      requires Valid() && IsConfig(cfg) && Inv(cfg, sys, 0)
      modifies this, list, list.order
      ensures Valid() && Inv(cfg, sys, 0) && sys == Resolver.Receive(cfg, old(sys), pkt, server, now)
      ensures forall k :: 0 <= k < |list.order| ==> list.order[k] in old(list.order)
    {
      hide Shown, Base, Query.Shows, Process, IsConfig, Inv, Concerns;
      ReceiveInv(cfg, sys, pkt, server, now);
      if |pkt| < HEADER || DnsRecords.Get16(pkt, 4) > 1 || (pkt[2] as int / 8) % 16 != 0 { return; }
      var q, i := FindQuery(DnsRecords.Get16(pkt, 0));
      if q == null { return; }
      ShownAt(cfg, list.order, sys.active, i);
      ShownWaits(cfg, q, sys.active[i]);
      var mine := q.IsFor(cfg, pkt, sys.active[i]);
      if !mine || server !in q.servwait { return; }
      ProcessReply(q, pkt, server, now, i);
    }

    /** `dns_ioevent`: the datagrams at hand, one after the other. */
    method IoEvent(packets: seq<(seq<Byte>, nat)>, now: nat)
      requires Valid() && IsConfig(cfg) && Inv(cfg, sys, 0)
      modifies this, list, list.order
      ensures Valid() && Inv(cfg, sys, 0) && sys == ReceiveAll(cfg, old(sys), packets, now)
    {
      hide Shown, Base, IsConfig, Inv, Resolver.Receive;
      var n: nat := 0;
      while n < |packets|
        invariant n <= |packets| && Valid() && Inv(cfg, sys, 0) && sys == ReceiveAll(cfg, old(sys), packets[..n], now)
        invariant forall k :: 0 <= k < |list.order| ==> list.order[k] in old(list.order)
      {
        assert packets[..n + 1][..n] == packets[..n];
        Receive(packets[n].0, packets[n].1, now);
        n := n + 1;
      }
      assert packets[..n] == packets;
    }

    // ---------- submitting ----------

    /** The first half of `dns_submit_dn`: the query, not yet in the list. */
    method Create(dn: seq<Byte>, noSearch: bool, typ: nat, cls: nat, ghost ask: Ask) returns (q: Query)
      requires Valid() && dn == Wire(ask.name) && Short(ask.name, []) && ask == Ask(submitted, ask.name, noSearch, typ, cls)
      modifies this`draws, this`sys
      ensures Valid() && sys == Drawn(cfg, old(sys)) && fresh(q) && q.Shows(cfg, Submitted(cfg, old(sys), ask))
    {
      hide Shown, List.Linked, Query.Shows, Calls, Buffer, Draws, SameIds, Prepared, Short, Wire;
      ShownIdsAll(cfg, list.order, sys.active);
      q := new Query(cfg, submitted, typ, cls, dn, ask);
      q.Prepare(cfg, srchbuf, noSearch, ask);
      NewId(q, Prepared(cfg, ask), sys);
      sys := Drawn(cfg, sys);
    }

    /** `dns_submit_dn`. */
    method Submit(dn: seq<Byte>, noSearch: bool, typ: nat, cls: nat, ghost name: Name) returns (q: Query)
      requires Valid() && IsConfig(cfg) && Inv(cfg, sys, 0) && dn == Wire(name) && |dn| <= MAX_DN
      modifies this, list, list.order`prev
      ensures Short(name, []) && Valid() && Inv(cfg, sys, 0) && sys == Resolver.Submit(cfg, old(sys), name, noSearch, typ, cls)
      ensures fresh(q) && list.order == [q] + old(list.order)
    {
      hide Shown, List.Linked, Query.Shows, IsConfig, Inv, Calls, Buffer, Draws, Submitted, Short, Wire;
      ghost var s, order := sys, list.order;
      ghost var ask := Ask(s.submitted, name, noSearch, typ, cls);
      ShortName(name, dn);
      SubmitInv(cfg, s, name, noSearch, typ, cls);
      q := Create(dn, noSearch, typ, cls, ask);
      list.AddHead(q);
      ShownHead(cfg, order, s.active, q, Submitted(cfg, s, ask));
      nactive, submitted := nactive + 1, submitted + 1;
      sys := Resolver.Submit(cfg, s, name, noSearch, typ, cls);
    }
  }
}
