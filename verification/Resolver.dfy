/** The stub resolver as a machine over values (ext/udns-0.4/udns_resolver.c): the queries in flight,
    what each step does to them, and the history the claims speak about. */
module Resolver {
  import opened Ascii
  import opened Options
  import opened DnsNames
  import opened DnsPacket
  import DnsRecords

  const FORMERR: nat := 1
  const NXDOMAIN: nat := 3
  const NOTIMPL: nat := 4
  const ID_DRAWS: nat := 5

  type Name = n: seq<Label> | IsName(n) witness []

  /** Settings and surroundings. `net(k)` says if the k-th sending got out, `draw(k)` is the k-th
      random query id. */
  datatype Config = Config(nserv: nat, ntries: nat, timeout: nat, ndots: nat, edns: bool, suffixes: seq<Name>,
                           net: nat -> bool, draw: nat -> nat)

  /** What was asked: the handle stands for the callback and its data. */
  datatype Ask = Ask(handle: nat, name: Name, noSearch: bool, typ: nat, cls: nat)

  /** Place in the search list. */
  datatype Search = Search(next: nat, asisDone: bool, seenNodata: bool)

  /** Where the rounds over the servers stand for the current name; bit masks are sets of servers. */
  datatype Round = Round(tryNo: nat, servi: nat, wait: set<nat>, skip: set<nat>, noEdns: set<nat>)

  /** History of one name: sendings in turn and repeated sendings without EDNS0. */
  datatype Try = Try(name: Name, ordinary: nat, resends: nat)

  datatype Kind = Answer | Empty | NoName | Refused | Bad

  /** A query; `past`, `cur` and `replies` are its history: the names tried before, the one tried now, and the packets
      that have come as replies. */
  datatype Pending = Pending(ask: Ask, search: Search, id: nat, round: Round, deadline: nat,
                         past: seq<Try>, cur: Try, replies: seq<seq<Byte>>)

  /** How a query ends; the last two are both DNS_E_TEMPFAIL: a sending failed, or no server is left. */
  datatype Status = Answered(pkt: seq<Byte>, server: nat) | NoData | NxDomain | Unsent | GivenUp

  /** One call of the user's callback. */
  datatype Completion = Completion(q: Pending, status: Status)

  /** The queries in flight, those that have ended with a callback, those cancelled, and those dropped when the
      context was closed. */
  datatype System = System(active: seq<Pending>, done: seq<Completion>, cancelled: seq<Pending>, dropped: seq<Pending>,
                           submitted: nat, sends: nat, draws: nat)

  // ---------- the list ordered by deadline ----------

  function Drop(s: seq<Pending>, i: nat): seq<Pending>
    requires i < |s|
  {
    s[..i] + s[i + 1..]
  }

  /** The search from the tail: behind the last of the first `k` queries that is not due later. */
  function Spot(s: seq<Pending>, deadline: nat, k: nat): (r: nat)
    requires k <= |s|
    ensures r <= k && (r > 0 ==> s[r - 1].deadline <= deadline) && forall j :: r <= j < k ==> s[j].deadline > deadline
  {
    if k == 0 || s[k - 1].deadline <= deadline then k else Spot(s, deadline, k - 1)
  }

  function Place(s: seq<Pending>, q: Pending): seq<Pending> {
    var k := Spot(s, q.deadline, |s|);
    s[..k] + [q] + s[k..]
  }

  // ---------- servers ----------

  /** `dns_find_serv`: the first server from `from` on that is not to be skipped. */
  function FindServ(n: nat, skip: set<nat>, from: nat): (r: nat)
    ensures from <= r && (from <= n ==> r <= n)
    ensures r < n ==> r !in skip
    ensures forall j :: from <= j < r ==> j in skip
    decreases n - from
  {
    if from >= n || from !in skip then from else FindServ(n, skip, from + 1)
  }

  function Pow2(k: nat): (r: nat)
    ensures r >= 1
  {
    if k == 0 then 1 else 2 * Pow2(k - 1)
  }

  /** `dnsc_timeout << dnsq_try` on 32 bits. */
  function Backoff(cfg: Config, tryNo: nat): nat {
    (cfg.timeout * Pow2(tryNo)) % 0x1_0000_0000
  }

  predicate IsConfig(cfg: Config) {
    cfg.timeout >= 1 && cfg.ntries >= 1 && cfg.timeout * Pow2(cfg.ntries - 1) < 0x1_0000_0000
  }

  /** A query after a sending to `server`, before it is known to have got out. */
  function Tried(q: Pending, again: bool): Pending {
    q.(cur := if again then q.cur.(resends := q.cur.resends + 1) else q.cur.(ordinary := q.cur.ordinary + 1))
  }

  function Waiting(cfg: Config, q: Pending, server: nat, now: nat): Pending {
    var servi := FindServ(cfg.nserv, q.round.skip, q.round.servi);
    q.(round := q.round.(servi := servi, wait := q.round.wait + {server}),
       deadline := now + if servi < cfg.nserv then 1 else Backoff(cfg, q.round.tryNo))
  }

  /** `dns_end_query`, with the query as the history keeps it. */
  function End(sys: System, i: nat, q: Pending, status: Status): System
    requires i < |sys.active|
  {
    sys.(active := Drop(sys.active, i), done := sys.done + [Completion(q, status)])
  }

  /** `dns_send_this` for the i-th query, which has become `q`. */
  function SendThis(cfg: Config, sys: System, i: nat, q: Pending, server: nat, again: bool, now: nat): System
    requires i < |sys.active|
  {
    var t := Tried(q, again);
    if cfg.net(sys.sends) then
      sys.(sends := sys.sends + 1, active := Place(Drop(sys.active, i), Waiting(cfg, t, server, now)))
    else End(sys.(sends := sys.sends + 1), i, t, Unsent)
  }

  /** The server to turn to next: in this round or, when there is none, in the next one. */
  function NextServer(cfg: Config, r: Round): Option<Round> {
    var a := FindServ(cfg.nserv, r.skip, r.servi);
    if a < cfg.nserv then Some(r.(servi := a))
    else if r.tryNo + 1 >= cfg.ntries then None
    else
      var b := FindServ(cfg.nserv, r.skip, 0);
      if b < cfg.nserv then Some(r.(servi := b, tryNo := r.tryNo + 1)) else None
  }

  /** `dns_send`. */
  function Send(cfg: Config, sys: System, i: nat, q: Pending, now: nat): System
    requires i < |sys.active|
  {
    match NextServer(cfg, q.round)
    case None => End(sys, i, q, GivenUp)
    case Some(r) => SendThis(cfg, sys, i, q.(round := r.(servi := r.servi + 1)), r.servi, false, now)
  }

  // ---------- the search list ----------

  /** The search list ends with the root. */
  function Suffix(cfg: Config, k: nat): Name
    requires k <= |cfg.suffixes|
  {
    if k < |cfg.suffixes| then cfg.suffixes[k] else []
  }

  predicate Short(name: Name, suffix: Name) { |Wire(suffix)| + |Labels(name)| <= MAX_DN }

  predicate Usable(cfg: Config, name: Name, asisDone: bool, k: nat)
    requires k <= |cfg.suffixes|
  {
    Short(name, Suffix(cfg, k)) && (Suffix(cfg, k) != [] || !asisDone)
  }

  /** The loop of `dns_next_srch`: the next entry to use, past the end if there is none. */
  function NextEntry(cfg: Config, name: Name, asisDone: bool, k: nat): (r: nat)
    ensures k <= |cfg.suffixes| + 1 ==> k <= r <= |cfg.suffixes| + 1
    ensures r <= |cfg.suffixes| ==> Usable(cfg, name, asisDone, r)
    ensures !asisDone && Short(name, []) && k <= |cfg.suffixes| ==> r <= |cfg.suffixes|
    decreases |cfg.suffixes| + 1 - k
  {
    if k > |cfg.suffixes| || Usable(cfg, name, asisDone, k) then k else NextEntry(cfg, name, asisDone, k + 1)
  }

  predicate HasId(s: seq<Pending>, id: nat) { exists i :: 0 <= i < |s| && s[i].id == id }

  /** The loop of `dns_newid`: how many ids are drawn, at least one and at most `left + 1`. */
  function Draws(cfg: Config, active: seq<Pending>, k: nat, left: nat): (n: nat)
    ensures 1 <= n <= left + 1
    ensures n <= left ==> !HasId(active, cfg.draw(k + n - 1))
    decreases left
  {
    if left == 0 || !HasId(active, cfg.draw(k)) then 1 else 1 + Draws(cfg, active, k + 1, left - 1)
  }

  const FRESH: Round := Round(0, 0, {}, {}, {})

  /** An id is drawn; it is in use only when five have been drawn. */
  function Drawn(cfg: Config, sys: System): (r: System)
    ensures sys.draws < r.draws <= sys.draws + 5
    ensures r.draws < sys.draws + 5 ==> !HasId(sys.active, cfg.draw(r.draws - 1))
  {
    sys.(draws := sys.draws + Draws(cfg, sys.active, sys.draws, ID_DRAWS - 1))
  }

  /** `dns_newid`: another id, and everything about the servers starts anew. */
  function WithId(cfg: Config, sys: System, q: Pending): Pending {
    q.(id := cfg.draw(Drawn(cfg, sys).draws - 1), round := FRESH)
  }

  /** The query turned to the name of entry `k`. */
  function OnName(cfg: Config, q: Pending, k: nat): Pending
    requires k <= |cfg.suffixes|
  {
    var s := Suffix(cfg, k);
    q.(search := q.search.(next := k + 1, asisDone := q.search.asisDone || s == []),
       past := q.past + [q.cur], cur := Try(q.ask.name + s, 0, 0))
  }

  function OnEntry(cfg: Config, sys: System, q: Pending, k: nat): Pending
    requires k <= |cfg.suffixes|
  {
    WithId(cfg, sys, OnName(cfg, q, k))
  }

  // ---------- replies ----------

  function Rcode(pkt: seq<Byte>): nat
    requires |pkt| >= HEADER
  {
    pkt[3] as int % 16
  }

  predicate HeaderOk(pkt: seq<Byte>) {
    |pkt| >= HEADER && DnsRecords.Get16(pkt, 4) <= 1 && (pkt[2] as int / 8) % 16 == 0
  }

  /** The question section names this query: the name ignoring case, the type and the class. */
  predicate SameQuestion(q: Pending, pkt: seq<Byte>) {
    Fits(pkt, HEADER, MAX_DN) && SameName(Expand(pkt, HEADER, MAX_JUMPS).value, q.cur.name) &&
    WalkFrom(pkt, HEADER).Ends? &&
    var p := WalkFrom(pkt, HEADER).at;
    p + 4 <= |pkt| && DnsRecords.Get16(pkt, p) == q.ask.typ && DnsRecords.Get16(pkt, p + 2) == q.ask.cls
  }

  /** Only FORMERR may come without the question. */
  predicate Concerns(q: Pending, pkt: seq<Byte>)
    requires HeaderOk(pkt)
  {
    if DnsRecords.Get16(pkt, 4) == 1 then SameQuestion(q, pkt) else Rcode(pkt) == FORMERR
  }

  function IndexOfId(s: seq<Pending>, id: nat): (i: nat)
    ensures i <= |s| && (i < |s| ==> s[i].id == id) && forall j :: 0 <= j < i ==> s[j].id != id
  {
    if s == [] || s[0].id == id then 0 else 1 + IndexOfId(s[1..], id)
  }

  /** The query a reply from `server` is taken for, if any. */
  predicate Solicited(q: Pending, pkt: seq<Byte>, server: nat) {
    HeaderOk(pkt) && q.id == DnsRecords.Get16(pkt, 0) && Concerns(q, pkt) && server in q.round.wait
  }

  function KindOf(pkt: seq<Byte>): Kind
    requires |pkt| >= HEADER
  {
    var c := Rcode(pkt);
    if c == 0 then
      if (pkt[2] as int / 2) % 2 == 1 then Bad else if DnsRecords.Get16(pkt, 6) == 0 then Empty else Answer
    else if c == NXDOMAIN then NoName
    else if c == FORMERR || c == NOTIMPL then Refused
    else Bad
  }

  /** A query that has got a reply from `server`. */
  function Got(q: Pending, server: nat, pkt: seq<Byte>): Pending {
    q.(round := q.round.(wait := q.round.wait - {server}), replies := q.replies + [pkt])
  }

  /** Go on with the search list, or end. */
  function SearchOn(cfg: Config, sys: System, i: nat, q: Pending, now: nat, seen: bool): System
    requires i < |sys.active|
  {
    var k := NextEntry(cfg, q.ask.name, q.search.asisDone, q.search.next);
    if k > |cfg.suffixes| then End(sys, i, q, if seen then NoData else NxDomain)
    else
      var t := OnEntry(cfg, sys, q, k);
      Send(cfg, Drawn(cfg, sys), i, t.(search := t.search.(seenNodata := seen)), now)
  }

  /** The switch over the reply code. */
  function Process(cfg: Config, sys: System, i: nat, pkt: seq<Byte>, server: nat, now: nat): System
    requires i < |sys.active| && |pkt| >= HEADER
  {
    var kind := KindOf(pkt);
    var q := Got(sys.active[i], server, pkt);
    match kind
    case Answer => End(sys, i, sys.active[i], Answered(pkt, server))
    case Empty => SearchOn(cfg, sys, i, q, now, true)
    case NoName => SearchOn(cfg, sys, i, q, now, q.search.seenNodata)
    case _ =>
      if kind == Refused && cfg.edns && server !in q.round.noEdns then
        SendThis(cfg, sys, i, q.(round := q.round.(noEdns := q.round.noEdns + {server})), server, true, now)
      else
        var t := q.(round := q.round.(skip := q.round.skip + {server}));
        if t.round.wait == {} then Send(cfg, sys, i, t, now) else sys.(active := sys.active[i := t])
  }

  /** One datagram in `dns_ioevent`. */
  function Receive(cfg: Config, sys: System, pkt: seq<Byte>, server: nat, now: nat): System {
    if !HeaderOk(pkt) then sys
    else
      var i := IndexOfId(sys.active, DnsRecords.Get16(pkt, 0));
      if i < |sys.active| && Solicited(sys.active[i], pkt, server) then Process(cfg, sys, i, pkt, server, now) else sys
  }

  // ---------- submitting, cancelling, time ----------

  predicate AsIsFirst(cfg: Config, ask: Ask) { ask.noSearch || |ask.name| > cfg.ndots }

  function First(ask: Ask): Pending {
    Pending(ask, Search(0, false, false), 0, FRESH, 0, [], Try(ask.name, 0, 0), [])
  }

  /** A new query with its first name, as it is or from the search list. */
  function Prepared(cfg: Config, ask: Ask): Pending
    requires Short(ask.name, [])
  {
    if AsIsFirst(cfg, ask) then
      First(ask).(search := Search(if ask.noSearch then |cfg.suffixes| else 0, true, false))
    else OnName(cfg, First(ask), NextEntry(cfg, ask.name, false, 0)).(past := [])
  }

  function Submitted(cfg: Config, sys: System, ask: Ask): Pending
    requires Short(ask.name, [])
  {
    WithId(cfg, sys, Prepared(cfg, ask))
  }

  /** `dns_submit_dn`: the new query goes to the head of the list, already due. */
  function Submit(cfg: Config, sys: System, name: Name, noSearch: bool, typ: nat, cls: nat): System
    requires Short(name, [])
  {
    var q := Submitted(cfg, sys, Ask(sys.submitted, name, noSearch, typ, cls));
    Drawn(cfg, sys).(active := [q] + sys.active, submitted := sys.submitted + 1)
  }

  function IndexOfHandle(s: seq<Pending>, h: nat): (i: nat)
    ensures i <= |s| && (i < |s| ==> s[i].ask.handle == h) && forall j :: 0 <= j < i ==> s[j].ask.handle != h
  {
    if s == [] || s[0].ask.handle == h then 0 else 1 + IndexOfHandle(s[1..], h)
  }

  /** `dns_cancel` of a query in flight. */
  function Cancel(sys: System, h: nat): System {
    var i := IndexOfHandle(sys.active, h);
    if i < |sys.active| then sys.(active := Drop(sys.active, i), cancelled := sys.cancelled + [sys.active[i]]) else sys
  }

  /** `dns_close`: all queries are dropped, without a callback. */
  function Close(sys: System): System { sys.(active := [], dropped := sys.dropped + sys.active) }
}
