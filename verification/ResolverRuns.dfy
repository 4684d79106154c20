/** What every run of the resolver keeps. */
module ResolverRuns {
  import opened Ascii
  import opened Options
  import opened DnsNames
  import opened DnsPacket
  import DnsRecords
  import opened Resolver
  import opened ResolverSearch

  predicate Sorted(s: seq<Pending>) {
    forall i, j :: 0 <= i < j < |s| ==> s[i].deadline <= s[j].deadline
  }

  function Handles(s: seq<Pending>): multiset<nat> {
    if s == [] then multiset{} else multiset{s[0].ask.handle} + Handles(s[1..])
  }

  function Sendings(tries: seq<Try>): nat {
    if tries == [] then 0
    else Sendings(tries[..|tries| - 1]) + tries[|tries| - 1].ordinary + tries[|tries| - 1].resends
  }

  /** All sendings made for a query. */
  function SentBy(q: Pending): nat { Sendings(q.past) + q.cur.ordinary + q.cur.resends }

  function Total(s: seq<Pending>): nat {
    if s == [] then 0 else SentBy(s[0]) + Total(s[1..])
  }

  function Expired(s: seq<Pending>, now: nat): nat {
    if s == [] then 0 else (if s[0].deadline <= now then 1 else 0) + Expired(s[1..], now)
  }

  lemma {:induction false} Joined(a: seq<Pending>, b: seq<Pending>, now: nat)
    ensures Handles(a + b) == Handles(a) + Handles(b) && Total(a + b) == Total(a) + Total(b)
    ensures Expired(a + b, now) == Expired(a, now) + Expired(b, now)
    decreases |a|
  {
    if a == [] {
      assert a + b == b;
    } else {
      assert (a + b)[1..] == a[1..] + b;
      Joined(a[1..], b, now);
    }
  }

  /** One query more. */
  lemma {:induction false} Between(a: seq<Pending>, q: Pending, b: seq<Pending>, now: nat)
    ensures Handles(a + [q] + b) == Handles(a + b) + multiset{q.ask.handle}
    ensures Total(a + [q] + b) == Total(a + b) + SentBy(q)
    ensures Expired(a + [q] + b, now) == Expired(a + b, now) + if q.deadline <= now then 1 else 0
  {
    hide SentBy;
    assert ([q] + b)[1..] == b;
    assert a + [q] + b == a + ([q] + b);
    Joined(a, b, now);
    Joined(a, [q] + b, now);
  }

  /** The list without one query, and with one query put in its place. */
  lemma {:induction false} Dropped(s: seq<Pending>, i: nat, now: nat)
    requires i < |s|
    ensures Handles(s) == Handles(Drop(s, i)) + multiset{s[i].ask.handle} && Total(s) == Total(Drop(s, i)) + SentBy(s[i])
    ensures Expired(s, now) == Expired(Drop(s, i), now) + if s[i].deadline <= now then 1 else 0
  {
    hide Handles, Total, Expired, SentBy;
    assert s == s[..i] + [s[i]] + s[i + 1..];
    Between(s[..i], s[i], s[i + 1..], now);
  }

  lemma {:induction false} Placed(s: seq<Pending>, q: Pending, now: nat)
    ensures Handles(Place(s, q)) == Handles(s) + multiset{q.ask.handle} && Total(Place(s, q)) == Total(s) + SentBy(q)
    ensures Expired(Place(s, q), now) == Expired(s, now) + if q.deadline <= now then 1 else 0
  {
    hide Handles, Total, Expired, SentBy;
    var k := Spot(s, q.deadline, |s|);
    assert s == s[..k] + s[k..];
    Between(s[..k], q, s[k..], now);
  }

  lemma {:induction false} DropSorted(s: seq<Pending>, i: nat)
    requires i < |s| && Sorted(s)
    ensures Sorted(Drop(s, i))
  {
    var d := Drop(s, i);
    assert forall j :: 0 <= j < |d| ==> d[j] == s[if j < i then j else j + 1];
  }

  lemma {:induction false} PlaceSorted(s: seq<Pending>, q: Pending)
    requires Sorted(s)
    ensures Sorted(Place(s, q))
  {
    var p := Place(s, q);
    var k := Spot(s, q.deadline, |s|);
    forall i, j | 0 <= i < j < |p| ensures p[i].deadline <= p[j].deadline {
      assert p[i] == if i < k then s[i] else if i == k then q else s[i - 1];
      assert p[j] == if j < k then s[j] else if j == k then q else s[j - 1];
      if i < k == j && i < k - 1 {
        assert s[i].deadline <= s[k - 1].deadline;
      }
    }
  }

  lemma {:induction false} Members(s: seq<Pending>, i: nat, q: Pending)
    requires i < |s|
    ensures forall p :: p in Drop(s, i) ==> p in s
    ensures forall p :: p in Place(Drop(s, i), q) ==> p in s || p == q
  {
  }

  // ---------- the invariant ----------

  function Finished(done: seq<Completion>): seq<Pending> {
    if done == [] then [] else Finished(done[..|done| - 1]) + [done[|done| - 1].q]
  }

  /** The handles given out: 0 to n - 1, each once. */
  function Range(n: nat): multiset<nat> {
    if n == 0 then multiset{} else Range(n - 1) + multiset{n - 1}
  }

  /** No server is left to turn to: every one is to be skipped, or the last round is over. */
  ghost predicate NoServer(cfg: Config, r: Round) {
    (forall s :: r.servi <= s < cfg.nserv ==> s in r.skip)
    && (r.tryNo + 1 < cfg.ntries ==> forall s :: 0 <= s < cfg.nserv ==> s in r.skip)
  }

  /** What each way to end a query means. */
  ghost predicate Justified(cfg: Config, q: Pending, status: Status) {
    match status
    case Answered(pkt, server) => Solicited(q, pkt, server) && KindOf(pkt) == Answer
    case NoData => Exhausted(cfg, q) && Definite(q.replies) == |q.past| + 1 && SeenNoData(q.replies)
    case NxDomain => Exhausted(cfg, q) && Definite(q.replies) == |q.past| + 1 && !SeenNoData(q.replies)
    case Unsent => exists k: nat :: !cfg.net(k)
    case GivenUp => NoServer(cfg, q.round)
  }

  ghost predicate Within(cfg: Config, q: Pending) { OnPlan(cfg, q) && AllModerate(cfg, q) }

  ghost predicate Closed(cfg: Config, c: Completion) { Within(cfg, c.q) && Justified(cfg, c.q, c.status) }

  /** Every handle is in exactly one place, once. */
  ghost predicate Partition(sys: System) {
    Handles(sys.active) + Handles(Finished(sys.done)) + Handles(sys.cancelled) + Handles(sys.dropped) == Range(sys.submitted)
  }

  function AllSent(sys: System): nat {
    Total(sys.active) + Total(Finished(sys.done)) + Total(sys.cancelled) + Total(sys.dropped)
  }

  /** The invariant; `unbooked` sendings are not yet in the histories. */
  ghost predicate Inv(cfg: Config, sys: System, unbooked: int) {
    && Sorted(sys.active)
    && (forall q :: q in sys.active ==> Good(cfg, q))
    && (forall c :: c in sys.done ==> Closed(cfg, c))
    && (forall q :: q in sys.cancelled + sys.dropped ==> Within(cfg, q))
    && Partition(sys)
    && AllSent(sys) + unbooked == sys.sends
  }

  lemma {:induction false} OneMore(done: seq<Completion>, c: Completion)
    ensures Handles(Finished(done + [c])) == Handles(Finished(done)) + multiset{c.q.ask.handle}
    ensures Total(Finished(done + [c])) == Total(Finished(done)) + SentBy(c.q)
  {
    hide SentBy;
    assert (done + [c])[..|done|] == done;
    Joined(Finished(done), [c.q], 0);
  }

  lemma {:induction false} EndInv(cfg: Config, sys: System, i: nat, q: Pending, status: Status)
    requires i < |sys.active| && q.ask == sys.active[i].ask
    requires Inv(cfg, sys, SentBy(q) - SentBy(sys.active[i])) && Closed(cfg, Completion(q, status))
    ensures Inv(cfg, End(sys, i, q, status), 0)
  {
    hide Sorted, Handles, Total, SentBy, Finished, Closed, Good, Within;
    Dropped(sys.active, i, 0);
    DropSorted(sys.active, i);
    Members(sys.active, i, q);
    OneMore(sys.done, Completion(q, status));
  }

  lemma TriedSent(q: Pending, again: bool, cfg: Config, server: nat, now: nat)
    ensures SentBy(Tried(q, again)) == SentBy(q) + 1
    ensures SentBy(Waiting(cfg, q, server, now)) == SentBy(q)
  {
  }

  lemma {:induction false} SendThisInv(cfg: Config, sys: System, i: nat, q: Pending, server: nat, again: bool, now: nat)
    requires Inv(cfg, sys, 0) && i < |sys.active| && q.ask == sys.active[i].ask && SentBy(q) == SentBy(sys.active[i])
    requires Good(cfg, Tried(q, again)) && server < cfg.nserv && server !in q.round.skip
    ensures Inv(cfg, SendThis(cfg, sys, i, q, server, again, now), 0)
  {
    hide Sorted, Handles, Total, SentBy, Finished, Closed, Good, Within, Justified;
    var t := Tried(q, again);
    var w := Waiting(cfg, t, server, now);
    TriedSent(q, again, cfg, server, now);
    TriedSent(t, again, cfg, server, now);
    if cfg.net(sys.sends) {
      Dropped(sys.active, i, now);
      DropSorted(sys.active, i);
      Placed(Drop(sys.active, i), w, now);
      PlaceSorted(Drop(sys.active, i), w);
      Members(sys.active, i, w);
      WaitingGood(cfg, t, server, now);
    } else {
      UnsentClosed(cfg, t, sys.sends);
      EndInv(cfg, sys.(sends := sys.sends + 1), i, t, Unsent);
    }
  }

  lemma UnsentClosed(cfg: Config, q: Pending, k: nat)
    requires Good(cfg, q) && !cfg.net(k)
    ensures Closed(cfg, Completion(q, Unsent))
  {
  }

  lemma GivenUpClosed(cfg: Config, q: Pending)
    requires Good(cfg, q) && NextServer(cfg, q.round) == None
    ensures Closed(cfg, Completion(q, GivenUp))
  {
  }

  lemma SameSent(q: Pending, t: Pending)
    requires t.past == q.past && t.cur == q.cur
    ensures SentBy(t) == SentBy(q)
  {
  }

  lemma {:induction false} SendInv(cfg: Config, sys: System, i: nat, q: Pending, now: nat)
    requires Inv(cfg, sys, 0) && i < |sys.active| && q.ask == sys.active[i].ask && SentBy(q) == SentBy(sys.active[i])
    requires Good(cfg, q)
    ensures Inv(cfg, Send(cfg, sys, i, q, now), 0)
  {
    hide Inv, SentBy, Good, Closed, NextServer, SendThis, End;
    match NextServer(cfg, q.round) {
      case None =>
        GivenUpClosed(cfg, q);
        EndInv(cfg, sys, i, q, GivenUp);
      case Some(r) =>
        TurnGood(cfg, q, r);
        var t := q.(round := r.(servi := r.servi + 1));
        SameSent(q, t);
        SendThisInv(cfg, sys, i, t, r.servi, false, now);
    }
  }

  // ---------- replies keep it ----------

  lemma {:induction false} EntrySent(cfg: Config, sys: System, q: Pending, k: nat)
    requires k <= |cfg.suffixes|
    ensures SentBy(OnEntry(cfg, sys, q, k)) == SentBy(q)
  {
    var t := OnEntry(cfg, sys, q, k);
    assert t.past[..|q.past|] == q.past;
  }

  lemma DrawnInv(cfg: Config, sys: System)
    requires Inv(cfg, sys, 0)
    ensures Inv(cfg, Drawn(cfg, sys), 0)
  {
  }

  lemma {:induction false} EntryFresh(cfg: Config, sys: System, q: Pending, k: nat)
    requires Core(cfg, q) && Definite(q.replies) == |q.past| + 1 && IsConfig(cfg)
    requires k == NextEntry(cfg, q.ask.name, q.search.asisDone, q.search.next) <= |cfg.suffixes|
    ensures Good(cfg, OnEntry(cfg, sys, q, k)) && OnEntry(cfg, sys, q, k).ask == q.ask
  {
    hide OnPlan, AllModerate;
    EntryGood(cfg, sys, q, k);
  }

  lemma {:induction false} SearchOnInv(cfg: Config, sys: System, i: nat, q: Pending, now: nat, seen: bool)
    requires Inv(cfg, sys, 0) && i < |sys.active| && q.ask == sys.active[i].ask && SentBy(q) == SentBy(sys.active[i])
    requires IsConfig(cfg) && Core(cfg, q.(search := q.search.(seenNodata := seen))) && Definite(q.replies) == |q.past| + 1
    ensures Inv(cfg, SearchOn(cfg, sys, i, q, now, seen), 0)
  {
    hide Inv, SentBy, Send, End, Exhausted, OnPlan, AllModerate, NextEntry;
    var g := q.(search := q.search.(seenNodata := seen));
    var k := NextEntry(cfg, q.ask.name, q.search.asisDone, q.search.next);
    SameSent(q, g);
    if k > |cfg.suffixes| {
      NoneLeft(cfg, g);
      SameExhausted(cfg, g, q);
      EndInv(cfg, sys, i, q, if seen then NoData else NxDomain);
    } else {
      EntrySent(cfg, sys, g, k);
      EntryFresh(cfg, sys, g, k);
      DrawnInv(cfg, sys);
      SendInv(cfg, Drawn(cfg, sys), i, OnEntry(cfg, sys, g, k), now);
    }
  }

  lemma SameExhausted(cfg: Config, g: Pending, q: Pending)
    requires Exhausted(cfg, g) && Core(cfg, g) && q == g.(search := g.search.(seenNodata := q.search.seenNodata))
    ensures Exhausted(cfg, q) && Within(cfg, q) && (g.search.seenNodata <==> SeenNoData(q.replies))
  {
  }

  lemma {:induction false} GotGood(cfg: Config, q: Pending, server: nat, pkt: seq<Byte>, seen: bool)
    requires Good(cfg, q) && |pkt| >= 12 && seen == (KindOf(pkt) == Empty || q.search.seenNodata)
    ensures var g := Got(q, server, pkt);
            Core(cfg, g.(search := g.search.(seenNodata := seen)))
            && Definite(g.replies) == |g.past| + if KindOf(pkt) == Empty || KindOf(pkt) == NoName then 1 else 0
  {
    hide OnPlan, SaysNoData, SaysNoName, KindOf, SeenNoData, Definite;
    var g := Got(q, server, pkt);
    SamePlan(cfg, q, g.(search := g.search.(seenNodata := seen)));
    OneReplyMore(q.replies, pkt);
    KindMeans(pkt);
  }

  lemma CoreGood(cfg: Config, q: Pending)
    requires Core(cfg, q) && Definite(q.replies) == |q.past|
    ensures Good(cfg, q)
  {
  }

  /** A server that is to be skipped from now on. */
  lemma {:induction false} SkipGood(cfg: Config, q: Pending, server: nat)
    requires Good(cfg, q) && server < cfg.nserv && server !in q.round.wait
    ensures Good(cfg, q.(round := q.round.(skip := q.round.skip + {server})))
  {
    hide OnPlan;
    SamePlan(cfg, q, q.(round := q.round.(skip := q.round.skip + {server})));
  }

  /** A query changed in place. */
  lemma {:induction false} PutInv(cfg: Config, sys: System, i: nat, q: Pending)
    requires Inv(cfg, sys, 0) && i < |sys.active| && q.ask == sys.active[i].ask && SentBy(q) == SentBy(sys.active[i])
    requires Good(cfg, q) && q.deadline == sys.active[i].deadline
    ensures Inv(cfg, sys.(active := sys.active[i := q]), 0)
  {
    hide Handles, Total, SentBy, Finished, Closed, Good, Within;
    var s := sys.active;
    assert s == s[..i] + [s[i]] + s[i + 1..];
    assert s[i := q] == s[..i] + [q] + s[i + 1..];
    Between(s[..i], s[i], s[i + 1..], 0);
    Between(s[..i], q, s[i + 1..], 0);
  }

  lemma {:induction false} BadInv(cfg: Config, sys: System, i: nat, q: Pending, server: nat, now: nat)
    requires Inv(cfg, sys, 0) && i < |sys.active| && q.ask == sys.active[i].ask && SentBy(q) == SentBy(sys.active[i])
    requires Good(cfg, q) && server < cfg.nserv && server !in q.round.wait && q.deadline == sys.active[i].deadline
    ensures
      var t := q.(round := q.round.(skip := q.round.skip + {server}));
      Inv(cfg, if t.round.wait == {} then Send(cfg, sys, i, t, now) else sys.(active := sys.active[i := t]), 0)
  {
    hide Inv, SentBy, Good, Send;
    var t := q.(round := q.round.(skip := q.round.skip + {server}));
    SkipGood(cfg, q, server);
    SameSent(q, t);
    SendInv(cfg, sys, i, t, now);
    PutInv(cfg, sys, i, t);
  }

  lemma {:induction false} AgainInv(cfg: Config, sys: System, i: nat, q: Pending, server: nat, now: nat)
    requires Inv(cfg, sys, 0) && i < |sys.active| && q.ask == sys.active[i].ask && SentBy(q) == SentBy(sys.active[i])
    requires Good(cfg, q) && server < cfg.nserv && server !in q.round.noEdns && server !in q.round.skip
    ensures
      var t := q.(round := q.round.(noEdns := q.round.noEdns + {server}));
      Inv(cfg, SendThis(cfg, sys, i, t, server, true, now), 0)
  {
    hide Inv, SentBy, Good, SendThis;
    var t := q.(round := q.round.(noEdns := q.round.noEdns + {server}));
    AgainGood(cfg, q, server);
    SameSent(q, t);
    SendThisInv(cfg, sys, i, t, server, true, now);
  }

  lemma AnsweredClosed(cfg: Config, q: Pending, pkt: seq<Byte>, server: nat)
    requires Good(cfg, q) && Solicited(q, pkt, server) && KindOf(pkt) == Answer
    ensures Closed(cfg, Completion(q, Answered(pkt, server)))
  {
  }

  lemma KnownServer(cfg: Config, sys: System, i: nat, server: nat)
    requires Inv(cfg, sys, 0) && i < |sys.active| && server in sys.active[i].round.wait
    ensures Good(cfg, sys.active[i]) && server < cfg.nserv && server !in sys.active[i].round.skip
  {
  }

  lemma SameSearch(q: Pending)
    ensures q.(search := q.search.(seenNodata := q.search.seenNodata)) == q
  {
  }

  lemma {:induction false} ProcessInv(cfg: Config, sys: System, i: nat, pkt: seq<Byte>, server: nat, now: nat)
    requires Inv(cfg, sys, 0) && IsConfig(cfg) && i < |sys.active| && Solicited(sys.active[i], pkt, server)
    ensures Inv(cfg, Process(cfg, sys, i, pkt, server, now), 0)
  {
    hide Inv, SentBy, Good, Core, Definite, SearchOn, SendThis, Send, End, KindOf, Concerns, IsConfig, Closed;
    var q := sys.active[i];
    var kind := KindOf(pkt);
    var g := Got(q, server, pkt);
    KnownServer(cfg, sys, i, server);
    SameSent(q, g);
    GotGood(cfg, q, server, pkt, kind == Empty || q.search.seenNodata);
    SameSearch(g);
    match kind {
      case Answer =>
        AnsweredClosed(cfg, q, pkt, server);
        EndInv(cfg, sys, i, q, Answered(pkt, server));
      case Empty => SearchOnInv(cfg, sys, i, g, now, true);
      case NoName => SearchOnInv(cfg, sys, i, g, now, q.search.seenNodata);
      case _ =>
        CoreGood(cfg, g);
        if kind == Refused && cfg.edns && server !in g.round.noEdns {
          AgainInv(cfg, sys, i, g, server, now);
        } else {
          BadInv(cfg, sys, i, g, server, now);
        }
    }
  }

  lemma {:induction false} ReceiveInv(cfg: Config, sys: System, pkt: seq<Byte>, server: nat, now: nat)
    requires Inv(cfg, sys, 0) && IsConfig(cfg)
    ensures Inv(cfg, Receive(cfg, sys, pkt, server, now), 0)
  {
    hide Inv, Process, IsConfig, Solicited;
    if HeaderOk(pkt) {
      var i := IndexOfId(sys.active, DnsRecords.Get16(pkt, 0));
      if i < |sys.active| && Solicited(sys.active[i], pkt, server) {
        ProcessInv(cfg, sys, i, pkt, server, now);
      }
    }
  }

  // ---------- so do submitting and cancelling ----------

  lemma SubmittedStart(cfg: Config, sys: System, ask: Ask)
    requires Short(ask.name, [])
    ensures var q := Submitted(cfg, sys, ask); q.ask == ask && q.deadline == 0 && SentBy(q) == 0
  {
  }

  lemma {:induction false} SubmitInv(cfg: Config, sys: System, name: Name, noSearch: bool, typ: nat, cls: nat)
    requires Inv(cfg, sys, 0) && IsConfig(cfg) && Short(name, [])
    ensures Inv(cfg, Submit(cfg, sys, name, noSearch, typ, cls), 0)
  {
    hide SentBy, Finished, Closed, Good, Within, Submitted, IsConfig, Short, Draws, Handles, Total, Sorted;
    var ask := Ask(sys.submitted, name, noSearch, typ, cls);
    var q := Submitted(cfg, sys, ask);
    SubmittedGood(cfg, sys, ask);
    SubmittedStart(cfg, sys, ask);
    Pushed(sys.active, q);
  }

  /** A query in front that is due at once. */
  lemma {:induction false} Pushed(s: seq<Pending>, q: Pending)
    ensures Handles([q] + s) == Handles(s) + multiset{q.ask.handle} && Total([q] + s) == Total(s) + SentBy(q)
    ensures Sorted(s) && q.deadline == 0 ==> Sorted([q] + s)
    ensures forall p :: p in [q] + s ==> p == q || p in s
  {
    hide SentBy;
    assert ([q] + s)[1..] == s;
  }

  lemma NoQueries()
    ensures Handles([]) == multiset{} && Total([]) == 0 && Sorted([])
  {
  }

  lemma {:induction false} CancelInv(cfg: Config, sys: System, h: nat)
    requires Inv(cfg, sys, 0)
    ensures Inv(cfg, Cancel(sys, h), 0)
  {
    hide Sorted, Handles, Total, SentBy, Finished, Closed, Good, Within;
    var i := IndexOfHandle(sys.active, h);
    if i < |sys.active| {
      var q := sys.active[i];
      Dropped(sys.active, i, 0);
      DropSorted(sys.active, i);
      Members(sys.active, i, q);
      Appended(sys.cancelled, q);
      GoodWithin(cfg, q);
    }
  }

  lemma {:induction false} CloseInv(cfg: Config, sys: System)
    requires Inv(cfg, sys, 0)
    ensures Inv(cfg, Close(sys), 0)
  {
    hide SentBy, Finished, Closed, Good, Within, Handles, Total, Sorted;
    NoQueries();
    Joined(sys.dropped, sys.active, 0);
    forall q | q in sys.active ensures Within(cfg, q) {
      GoodWithin(cfg, q);
    }
  }

  lemma GoodWithin(cfg: Config, q: Pending)
    requires Good(cfg, q)
    ensures Within(cfg, q)
  {
  }

  lemma {:induction false} Appended(s: seq<Pending>, q: Pending)
    ensures Handles(s + [q]) == Handles(s) + multiset{q.ask.handle} && Total(s + [q]) == Total(s) + SentBy(q)
  {
    hide SentBy;
    Joined(s, [q], 0);
  }
}
