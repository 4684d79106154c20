/** What the bytes of a reply do to the query it is for (section 4.1.1 of RFC 1035). */
module ResolverReplies {
  import opened Ascii
  import opened Options
  import opened DnsNames
  import opened DnsPacket
  import DnsRecords
  import opened Resolver
  import opened ResolverSearch
  import opened ResolverRuns

  // ---------- which query a reply is for ----------

  /** The question of a packet, in its bytes: a name that is read from byte 12 on, a type and a class. */
  ghost predicate Questions(pkt: seq<Byte>, s: Spelling, typ: nat, cls: nat) {
    IsSpelling(s) && ReadableAs(pkt, 12, 255, s) &&
    var p := 12 + |Written(s)|;
    p + 4 <= |pkt| && pkt[p] as int * 256 + pkt[p + 1] as int == typ && pkt[p + 2] as int * 256 + pkt[p + 3] as int == cls
  }

  /** A reply is taken for the query with its id, if the server is still waited for, it is a standard query, and the
      question, if any, is the query's; without a question only format errors count. */
  ghost predicate Answers(q: Pending, pkt: seq<Byte>, server: nat) {
    |pkt| >= 12 && pkt[2] / 8 % 16 == 0 && pkt[4] == 0 && pkt[5] <= 1 && q.id == pkt[0] as int * 256 + pkt[1] as int && server in q.round.wait
    && if pkt[5] == 0 then pkt[3] % 16 == 1
       else exists s: Spelling :: Questions(pkt, s, q.ask.typ, q.ask.cls) && SameName(Spelled(s), q.cur.name)
  }

  lemma {:induction false} QuestionMeans(q: Pending, pkt: seq<Byte>)
    ensures SameQuestion(q, pkt) <==>
              exists s: Spelling :: Questions(pkt, s, q.ask.typ, q.ask.cls) && SameName(Spelled(s), q.cur.name)
  {
    hide Expand, WalkFrom, SameName, StandsAt, Fits, ReadableAs;
    if SameQuestion(q, pkt) {
      var s := FitsReadable(pkt, 12, 255);
      ReadableFits(pkt, 12, 255, s);
      assert Questions(pkt, s, q.ask.typ, q.ask.cls);
    }
    if s: Spelling :| Questions(pkt, s, q.ask.typ, q.ask.cls) && SameName(Spelled(s), q.cur.name) {
      ReadableFits(pkt, 12, 255, s);
    }
  }

  lemma {:induction false} SolicitedMeans(q: Pending, pkt: seq<Byte>, server: nat)
    ensures Solicited(q, pkt, server) <==> Answers(q, pkt, server)
  {
    hide SameQuestion, Questions, SameName;
    QuestionMeans(q, pkt);
  }

  // ---------- what becomes of the query ----------

  /** The i-th query has become `t`: it is in flight, or could not be sent and has ended so. */
  predicate Becomes(sys: System, r: System, i: nat, t: Pending, alive: bool)
    requires i < |sys.active|
  {
    t.ask == sys.active[i].ask &&
    if alive then t in r.active && r.done == sys.done
    else r.active == sys.active[..i] + sys.active[i + 1..] && |r.done| == |sys.done| + 1 && r.done[..|sys.done|] == sys.done
         && r.done[|sys.done|].q == t && (r.done[|sys.done|].status.Unsent? || r.done[|sys.done|].status.GivenUp?)
  }

  /** The query has ended with this status. */
  predicate Ended(sys: System, r: System, i: nat, t: Pending, status: Status)
    requires i < |sys.active|
  {
    r.active == sys.active[..i] + sys.active[i + 1..] && r.done == sys.done + [Completion(t, status)]
  }

  /** A sending changes nothing about what a query is for. */
  predicate SameTry(q: Pending, t: Pending) {
    t.ask == q.ask && t.search == q.search && t.id == q.id && t.past == q.past && t.cur.name == q.cur.name && t.replies == q.replies
    && t.round.skip == q.round.skip && t.round.noEdns == q.round.noEdns && q.round.wait <= t.round.wait
  }

  lemma InPlace(s: seq<Pending>, q: Pending)
    ensures q in Place(s, q)
  {
    var k := Spot(s, q.deadline, |s|);
    assert Place(s, q)[k] == q;
  }

  lemma {:induction false} SentThis(cfg: Config, sys: System, i: nat, q: Pending, server: nat, again: bool, now: nat)
      returns (t: Pending, alive: bool)
    requires i < |sys.active| && q.ask == sys.active[i].ask
    ensures Becomes(sys, SendThis(cfg, sys, i, q, server, again, now), i, t, alive) && SameTry(q, t)
    ensures t.cur.resends == q.cur.resends + (if again then 1 else 0) && t.cur.ordinary == q.cur.ordinary + (if again then 0 else 1)
    ensures alive ==> server in t.round.wait
  {
    hide Place, FindServ;
    t, alive := Tried(q, again), cfg.net(sys.sends);
    if alive {
      t := Waiting(cfg, t, server, now);
      InPlace(Drop(sys.active, i), t);
    }
  }

  lemma {:induction false} SentOn(cfg: Config, sys: System, i: nat, q: Pending, now: nat) returns (t: Pending, alive: bool)
    requires i < |sys.active| && q.ask == sys.active[i].ask
    ensures Becomes(sys, Send(cfg, sys, i, q, now), i, t, alive) && SameTry(q, t)
  {
    hide SendThis, FindServ;
    match NextServer(cfg, q.round)
    case None => t, alive := q, false;
    case Some(r) => t, alive := SentThis(cfg, sys, i, q.(round := r.(servi := r.servi + 1)), r.servi, false, now);
  }

  lemma {:induction false} NextOfPlan(cfg: Config, sys: System, q: Pending)
    requires Core(cfg, q) && IsConfig(cfg)
    ensures
      var k := NextEntry(cfg, q.ask.name, q.search.asisDone, q.search.next);
      var n := |q.past| + 1;
      if k > |cfg.suffixes| then |Plan(cfg, q.ask)| == n
      else n < |Plan(cfg, q.ask)| && OnEntry(cfg, sys, q, k).cur.name == Plan(cfg, q.ask)[n] && |OnEntry(cfg, sys, q, k).past| == n
  {
    hide Due, Plan, NextEntry, AllModerate;
    var k := NextEntry(cfg, q.ask.name, q.search.asisDone, q.search.next);
    NamesSize(q.past);
    if k > |cfg.suffixes| {
      NoneLeft(cfg, q);
    } else {
      EntryGood(cfg, sys, q, k);
      NamesSize(OnEntry(cfg, sys, q, k).past);
    }
  }

  lemma {:induction false} NamesSize(tries: seq<Try>)
    ensures |Names(tries)| == |tries|
    decreases |tries|
  {
    if tries != [] {
      NamesSize(tries[..|tries| - 1]);
    }
  }

  /** The search goes on with the next name of the plan, asked of all servers anew, or ends. */
  lemma {:induction false} TurnsOn(cfg: Config, sys: System, i: nat, q: Pending, now: nat, seen: bool) returns (t: Pending, alive: bool)
    requires i < |sys.active| && q.ask == sys.active[i].ask && IsConfig(cfg) && Core(cfg, q.(search := q.search.(seenNodata := seen)))
    ensures
      var r := SearchOn(cfg, sys, i, q, now, seen);
      var n := |q.past| + 1;
      if |Plan(cfg, q.ask)| == n then Ended(sys, r, i, q, if seen then NoData else NxDomain)
      else n < |Plan(cfg, q.ask)| && Becomes(sys, r, i, t, alive) && |t.past| == n && t.cur.name == Plan(cfg, q.ask)[n]
           && t.replies == q.replies && t.search.seenNodata == seen && t.round.skip == {} && t.round.noEdns == {}
  {
    hide Core, Plan, NextEntry, Send, Draws, Becomes;
    var g := q.(search := q.search.(seenNodata := seen));
    NextOfPlan(cfg, sys, g);
    var k := NextEntry(cfg, q.ask.name, q.search.asisDone, q.search.next);
    t, alive := q, false;
    if k <= |cfg.suffixes| {
      var e := OnEntry(cfg, sys, q, k);
      t, alive := SentOn(cfg, Drawn(cfg, sys), i, e.(search := e.search.(seenNodata := seen)), now);
      SameSystem(sys, Drawn(cfg, sys), SearchOn(cfg, sys, i, q, now, seen), i, t, alive);
    }
  }

  lemma SameSystem(sys: System, sys': System, r: System, i: nat, t: Pending, alive: bool)
    requires i < |sys.active| && sys' == sys.(draws := sys'.draws) && Becomes(sys', r, i, t, alive)
    ensures Becomes(sys, r, i, t, alive)
  {
  }

  /** Whether the query is asked again without EDNS0: format error or not implemented, for the first time. */
  predicate AsksAgain(cfg: Config, q: Pending, pkt: seq<Byte>, server: nat) {
    |pkt| >= 12 && (pkt[3] % 16 == 1 || pkt[3] % 16 == 4) && cfg.edns && server !in q.round.noEdns
  }

  lemma GoodSeen(cfg: Config, q: Pending)
    requires Good(cfg, q)
    ensures q.search.seenNodata <==> SeenNoData(q.replies)
  {
  }

  lemma Ending(sys: System, i: nat, q: Pending, status: Status)
    requires i < |sys.active|
    ensures Ended(sys, End(sys, i, q, status), i, q, status)
  {
  }

  /** The server is put out of use for the name. */
  lemma {:induction false} PutOut(cfg: Config, sys: System, i: nat, g: Pending, server: nat, now: nat) returns (t: Pending, alive: bool)
    requires i < |sys.active| && g.ask == sys.active[i].ask
    ensures
      var u := g.(round := g.round.(skip := g.round.skip + {server}));
      var r := if u.round.wait == {} then Send(cfg, sys, i, u, now) else sys.(active := sys.active[i := u]);
      Becomes(sys, r, i, t, alive) && SameTry(u, t) && (u.round.wait != {} ==> alive && t == u)
  {
    hide Send;
    var u := g.(round := g.round.(skip := g.round.skip + {server}));
    if u.round.wait == {} {
      t, alive := SentOn(cfg, sys, i, u, now);
    } else {
      t, alive := u, true;
      assert sys.active[i := u][i] == u;
    }
  }

  /** What a reply does, told by its bytes alone. An answer ends the query with the packet. A reply without data or
      without the name turns it to the next name of the plan or, behind the last, ends it. A server that does not
      know EDNS0 is asked once more, without. Any other code, and a truncated reply, leaves the name and puts the
      server out of use for it; another server is turned to when none is waited for. */
  lemma {:induction false} ReplyMeans(cfg: Config, sys: System, i: nat, pkt: seq<Byte>, server: nat, now: nat)
      returns (t: Pending, alive: bool)
    requires Inv(cfg, sys, 0) && IsConfig(cfg) && i < |sys.active| && Answers(sys.active[i], pkt, server)
    ensures
      var q := sys.active[i];
      var r := Process(cfg, sys, i, pkt, server, now);
      var n := |q.past| + 1;
      var seen := SaysNoData(pkt) || SeenNoData(q.replies);
      if SaysAnswer(pkt) then Ended(sys, r, i, q, Answered(pkt, server))
      else if SaysNoData(pkt) || SaysNoName(pkt) then
        if |Plan(cfg, q.ask)| == n then Ended(sys, r, i, Got(q, server, pkt), if seen then NoData else NxDomain)
        else n < |Plan(cfg, q.ask)| && Becomes(sys, r, i, t, alive) && |t.past| == n && t.cur.name == Plan(cfg, q.ask)[n]
             && t.replies == q.replies + [pkt] && t.round.skip == {} && t.round.noEdns == {}
      else
        && Becomes(sys, r, i, t, alive) && t.cur.name == q.cur.name && t.past == q.past && t.id == q.id && t.replies == q.replies + [pkt]
        && if AsksAgain(cfg, q, pkt, server) then
             t.round.noEdns == q.round.noEdns + {server} && t.round.skip == q.round.skip && t.cur.resends == q.cur.resends + 1
             && (alive ==> server in t.round.wait)
           else
             t.round.noEdns == q.round.noEdns && t.round.skip == q.round.skip + {server}
             && (q.round.wait != {server} ==> alive && t == q.(round := t.round, replies := t.replies) && t.round.wait == q.round.wait - {server})
  {
    hide Inv, Core, KindOf, SaysAnswer, SaysNoData, SaysNoName, SeenNoData, SearchOn, SendThis, Send, End, IsConfig, Questions, Becomes, Plan, SameName,
      Definite;
    var q := sys.active[i];
    SolicitedMeans(q, pkt, server);
    KnownServer(cfg, sys, i, server);
    KindMeans(pkt);
    var kind := KindOf(pkt);
    var g := Got(q, server, pkt);
    GoodSeen(cfg, q);
    GotGood(cfg, q, server, pkt, kind == Empty || q.search.seenNodata);
    t, alive := q, false;
    match kind {
      case Answer => Ending(sys, i, q, Answered(pkt, server));
      case Empty => t, alive := TurnsOn(cfg, sys, i, g, now, true);
      case NoName => t, alive := TurnsOn(cfg, sys, i, g, now, q.search.seenNodata);
      case _ =>
        if kind == Refused && cfg.edns && server !in q.round.noEdns {
          t, alive := SentThis(cfg, sys, i, g.(round := g.round.(noEdns := g.round.noEdns + {server})), server, true, now);
        } else {
          t, alive := PutOut(cfg, sys, i, g, server, now);
        }
    }
  }

  /** A datagram is for the first query with its id, if it is a reply for that query ... */
  lemma {:induction false} Taken(cfg: Config, sys: System, i: nat, pkt: seq<Byte>, server: nat, now: nat)
    requires i < |sys.active| && Answers(sys.active[i], pkt, server) && forall j :: 0 <= j < i ==> sys.active[j].id != sys.active[i].id
    ensures |pkt| >= 12 && Receive(cfg, sys, pkt, server, now) == Process(cfg, sys, i, pkt, server, now)
  {
    hide Process, Solicited, Answers, IndexOfId;
    SolicitedMeans(sys.active[i], pkt, server);
    SolicitedId(sys.active[i], pkt, server);
  }

  /** ... and any other is ignored. */
  lemma {:induction false} Ignored(cfg: Config, sys: System, pkt: seq<Byte>, server: nat, now: nat)
    requires forall i :: 0 <= i < |sys.active| ==> !Answers(sys.active[i], pkt, server)
    ensures Receive(cfg, sys, pkt, server, now) == sys
  {
    hide Process, Solicited, Answers, IndexOfId;
    if HeaderOk(pkt) {
      var i := IndexOfId(sys.active, DnsRecords.Get16(pkt, 0));
      if i < |sys.active| {
        SolicitedMeans(sys.active[i], pkt, server);
      }
    }
  }

  lemma SolicitedId(q: Pending, pkt: seq<Byte>, server: nat)
    requires Solicited(q, pkt, server)
    ensures HeaderOk(pkt) && q.id == DnsRecords.Get16(pkt, 0)
  {
  }
}
