/** Time-outs, whole runs, and the bounds on what a run can send. */
module ResolverTime {
  import opened Ascii
  import opened Options
  import opened DnsNames
  import opened DnsPacket
  import DnsRecords
  import opened Resolver
  import opened ResolverSearch
  import opened ResolverRuns

  // ---------- time-outs ----------

  lemma {:induction false} Pow2Grows(a: nat, b: nat)
    requires a <= b
    ensures Pow2(a) <= Pow2(b)
    decreases b
  {
    if a < b {
      Pow2Grows(a, b - 1);
    }
  }

  /** Within the settings the shift loses no bit. */
  lemma BackoffExact(cfg: Config, tryNo: nat)
    requires IsConfig(cfg) && tryNo < cfg.ntries
    ensures Backoff(cfg, tryNo) == cfg.timeout * Pow2(tryNo) >= 1
  {
    hide Pow2;
    Pow2Grows(tryNo, cfg.ntries - 1);
    MoreTimes(Pow2(tryNo), Pow2(cfg.ntries - 1), cfg.timeout);
    MoreTimes(1, cfg.timeout, Pow2(tryNo));
  }

  /** The time-out doubles from round to round. */
  lemma BackoffDoubles(cfg: Config, tryNo: nat)
    requires IsConfig(cfg) && tryNo + 1 < cfg.ntries
    ensures Backoff(cfg, 0) == cfg.timeout && Backoff(cfg, tryNo + 1) == Backoff(cfg, tryNo) + Backoff(cfg, tryNo)
  {
    BackoffExact(cfg, 0);
    BackoffExact(cfg, tryNo);
    BackoffExact(cfg, tryNo + 1);
    Twice(cfg.timeout, Pow2(tryNo));
  }

  lemma Twice(a: nat, b: nat)
    ensures a * (2 * b) == a * b + a * b
  {
  }

  /** How long a query waits once it has been sent: one second while this round has another server to turn to, and
      the time-out of the round behind the last one. */
  lemma {:induction false} WaitsFor(cfg: Config, q: Pending, server: nat, now: nat)
    ensures
      var more := exists j :: q.round.servi <= j < cfg.nserv && j !in q.round.skip;
      Waiting(cfg, q, server, now).deadline == now + if more then 1 else Backoff(cfg, q.round.tryNo)
  {
    var a := FindServ(cfg.nserv, q.round.skip, q.round.servi);
    if a < cfg.nserv {
      assert q.round.servi <= a && a !in q.round.skip;
    }
  }

  /** A sending for the query at the head of the list leaves one query less that is due; what has been
      done grows. */
  lemma {:induction false} SendSettles(cfg: Config, sys: System, now: nat)
    requires IsConfig(cfg) && Inv(cfg, sys, 0) && sys.active != [] && sys.active[0].deadline <= now
    ensures
      var r := Send(cfg, sys, 0, sys.active[0], now);
      Expired(r.active, now) + 1 == Expired(sys.active, now) && r.sends + |r.done| > sys.sends + |sys.done|
  {
    hide IsConfig, Sorted, Good, Closed, Within, Partition, AllSent, Expired, Backoff;
    var q := sys.active[0];
    Dropped(sys.active, 0, now);
    match NextServer(cfg, q.round) {
      case None =>
      case Some(r) =>
        if cfg.net(sys.sends) {
          assert q in sys.active;
          TurnGood(cfg, q, r);
          var t := Tried(q.(round := r.(servi := r.servi + 1)), false);
          GoodTry(cfg, t);
          BackoffExact(cfg, t.round.tryNo);
          Placed(Drop(sys.active, 0), Waiting(cfg, t, r.servi, now), now);
        }
    }
  }

  lemma GoodTry(cfg: Config, q: Pending)
    requires Good(cfg, q)
    ensures q.round.tryNo < cfg.ntries
  {
  }

  /** `dns_timeouts`: ends, keeps the invariant, and leaves no query that is due. */
  function Timeouts(cfg: Config, sys: System, now: nat): (r: System)
    requires IsConfig(cfg) && Inv(cfg, sys, 0)
    ensures Inv(cfg, r, 0) && forall q :: q in r.active ==> q.deadline > now
    ensures r.sends + |r.done| >= sys.sends + |sys.done| + Expired(sys.active, now)
    decreases Expired(sys.active, now)
  {
    if sys.active == [] || sys.active[0].deadline > now then
      NoneDue(sys.active, now); sys
    else
      HeadGood(cfg, sys);
      SendSettles(cfg, sys, now);
      SendInv(cfg, sys, 0, sys.active[0], now);
      Timeouts(cfg, Send(cfg, sys, 0, sys.active[0], now), now)
  }

  lemma HeadGood(cfg: Config, sys: System)
    requires Inv(cfg, sys, 0) && sys.active != []
    ensures Good(cfg, sys.active[0])
  {
    assert sys.active[0] in sys.active;
  }

  lemma {:induction false} NoneDue(s: seq<Pending>, now: nat)
    requires Sorted(s) && (s == [] || s[0].deadline > now)
    ensures Expired(s, now) == 0 && forall q :: q in s ==> q.deadline > now
    decreases |s|
  {
    if |s| > 1 {
      assert forall i, j :: 0 <= i < j < |s[1..]| ==> s[1..][i] == s[i + 1] && s[1..][j] == s[j + 1];
      NoneDue(s[1..], now);
    } else if |s| == 1 {
      assert s[1..] == [];
    }
  }

  /** The cast to a 32-bit int. */
  function Int32(x: int): int { (x + 0x8000_0000) % 0x1_0000_0000 - 0x8000_0000 }

  /** What `dns_timeouts` returns: how long to wait, negative for ever. */
  function Wait(active: seq<Pending>, maxwait: int, now: nat): int {
    if active == [] then maxwait
    else
      var w := Int32(active[0].deadline - now);
      if maxwait < 0 || maxwait > w then w else maxwait
  }

  /** The wait is the least of the caller's limit and the times to the deadlines of all queries. */
  predicate IsLeast(active: seq<Pending>, maxwait: int, now: nat, w: int) {
    (forall q :: q in active ==> 0 <= w <= q.deadline - now) && (maxwait >= 0 ==> 0 <= w <= maxwait)
    && (w == maxwait || exists q :: q in active && w == q.deadline - now)
  }

  /** The wait returned is that if and only if the first deadline is less than 2^31 seconds away: from there on
      the cast turns it negative. A deadline is never 2^32 seconds away, because the timeout has 32 bits. */
  lemma WaitLeast(active: seq<Pending>, maxwait: int, now: nat)
    requires Sorted(active) && forall q :: q in active ==> now < q.deadline
    requires active != [] ==> active[0].deadline - now < 0x1_0000_0000
    ensures IsLeast(active, maxwait, now, Wait(active, maxwait, now)) <==> active == [] || active[0].deadline - now < 0x8000_0000
  {
    if active != [] {
      assert active[0] in active;
    }
  }

  lemma {:induction false} Pow2Sum(a: nat, b: nat)
    ensures Pow2(a + b) == Pow2(a) * Pow2(b)
    decreases b
  {
    if b > 0 {
      Pow2Sum(a, b - 1);
    }
  }

  /** Settings that the options allow and with which this happens: a timeout of one second and 32 rounds. */
  lemma {:induction false} WaitTurnsNegative(cfg: Config, q: Pending, now: nat)
    requires cfg.timeout == 1 && cfg.ntries == 32 && q.deadline == now + Backoff(cfg, 31)
    ensures IsConfig(cfg) && Backoff(cfg, 31) == 0x8000_0000
    ensures Wait([q], -1, now) == -0x8000_0000 && !IsLeast([q], -1, now, Wait([q], -1, now))
  {
    assert Pow2(4) == 16 && Pow2(3) == 8;
    Pow2Sum(4, 4);
    Pow2Sum(4, 3);
    Pow2Sum(8, 8);
    Pow2Sum(8, 7);
    Pow2Sum(16, 15);
    assert q in [q];
  }

  // ---------- runs ----------

  type QName = n: Name | Short(n, []) witness []

  datatype Input =
    | Submission(name: QName, noSearch: bool, typ: nat, cls: nat)
    | Expiry(now: nat)
    | Datagram(pkt: seq<Byte>, server: nat, now: nat)
    | Cancellation(h: nat)
    | Closing

  function Step(cfg: Config, sys: System, i: Input): (r: System)
    requires IsConfig(cfg) && Inv(cfg, sys, 0)
    ensures Inv(cfg, r, 0)
  {
    match i
    case Submission(name, noSearch, typ, cls) =>
      SubmitInv(cfg, sys, name, noSearch, typ, cls);
      Submit(cfg, sys, name, noSearch, typ, cls)
    case Expiry(now) => Timeouts(cfg, sys, now)
    case Datagram(pkt, server, now) =>
      ReceiveInv(cfg, sys, pkt, server, now);
      Receive(cfg, sys, pkt, server, now)
    case Cancellation(h) =>
      CancelInv(cfg, sys, h);
      Cancel(sys, h)
    case Closing =>
      CloseInv(cfg, sys);
      Close(sys)
  }

  const START: System := System([], [], [], [], 0, 0, 0)

  /** Every run keeps the invariant. */
  function Run(cfg: Config, inputs: seq<Input>): (r: System)
    requires IsConfig(cfg)
    ensures Inv(cfg, r, 0)
  {
    if inputs == [] then START else Step(cfg, Run(cfg, inputs[..|inputs| - 1]), inputs[|inputs| - 1])
  }

  // ---------- bounds ----------

  function PerName(cfg: Config): nat { cfg.ntries * cfg.nserv + cfg.nserv }

  function PerQuery(cfg: Config): nat { (|cfg.suffixes| + 1) * PerName(cfg) }

  lemma {:induction false} SendingsBound(cfg: Config, tries: seq<Try>)
    requires forall i :: 0 <= i < |tries| ==> Moderate(cfg, tries[i])
    ensures Sendings(tries) <= |tries| * PerName(cfg) && |Names(tries)| == |tries|
    decreases |tries|
  {
    if tries != [] {
      var t := tries[..|tries| - 1];
      SendingsBound(cfg, t);
      assert |tries| * PerName(cfg) == |t| * PerName(cfg) + PerName(cfg);
      assert Moderate(cfg, tries[|tries| - 1]);
    }
  }

  /** One query sends no more than its plan allows. */
  lemma {:induction false} QueryBound(cfg: Config, q: Pending)
    requires Within(cfg, q)
    ensures SentBy(q) <= |Plan(cfg, q.ask)| * PerName(cfg) && SentBy(q) <= PerQuery(cfg)
  {
    hide Plan, Due;
    SendingsBound(cfg, q.past);
    PlanLength(cfg, q.ask);
    var n, m := |q.past| + 1, |Plan(cfg, q.ask)|;
    assert n <= m <= |cfg.suffixes| + 1;
    assert n * PerName(cfg) == |q.past| * PerName(cfg) + PerName(cfg);
    MoreTimes(n, m, PerName(cfg));
    MoreTimes(m, |cfg.suffixes| + 1, PerName(cfg));
  }

  lemma MoreTimes(a: nat, b: nat, c: nat)
    requires a <= b
    ensures a * c <= b * c
  {
  }

  lemma {:induction false} TotalBound(cfg: Config, s: seq<Pending>)
    requires forall q :: q in s ==> Within(cfg, q)
    ensures Total(s) <= |s| * PerQuery(cfg) && |Handles(s)| == |s|
    decreases |s|
  {
    hide SentBy, Within, PerQuery;
    if s != [] {
      QueryBound(cfg, s[0]);
      TotalBound(cfg, s[1..]);
      assert |s| * PerQuery(cfg) == |s[1..]| * PerQuery(cfg) + PerQuery(cfg);
    }
  }

  lemma {:induction false} RangeOnce(n: nat)
    ensures |Range(n)| == n && forall h: nat :: Range(n)[h] == if h < n then 1 else 0
    decreases n
  {
    if n > 0 {
      RangeOnce(n - 1);
    }
  }

  lemma {:induction false} FinishedHas(done: seq<Completion>)
    ensures |Finished(done)| == |done| && forall i :: 0 <= i < |done| ==> Finished(done)[i] == done[i].q
    decreases |done|
  {
    if done != [] {
      FinishedHas(done[..|done| - 1]);
    }
  }

  /** All sendings of a run: no more than each submitted query may make. */
  lemma {:induction false} SendsBound(cfg: Config, sys: System)
    requires Inv(cfg, sys, 0)
    ensures sys.sends <= sys.submitted * PerQuery(cfg) && |sys.done| <= sys.submitted
  {
    hide Plan, Due, PerQuery, Handles, Total, Finished, Range, Sorted, OnPlan, AllModerate;
    var f := Finished(sys.done);
    FinishedHas(sys.done);
    forall q | q in f ensures Within(cfg, q) {
      var i :| 0 <= i < |f| && f[i] == q;
      assert sys.done[i] in sys.done;
    }
    TotalBound(cfg, sys.active);
    TotalBound(cfg, f);
    TotalBound(cfg, sys.cancelled);
    TotalBound(cfg, sys.dropped);
    RangeOnce(sys.submitted);
    var a, b, c, d := |sys.active|, |f|, |sys.cancelled|, |sys.dropped|;
    assert sys.submitted == a + b + c + d;
    Distributes(a, b, c, d, PerQuery(cfg));
  }

  lemma Distributes(a: nat, b: nat, c: nat, d: nat, k: nat)
    ensures (a + b + c + d) * k == a * k + b * k + c * k + d * k
  {
  }

  /** How often a query was found due in a run. */
  function Dues(cfg: Config, inputs: seq<Input>): nat
    requires IsConfig(cfg)
  {
    if inputs == [] then 0
    else
      var i := inputs[|inputs| - 1];
      Dues(cfg, inputs[..|inputs| - 1])
      + if i.Expiry? then Expired(Run(cfg, inputs[..|inputs| - 1]).active, i.now) else 0
  }

  lemma {:induction false} SendGrows(cfg: Config, sys: System, i: nat, q: Pending, now: nat)
    requires i < |sys.active|
    ensures
      var r := Send(cfg, sys, i, q, now);
      r.sends + |r.done| >= sys.sends + |sys.done| && r.submitted == sys.submitted
  {
    hide Place, Drop, Waiting, FindServ;
  }

  lemma {:induction false} ReceiveGrows(cfg: Config, sys: System, pkt: seq<Byte>, server: nat, now: nat)
    ensures var r := Receive(cfg, sys, pkt, server, now); r.sends + |r.done| >= sys.sends + |sys.done|
  {
    hide Place, Drop, Waiting, Send, Solicited, NextEntry, KindOf, Draws;
    if HeaderOk(pkt) {
      var i := IndexOfId(sys.active, DnsRecords.Get16(pkt, 0));
      if i < |sys.active| && Solicited(sys.active[i], pkt, server) {
        var kind := KindOf(pkt);
        var q := Got(sys.active[i], server, pkt);
        var k := NextEntry(cfg, q.ask.name, q.search.asisDone, q.search.next);
        if k <= |cfg.suffixes| {
          var t := OnEntry(cfg, sys, q, k);
          SendGrows(cfg, Drawn(cfg, sys), i, t.(search := t.search.(seenNodata := true)), now);
          SendGrows(cfg, Drawn(cfg, sys), i, t.(search := t.search.(seenNodata := q.search.seenNodata)), now);
        }
        SendGrows(cfg, sys, i, q.(round := q.round.(skip := q.round.skip + {server})), now);
      }
    }
  }

  lemma {:induction false} StepGrows(cfg: Config, sys: System, i: Input)
    requires IsConfig(cfg) && Inv(cfg, sys, 0)
    ensures
      var r := Step(cfg, sys, i);
      r.sends + |r.done| >= sys.sends + |sys.done| + if i.Expiry? then Expired(sys.active, i.now) else 0
  {
    hide IsConfig, Inv, Expired, Receive, Submitted, Draws, Drop;
    if i.Datagram? {
      ReceiveGrows(cfg, sys, i.pkt, i.server, i.now);
    }
  }

  /** Every query ends: over any run, the queries found due are no more than the sendings and endings,
      and these are bounded by the queries submitted. */
  lemma {:induction false} EveryQueryEnds(cfg: Config, inputs: seq<Input>)
    requires IsConfig(cfg)
    ensures
      var r := Run(cfg, inputs);
      Dues(cfg, inputs) <= r.sends + |r.done| <= r.submitted * (PerQuery(cfg) + 1)
  {
    hide IsConfig, Inv, Step, PerQuery, Expired;
    DuesCounted(cfg, inputs);
    var r := Run(cfg, inputs);
    SendsBound(cfg, r);
    assert r.submitted * (PerQuery(cfg) + 1) == r.submitted * PerQuery(cfg) + r.submitted;
  }

  lemma {:induction false} DuesCounted(cfg: Config, inputs: seq<Input>)
    requires IsConfig(cfg)
    ensures var r := Run(cfg, inputs); Dues(cfg, inputs) <= r.sends + |r.done|
    decreases |inputs|
  {
    hide IsConfig, Inv, Step, Expired;
    if inputs != [] {
      DuesCounted(cfg, inputs[..|inputs| - 1]);
      StepGrows(cfg, Run(cfg, inputs[..|inputs| - 1]), inputs[|inputs| - 1]);
    }
  }

  // ---------- what a run guarantees, spelled out ----------

  function Places(s: seq<Pending>, h: nat): nat { Handles(s)[h] }

  lemma {:induction false} PartitionCounts(sys: System, h: nat)
    requires Partition(sys)
    ensures Places(sys.active, h) + Places(Finished(sys.done), h) + Places(sys.cancelled, h) + Places(sys.dropped, h)
         == if h < sys.submitted then 1 else 0
  {
    hide Handles, Finished, Range;
    RangeOnce(sys.submitted);
    var all := Handles(sys.active) + Handles(Finished(sys.done)) + Handles(sys.cancelled) + Handles(sys.dropped);
    assert all[h] == Range(sys.submitted)[h];
  }

  /** Exactly once: a submitted query is in flight, has had its one callback, was cancelled, or was dropped. */
  lemma {:induction false} OncePerHandle(cfg: Config, inputs: seq<Input>, h: nat)
    requires IsConfig(cfg)
    ensures
      var r := Run(cfg, inputs);
      Places(r.active, h) + Places(Finished(r.done), h) + Places(r.cancelled, h) + Places(r.dropped, h)
        == if h < r.submitted then 1 else 0
  {
    hide IsConfig, Step, Run, Partition, Places;
    PartitionCounts(Run(cfg, inputs), h);
  }

  lemma AnswerHasQuestion(q: Pending, pkt: seq<Byte>, server: nat)
    requires Solicited(q, pkt, server) && KindOf(pkt) == Answer
    ensures SameQuestion(q, pkt) && server in q.round.wait && SaysAnswer(pkt)
  {
    KindMeans(pkt);
  }

  lemma {:induction false} NamesSize(tries: seq<Try>)
    ensures |Names(tries)| == |tries|
    decreases |tries|
  {
    if tries != [] {
      NamesSize(tries[..|tries| - 1]);
    }
  }

  /** What a callback tells: an answer was asked for by name, type and class from a server still waited
      for; a search that ends without one has tried its whole plan, has got a settling reply for each name of it, and
      is told as NODATA exactly when some reply had code 0 and no answers; a query is given up when no server is left
      to turn to, or when a sending failed; the sendings are within what the plan allows. */
  ghost predicate Meant(cfg: Config, c: Completion) {
    && (c.status.Answered? ==>
          && Solicited(c.q, c.status.pkt, c.status.server)
          && SameQuestion(c.q, c.status.pkt) && c.status.server in c.q.round.wait && SaysAnswer(c.status.pkt))
    && (c.status.NoData? || c.status.NxDomain? ==>
          && Names(c.q.past) + [c.q.cur.name] == Plan(cfg, c.q.ask) && Definite(c.q.replies) == |Plan(cfg, c.q.ask)|
          && (c.status.NoData? <==> SeenNoData(c.q.replies)))
    && (c.status.GivenUp? ==> NoServer(cfg, c.q.round))
    && (c.status.Unsent? ==> exists k: nat :: !cfg.net(k))
    && SentBy(c.q) <= |Plan(cfg, c.q.ask)| * PerName(cfg)
  }

  lemma {:induction false} CompletionMeans(cfg: Config, c: Completion)
    requires Closed(cfg, c)
    ensures Meant(cfg, c)
  {
    hide Plan, SameQuestion, SentBy, PerName, AllModerate, OnPlan, Solicited, KindOf, SaysAnswer, Definite, SeenNoData;
    assert Justified(cfg, c.q, c.status);
    if c.status.Answered? {
      AnswerHasQuestion(c.q, c.status.pkt, c.status.server);
    }
    NamesSize(c.q.past);
    QueryBound(cfg, c.q);
  }

  lemma {:induction false} CallbackMeans(cfg: Config, inputs: seq<Input>, i: nat)
    requires IsConfig(cfg) && i < |Run(cfg, inputs).done|
    ensures Meant(cfg, Run(cfg, inputs).done[i])
  {
    hide IsConfig, Step, Run, Meant, Closed;
    var c := Run(cfg, inputs).done[i];
    assert c in Run(cfg, inputs).done;
    CompletionMeans(cfg, c);
  }
}
