/** The search list: the names a query goes through, and the limits on what it sends. */
module ResolverSearch {
  import opened Ascii
  import opened Options
  import opened DnsNames
  import opened Resolver

  /** The name with each suffix of the list, in order; overlong results and the root are left out. */
  function Suffixed(name: Name, suffixes: seq<Name>): seq<Name> {
    if suffixes == [] then []
    else (if suffixes[0] != [] && Short(name, suffixes[0]) then [name + suffixes[0]] else []) + Suffixed(name, suffixes[1..])
  }

  /** The place of the root in the list, where the bare name has its turn. */
  function RootAt(suffixes: seq<Name>): (r: nat)
    ensures r <= |suffixes|
  {
    if suffixes == [] || suffixes[0] == [] then 0 else 1 + RootAt(suffixes[1..])
  }

  /** The names in the order they are due: the bare name once, first or where the list has the root, and
      each suffix once, in list order. */
  function Plan(cfg: Config, ask: Ask): seq<Name> {
    if ask.noSearch then [ask.name]
    else
      var r := if AsIsFirst(cfg, ask) then 0 else RootAt(cfg.suffixes);
      Suffixed(ask.name, cfg.suffixes[..r]) + [ask.name] + Suffixed(ask.name, cfg.suffixes[r..])
  }

  /** The names still due from entry `k` on. */
  function Due(cfg: Config, name: Name, asisDone: bool, k: nat): seq<Name> {
    if k > |cfg.suffixes| then []
    else if asisDone then Suffixed(name, cfg.suffixes[k..])
    else
      var r := RootAt(cfg.suffixes[k..]);
      Suffixed(name, cfg.suffixes[k..][..r]) + [name] + Suffixed(name, cfg.suffixes[k..][r..])
  }

  function Names(tries: seq<Try>): seq<Name> {
    if tries == [] then [] else Names(tries[..|tries| - 1]) + [tries[|tries| - 1].name]
  }

  /** Passing over an entry that cannot be used changes nothing. */
  lemma {:induction false} PassOver(cfg: Config, name: Name, asisDone: bool, k: nat)
    requires k <= |cfg.suffixes| && Short(name, []) && !Usable(cfg, name, asisDone, k)
    ensures Due(cfg, name, asisDone, k) == Due(cfg, name, asisDone, k + 1)
  {
    var ss := cfg.suffixes;
    if k < |ss| {
      var t := ss[k..];
      assert t[1..] == ss[k + 1..] && t[0] == ss[k];
      if !asisDone {
        var r := RootAt(t);
        assert r == 1 + RootAt(t[1..]);
        assert t[..r][1..] == t[1..][..r - 1] && t[..r][0] == t[0];
        assert t[r..] == t[1..][r - 1..];
      }
    }
  }

  /** Using an entry takes the first of the names due. */
  lemma {:induction false} TakeEntry(cfg: Config, name: Name, asisDone: bool, k: nat)
    requires k <= |cfg.suffixes| && Usable(cfg, name, asisDone, k)
    ensures Due(cfg, name, asisDone, k)
      == [name + Suffix(cfg, k)] + Due(cfg, name, asisDone || Suffix(cfg, k) == [], k + 1)
  {
    var ss := cfg.suffixes;
    var t := ss[k..];
    assert name + [] == name;
    if k < |ss| {
      assert t[1..] == ss[k + 1..] && t[0] == ss[k];
      var r := RootAt(t);
      if !asisDone && ss[k] != [] {
        assert r == 1 + RootAt(t[1..]);
        assert t[..r][1..] == t[1..][..r - 1] && t[..r][0] == t[0];
        assert t[r..] == t[1..][r - 1..];
      } else if !asisDone {
        assert t[..r] == [] && t[r..] == t;
      }
    } else {
      assert t == [];
    }
  }

  /** The names due, seen from the entry used next. */
  function Ahead(cfg: Config, name: Name, asisDone: bool, j: nat): seq<Name> {
    if j > |cfg.suffixes| then []
    else [name + Suffix(cfg, j)] + Due(cfg, name, asisDone || Suffix(cfg, j) == [], j + 1)
  }

  lemma NothingDue(cfg: Config, name: Name, asisDone: bool, k: nat)
    requires k > |cfg.suffixes|
    ensures Due(cfg, name, asisDone, k) == []
  {
  }

  lemma {:induction false} NextTakes(cfg: Config, name: Name, asisDone: bool, k: nat)
    requires k <= |cfg.suffixes| + 1 && Short(name, [])
    ensures Due(cfg, name, asisDone, k) == Ahead(cfg, name, asisDone, NextEntry(cfg, name, asisDone, k))
    decreases |cfg.suffixes| + 1 - k
  {
    hide Due, Usable;
    if k > |cfg.suffixes| {
      NothingDue(cfg, name, asisDone, k);
    } else if Usable(cfg, name, asisDone, k) {
      TakeEntry(cfg, name, asisDone, k);
    } else {
      PassOver(cfg, name, asisDone, k);
      NextTakes(cfg, name, asisDone, k + 1);
    }
  }

  /** The bare name is in the plan exactly once. */
  lemma {:induction false} BareOnce(cfg: Config, ask: Ask)
    ensures multiset(Plan(cfg, ask))[ask.name] == 1
  {
    var r := if AsIsFirst(cfg, ask) then 0 else RootAt(cfg.suffixes);
    NeverBare(ask.name, cfg.suffixes[..r]);
    NeverBare(ask.name, cfg.suffixes[r..]);
  }

  lemma {:induction false} NeverBare(name: Name, suffixes: seq<Name>)
    ensures name !in Suffixed(name, suffixes) && |Suffixed(name, suffixes)| <= |suffixes|
    decreases |suffixes|
  {
    if suffixes != [] {
      NeverBare(name, suffixes[1..]);
      assert suffixes[0] != [] ==> |name + suffixes[0]| > |name|;
    }
  }

  lemma {:induction false} PlanLength(cfg: Config, ask: Ask)
    ensures 1 <= |Plan(cfg, ask)| <= |cfg.suffixes| + 1
  {
    var r := if AsIsFirst(cfg, ask) then 0 else RootAt(cfg.suffixes);
    NeverBare(ask.name, cfg.suffixes[..r]);
    NeverBare(ask.name, cfg.suffixes[r..]);
  }

  // ---------- what holds of every query ----------

  /** How far a query has come in its plan. */
  predicate OnPlan(cfg: Config, q: Pending) {
    q.search.next <= |cfg.suffixes| + 1 && Short(q.ask.name, []) &&
    Names(q.past) + [q.cur.name] + Due(cfg, q.ask.name, q.search.asisDone, q.search.next) == Plan(cfg, q.ask)
  }

  /** All names of the plan have been tried. */
  predicate Exhausted(cfg: Config, q: Pending) { Names(q.past) + [q.cur.name] == Plan(cfg, q.ask) }

  ghost predicate RoundOk(cfg: Config, r: Round) {
    r.tryNo < cfg.ntries && r.servi <= cfg.nserv && r.wait !! r.skip
    && forall s :: s in r.wait || s in r.skip || s in r.noEdns ==> s < cfg.nserv
  }

  /** No more than `ntries` rounds of ordinary sendings and one repetition for each server. */
  predicate Moderate(cfg: Config, t: Try) { t.ordinary <= cfg.ntries * cfg.nserv && t.resends <= cfg.nserv }

  predicate AllModerate(cfg: Config, q: Pending) {
    Moderate(cfg, q.cur) && forall i :: 0 <= i < |q.past| ==> Moderate(cfg, q.past[i])
  }

  /** The sendings for the current name, against the place in the rounds. */
  predicate Metered(cfg: Config, q: Pending) {
    q.cur.ordinary <= q.round.tryNo * cfg.nserv + q.round.servi && q.cur.resends == |q.round.noEdns|
  }

  /** A reply without data: code 0, not truncated, and no answers (section 4.1.1 of RFC 1035). */
  predicate SaysNoData(pkt: seq<Byte>) {
    |pkt| >= 12 && pkt[3] % 16 == 0 && pkt[2] / 2 % 2 == 0 && pkt[6] == 0 && pkt[7] == 0
  }

  /** A reply that says the name does not exist. */
  predicate SaysNoName(pkt: seq<Byte>) { |pkt| >= 12 && pkt[3] % 16 == 3 }

  predicate SeenNoData(replies: seq<seq<Byte>>) { exists i :: 0 <= i < |replies| && SaysNoData(replies[i]) }

  /** How many replies settled the name they were about. */
  function Definite(replies: seq<seq<Byte>>): nat {
    if replies == [] then 0
    else
      var pkt := replies[|replies| - 1];
      Definite(replies[..|replies| - 1]) + if SaysNoData(pkt) || SaysNoName(pkt) then 1 else 0
  }

  lemma {:induction false} OneReplyMore(replies: seq<seq<Byte>>, pkt: seq<Byte>)
    ensures Definite(replies + [pkt]) == Definite(replies) + if SaysNoData(pkt) || SaysNoName(pkt) then 1 else 0
    ensures SeenNoData(replies + [pkt]) <==> SeenNoData(replies) || SaysNoData(pkt)
  {
    hide SaysNoData, SaysNoName;
    var t := replies + [pkt];
    assert t[..|t| - 1] == replies && t[|replies|] == pkt;
    if SeenNoData(replies) {
      var i :| 0 <= i < |replies| && SaysNoData(replies[i]);
      assert t[i] == replies[i];
    }
  }

  /** A reply with an answer: code 0, not truncated, and some answers. */
  predicate SaysAnswer(pkt: seq<Byte>) {
    |pkt| >= 12 && pkt[3] % 16 == 0 && pkt[2] / 2 % 2 == 0 && (pkt[6] != 0 || pkt[7] != 0)
  }

  /** What the reply code, the truncation bit and the number of answers in a packet make of a reply. */
  lemma KindMeans(pkt: seq<Byte>)
    requires |pkt| >= 12
    ensures KindOf(pkt) == Empty <==> SaysNoData(pkt)
    ensures KindOf(pkt) == NoName <==> SaysNoName(pkt)
    ensures KindOf(pkt) == Answer <==> SaysAnswer(pkt)
    ensures KindOf(pkt) == Refused <==> pkt[3] % 16 == 1 || pkt[3] % 16 == 4
  {
  }

  ghost predicate Core(cfg: Config, q: Pending) {
    OnPlan(cfg, q) && RoundOk(cfg, q.round) && Metered(cfg, q) && AllModerate(cfg, q)
    && (q.search.seenNodata <==> SeenNoData(q.replies))
  }

  /** Every name tried before was settled by a reply, and the one tried now is not. */
  ghost predicate Good(cfg: Config, q: Pending) { Core(cfg, q) && Definite(q.replies) == |q.past| }

  lemma {:induction false} SmallSet(s: set<nat>, n: nat)
    requires forall x :: x in s ==> x < n
    ensures |s| <= n
    decreases n
  {
    if n == 0 {
      assert s == {};
    } else {
      SmallSet(s - {n - 1}, n - 1);
    }
  }

  lemma RoundsBound(tryNo: nat, servi: nat, ntries: nat, nserv: nat)
    requires tryNo < ntries && servi <= nserv
    ensures tryNo * nserv + servi <= ntries * nserv
  {
    assert (tryNo + 1) * nserv <= ntries * nserv;
  }

  /** One more sending, at a later place in the rounds. */
  lemma PlacesGrow(t0: nat, s0: nat, t: nat, s: nat, ntries: nat, nserv: nat)
    requires (t == t0 && s0 <= s) || (t == t0 + 1 && s0 <= nserv)
    requires t < ntries && s < nserv
    ensures t0 * nserv + s0 <= t * nserv + s && t * nserv + s + 1 <= ntries * nserv
  {
    assert (t0 + 1) * nserv == t0 * nserv + nserv;
    RoundsBound(t, s + 1, ntries, nserv);
  }

  /** The server whose turn it is comes later in this round, or in the next one. */
  lemma {:induction false} TurnIsLater(cfg: Config, r0: Round, r: Round)
    requires RoundOk(cfg, r0) && NextServer(cfg, r0) == Some(r)
    ensures (r.tryNo == r0.tryNo && r0.servi <= r.servi) || r.tryNo == r0.tryNo + 1
    ensures r.tryNo < cfg.ntries && r.servi < cfg.nserv && r.servi !in r.skip
    ensures r == r0.(tryNo := r.tryNo, servi := r.servi) && RoundOk(cfg, r.(servi := r.servi + 1))
  {
  }

  lemma {:induction false} TurnMetered(cfg: Config, q: Pending, r: Round)
    requires Metered(cfg, q) && AllModerate(cfg, q) && RoundOk(cfg, q.round) && NextServer(cfg, q.round) == Some(r)
    ensures var t := Tried(q.(round := r.(servi := r.servi + 1)), false); Metered(cfg, t) && AllModerate(cfg, t)
  {
    hide NextServer;
    TurnIsLater(cfg, q.round, r);
    PlacesGrow(q.round.tryNo, q.round.servi, r.tryNo, r.servi, cfg.ntries, cfg.nserv);
  }

  /** A sending in turn is within the limits. */
  lemma {:induction false} TurnGood(cfg: Config, q: Pending, r: Round)
    requires Good(cfg, q) && NextServer(cfg, q.round) == Some(r)
    ensures r.servi < cfg.nserv && r.servi !in r.skip && r.skip == q.round.skip
    ensures Good(cfg, Tried(q.(round := r.(servi := r.servi + 1)), false))
  {
    hide OnPlan, RoundOk, Metered, AllModerate, NextServer;
    TurnIsLater(cfg, q.round, r);
    TurnMetered(cfg, q, r);
    SamePlan(cfg, q, Tried(q.(round := r.(servi := r.servi + 1)), false));
  }

  lemma SamePlan(cfg: Config, q: Pending, t: Pending)
    requires OnPlan(cfg, q) && t.ask == q.ask && t.past == q.past && t.cur.name == q.cur.name
    requires t.search.next == q.search.next && t.search.asisDone == q.search.asisDone
    ensures OnPlan(cfg, t)
  {
  }

  lemma {:induction false} WaitingGood(cfg: Config, q: Pending, server: nat, now: nat)
    requires Good(cfg, q) && server < cfg.nserv && server !in q.round.skip
    ensures Good(cfg, Waiting(cfg, q, server, now))
  {
    hide OnPlan;
    SamePlan(cfg, q, Waiting(cfg, q, server, now));
  }

  /** A repetition without EDNS0 is within the limits. */
  lemma {:induction false} AgainGood(cfg: Config, q: Pending, server: nat)
    requires Good(cfg, q) && server < cfg.nserv && server !in q.round.noEdns
    ensures Good(cfg, Tried(q.(round := q.round.(noEdns := q.round.noEdns + {server})), true))
  {
    hide OnPlan;
    var t := Tried(q.(round := q.round.(noEdns := q.round.noEdns + {server})), true);
    SamePlan(cfg, q, t);
    SmallSet(t.round.noEdns, cfg.nserv);
  }

  /** Turning to the next name of the plan. */
  lemma {:induction false} EntryGood(cfg: Config, sys: System, q: Pending, k: nat)
    requires Core(cfg, q) && IsConfig(cfg)
    requires k == NextEntry(cfg, q.ask.name, q.search.asisDone, q.search.next) <= |cfg.suffixes|
    ensures OnPlan(cfg, OnEntry(cfg, sys, q, k)) && AllModerate(cfg, OnEntry(cfg, sys, q, k))
  {
    hide Due, Plan;
    var t := OnEntry(cfg, sys, q, k);
    NextTakes(cfg, q.ask.name, q.search.asisDone, q.search.next);
    assert t.past[..|q.past|] == q.past;
    var due := Due(cfg, q.ask.name, t.search.asisDone, k + 1);
    assert Names(q.past) + [q.cur.name] + ([t.cur.name] + due) == Names(q.past) + [q.cur.name] + [t.cur.name] + due;
  }

  lemma {:induction false} NoneLeft(cfg: Config, q: Pending)
    requires Core(cfg, q) && NextEntry(cfg, q.ask.name, q.search.asisDone, q.search.next) > |cfg.suffixes|
    ensures Exhausted(cfg, q)
  {
    hide Due, Plan;
    NextTakes(cfg, q.ask.name, q.search.asisDone, q.search.next);
  }

  /** The plan, seen from the start of the search list. */
  lemma {:induction false} PlanStarts(cfg: Config, ask: Ask)
    ensures ask.noSearch ==> Plan(cfg, ask) == [ask.name] + Due(cfg, ask.name, true, |cfg.suffixes|)
    ensures !ask.noSearch && AsIsFirst(cfg, ask) ==> Plan(cfg, ask) == [ask.name] + Due(cfg, ask.name, true, 0)
    ensures !AsIsFirst(cfg, ask) ==> Plan(cfg, ask) == Due(cfg, ask.name, false, 0)
  {
    assert cfg.suffixes[0..] == cfg.suffixes;
    assert cfg.suffixes[..0] == [];
    assert cfg.suffixes[|cfg.suffixes|..] == [];
  }

  /** A new query starts at the first name of its plan. */
  lemma {:induction false} SubmittedGood(cfg: Config, sys: System, ask: Ask)
    requires Short(ask.name, []) && IsConfig(cfg)
    ensures Good(cfg, Submitted(cfg, sys, ask))
  {
    hide Due, Plan, Short, NextEntry;
    PlanStarts(cfg, ask);
    if !AsIsFirst(cfg, ask) {
      NextTakes(cfg, ask.name, false, 0);
    }
  }

  // ---------- the settings, in their own terms ----------

  /** With as many dots as the settings ask for the name comes first as it is, otherwise the search list does. */
  lemma {:induction false} BareFirst(cfg: Config, ask: Ask)
    requires ask.name != [] && cfg.suffixes != [] && cfg.suffixes[0] != [] && Short(ask.name, cfg.suffixes[0])
    ensures var dots := |ask.name| - 1;
            Plan(cfg, ask)[0] == if ask.noSearch || dots >= cfg.ndots then ask.name else ask.name + cfg.suffixes[0]
  {
    var r := RootAt(cfg.suffixes);
    assert cfg.suffixes[..r][0] == cfg.suffixes[0];
  }

  /** A suffix is used when the name with it has at most 255 bytes. */
  lemma ShortMeans(name: Name, suffix: Name)
    ensures Short(name, suffix) <==> |Labels(name + suffix)| + 1 <= 255
  {
    LabelsConcat(name, suffix);
  }
}
