/** The timer queue of the reactor (src/evr/evr.cc): runs of adding, cancelling and serving. */
module Timers {
  import opened Options

  const NO_WAIT: nat := 0xFFFF_FFFF

  /** A timer in the queue: when it is due, if it is still active, and if it has a callback. */
  datatype Timer = Timer(time: nat, active: bool, call: bool)

  datatype Fire = Fire(id: nat, time: nat, at: nat)

  /** The queue by timer, with the clock last read and the history. */
  datatype Loop = Loop(clock: nat, queue: map<nat, Timer>, added: nat, fired: seq<Fire>, cancelled: set<nat>)

  const START: Loop := Loop(0, map[], 0, [], {})

  /** `add_event`: the delay has 32 bits. */
  function Add(s: Loop, delay: nat, call: bool, now: nat): Loop {
    s.(clock := now, queue := s.queue[s.added := Timer(now + delay, true, call)], added := s.added + 1)
  }

  /** `cancel_event`. */
  function Cancel(s: Loop, id: nat): Loop
    requires id in s.queue
  {
    s.(queue := s.queue[id := s.queue[id].(active := false, call := false)], cancelled := s.cancelled + {id})
  }

  /** A timer the priority queue may have at its top. */
  predicate IsTop(q: map<nat, Timer>, id: nat) {
    id in q && forall j :: j in q ==> q[id].time <= q[j].time
  }

  /** One turn of the loop in `dequeue_events` with timer `id` at the top: a timer that is cancelled is
      dropped, one that is due is served, one that is not due is left. */
  function Turn(s: Loop, id: nat, now: nat): Loop
    requires id in s.queue
  {
    var t := s.queue[id];
    if t.active && now < t.time then s.(clock := now)
    else
      var r := s.(clock := now, queue := s.queue - {id});
      if t.active && t.call then r.(fired := s.fired + [Fire(id, t.time, now)]) else r
  }

  datatype Input = AddEvent(delay: nat, call: bool, now: nat) | CancelEvent(id: nat) | Serve(id: nat, now: nat)

  /** What may happen next: a 32-bit delay, a timer that has not been deleted, a timer at the top of the
      queue, and a clock that does not go back. Callbacks run between turns, so they may do the rest. */
  predicate Enabled(s: Loop, i: Input) {
    match i
    case AddEvent(delay, _, now) => delay < 0x1_0000_0000 && s.clock <= now
    case CancelEvent(id) => id in s.queue
    case Serve(id, now) => IsTop(s.queue, id) && s.clock <= now
  }

  function Step(s: Loop, i: Input): Loop
    requires Enabled(s, i)
  {
    match i
    case AddEvent(delay, call, now) => Add(s, delay, call, now)
    case CancelEvent(id) => Cancel(s, id)
    case Serve(id, now) => Turn(s, id, now)
  }

  /** The loop after a run, if every input was possible. */
  function Run(inputs: seq<Input>): Option<Loop> {
    if inputs == [] then Some(START)
    else
      var n := |inputs| - 1;
      match Run(inputs[..n])
      case None => None
      case Some(s) => if Enabled(s, inputs[n]) then Some(Step(s, inputs[n])) else None
  }

  // ---------- what every run keeps ----------

  /** Served timers: in order of their times, never early, each once, never after being cancelled. */
  predicate FiredWell(s: Loop) {
    && (forall i :: 0 <= i < |s.fired| ==> s.fired[i].time <= s.fired[i].at <= s.clock)
    && (forall i, j :: 0 <= i < j < |s.fired| ==> s.fired[i].time <= s.fired[j].time && s.fired[i].id != s.fired[j].id)
    && (forall i :: 0 <= i < |s.fired| ==> s.fired[i].id < s.added && s.fired[i].id !in s.cancelled)
  }

  /** Timers in the queue: not served yet, not before those served, and at most 32 bits ahead. */
  predicate QueuedWell(s: Loop) {
    && (forall id :: id in s.queue ==> id < s.added && s.queue[id].time < s.clock + 0x1_0000_0000)
    && (forall id :: id in s.queue ==> (s.queue[id].active <==> id !in s.cancelled))
    && (forall id, i :: id in s.queue && 0 <= i < |s.fired| ==> s.fired[i].id != id && s.fired[i].time <= s.queue[id].time)
    && (forall id :: id in s.cancelled ==> id < s.added)
  }

  predicate Inv(s: Loop) { FiredWell(s) && QueuedWell(s) }

  lemma {:induction false} AddInv(s: Loop, delay: nat, call: bool, now: nat)
    requires Inv(s) && delay < 0x1_0000_0000 && s.clock <= now
    ensures Inv(Add(s, delay, call, now))
  {
  }

  lemma {:induction false} CancelInv(s: Loop, id: nat)
    requires Inv(s) && id in s.queue
    ensures Inv(Cancel(s, id))
  {
  }

  lemma {:induction false} TurnInv(s: Loop, id: nat, now: nat)
    requires Inv(s) && IsTop(s.queue, id) && s.clock <= now
    ensures Inv(Turn(s, id, now))
  {
  }

  /** Every run, whatever the order of adding, cancelling and serving, keeps the invariant: callbacks run
      in nondecreasing order of due times, never early, at most once, never after cancellation. */
  lemma {:induction false} RunKeeps(inputs: seq<Input>)
    ensures Run(inputs).Some? ==> Inv(Run(inputs).value)
    decreases |inputs|
  {
    if inputs != [] {
      var n := |inputs| - 1;
      RunKeeps(inputs[..n]);
      var before := Run(inputs[..n]);
      if before.Some? && Enabled(before.value, inputs[n]) {
        match inputs[n] {
          case AddEvent(delay, call, now) => AddInv(before.value, delay, call, now);
          case CancelEvent(id) => CancelInv(before.value, id);
          case Serve(id, now) => TurnInv(before.value, id, now);
        }
      }
    }
  }

  /** Once served or cancelled, for good: later steps never take a callback back or add one for it. */
  lemma StepKeepsFired(s: Loop, i: Input)
    requires Enabled(s, i)
    ensures s.fired <= Step(s, i).fired && s.cancelled <= Step(s, i).cancelled
  {
  }

  /** Nothing is taken back over a run: what has been served after some inputs is the beginning of what has been
      served after all of them, and a cancelled timer stays cancelled, so it is never served later. */
  lemma {:induction false} RunGrows(inputs: seq<Input>, k: nat)
    requires k <= |inputs| && Run(inputs).Some?
    ensures Run(inputs[..k]).Some?
    ensures Run(inputs[..k]).value.fired <= Run(inputs).value.fired && Run(inputs[..k]).value.cancelled <= Run(inputs).value.cancelled
    ensures forall i :: |Run(inputs[..k]).value.fired| <= i < |Run(inputs).value.fired| ==>
              Run(inputs).value.fired[i].id !in Run(inputs[..k]).value.cancelled
    decreases |inputs|
  {
    hide Step, Enabled;
    RunKeeps(inputs);
    if k == |inputs| {
      assert inputs[..k] == inputs;
    } else {
      var n := |inputs| - 1;
      assert inputs[..n][..k] == inputs[..k];
      RunGrows(inputs[..n], k);
      StepKeepsFired(Run(inputs[..n]).value, inputs[n]);
    }
  }

  // ---------- when timers are due ----------

  /** The inputs that add a timer, in order: the k-th of them adds timer `k`. */
  function Adds(inputs: seq<Input>): (a: seq<Input>)
    ensures forall i :: 0 <= i < |a| ==> a[i].AddEvent?
  {
    if inputs == [] then []
    else
      var n := |inputs| - 1;
      Adds(inputs[..n]) + if inputs[n].AddEvent? then [inputs[n]] else []
  }

  /** Timers in the queue are due when their delay is over, and only those with a callback are served, not before. */
  predicate Due(s: Loop, a: seq<Input>)
    requires forall i :: 0 <= i < |a| ==> a[i].AddEvent?
  {
    |a| == s.added
    && (forall id :: id in s.queue ==> id < |a| && s.queue[id].time == a[id].now + a[id].delay && (s.queue[id].call ==> a[id].call))
    && (forall i :: 0 <= i < |s.fired| ==>
      var f := s.fired[i];
      f.id < |a| && a[f.id].call && f.time == a[f.id].now + a[f.id].delay <= f.at)
  }

  lemma {:induction false} DueStep(s: Loop, a: seq<Input>, i: Input)
    requires (forall k :: 0 <= k < |a| ==> a[k].AddEvent?) && Due(s, a) && Enabled(s, i)
    ensures Due(Step(s, i), a + if i.AddEvent? then [i] else [])
  {
  }

  /** Over every run: a timer that is served has been added with a callback, and its delay is over. */
  lemma {:induction false} RunDue(inputs: seq<Input>)
    requires Run(inputs).Some?
    ensures Due(Run(inputs).value, Adds(inputs))
    decreases |inputs|
  {
    hide Due, Step, Enabled;
    if inputs == [] {
      DueAtStart();
    } else {
      var n := |inputs| - 1;
      RunDue(inputs[..n]);
      DueStep(Run(inputs[..n]).value, Adds(inputs[..n]), inputs[n]);
    }
  }

  lemma DueAtStart()
    ensures Due(START, [])
  {
  }
}
