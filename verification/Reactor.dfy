/** The reactor's timers as objects (src/evr/evr.cc, include/is2/evr/evr.h), proved to do the steps of the
    timer model. */
module Reactor {
  import opened Timers

  /** `evr_event_t`. */
  class Event {
    const id: nat
    const time: nat
    var active: bool
    var call: bool

    constructor (id: nat, time: nat, call: bool)
      ensures this.id == id && this.time == time && active && this.call == call
    {
      this.id, this.time, this.active, this.call := id, time, true, call;
    }
  }

  lemma {:induction false} HasLeast(pq: set<Event>)
    requires pq != {}
    ensures exists e :: e in pq && forall x :: x in pq ==> e.time <= x.time
    decreases |pq|
  {
    var a :| a in pq;
    var rest := pq - {a};
    if rest == {} {
      assert pq == {a};
    } else {
      HasLeast(rest);
      var b :| b in rest && forall x :: x in rest ==> b.time <= x.time;
      assert forall x :: x in pq ==> x == a || x in rest;
      if a.time <= b.time {
        assert forall x :: x in pq ==> a.time <= x.time;
      }
    }
  }

  /** The objects in the queue stand for the timers. */
  ghost predicate Shown(pq: set<Event>, events: map<nat, Event>, queue: map<nat, Timer>)
    reads pq
  {
    && events.Keys == queue.Keys
    && (forall e :: e in pq ==> e.id in events && events[e.id] == e)
    && forall id :: id in events ==>
         events[id] in pq && events[id].id == id && queue[id] == Timer(events[id].time, events[id].active, events[id].call)
  }

  lemma ShownAdd(pq: set<Event>, events: map<nat, Event>, queue: map<nat, Timer>, e: Event)
    requires Shown(pq, events, queue) && e.id !in queue
    ensures Shown(pq + {e}, events[e.id := e], queue[e.id := Timer(e.time, e.active, e.call)])
  {
  }

  lemma ShownDrop(pq: set<Event>, events: map<nat, Event>, queue: map<nat, Timer>, e: Event)
    requires Shown(pq, events, queue) && e in pq
    ensures Shown(pq - {e}, events - {e.id}, queue - {e.id})
  {
  }

  /** Marks the object of a timer as cancelled. */
  method Deactivate(e: Event, ghost pq: set<Event>, ghost events: map<nat, Event>, ghost queue: map<nat, Timer>)
    requires Shown(pq, events, queue) && e in pq
    modifies e
    ensures !e.active && !e.call && e.id in queue
    ensures Shown(pq, events, queue[e.id := queue[e.id].(active := false, call := false)])
  {
    e.active := false;
    e.call := false;
  }

  /** What serving does between two states: the queue only loses timers, and loses an active one only
      when it is due, calling its callback if it has one. */
  ghost predicate Served(a: Loop, b: Loop) {
    && (forall id :: id in b.queue ==> id in a.queue && b.queue[id] == a.queue[id])
    && (forall id :: id in a.queue && id !in b.queue && a.queue[id].active ==>
          a.queue[id].time <= b.clock && (a.queue[id].call ==> Called(b, id, |a.fired|)))
    && (forall i :: |a.fired| <= i < |b.fired| ==>
          var id := b.fired[i].id; id in a.queue && a.queue[id].active && a.queue[id].call)
    && a.fired <= b.fired && a.clock <= b.clock && a.cancelled == b.cancelled && a.added == b.added
  }

  ghost predicate Called(s: Loop, id: nat, n: nat) {
    exists i :: n <= i < |s.fired| && s.fired[i].id == id
  }

  /** The time to the nearest active timer; the time-out for ever when there is none. */
  ghost predicate NearestWait(s: Loop, wait: nat) {
    && (forall id :: id in s.queue ==> s.queue[id].time > s.clock)
    && (s.queue == map[] ==> wait == 0xFFFF_FFFF)
    && (s.queue != map[] ==>
          && (exists id :: id in s.queue && s.queue[id].active && wait == s.queue[id].time - s.clock)
          && forall id :: id in s.queue ==> wait <= s.queue[id].time - s.clock)
  }

  lemma {:induction false} ServedTurn(a: Loop, s: Loop, id: nat, now: nat)
    requires Served(a, s) && IsTop(s.queue, id) && s.clock <= now
    ensures Served(a, Turn(s, id, now))
  {
    var r := Turn(s, id, now);
    forall j | j in a.queue && j !in r.queue && a.queue[j].active
      ensures a.queue[j].time <= r.clock && (a.queue[j].call ==> Called(r, j, |a.fired|))
    {
      if j == id && j in s.queue {
        assert s.queue[j].call ==> r.fired[|s.fired|].id == id;
      } else if a.queue[j].call {
        assert Called(s, j, |a.fired|);
        var i :| |a.fired| <= i < |s.fired| && s.fired[i].id == j;
        assert r.fired[i].id == j;
      }
    }
  }

  lemma ServedStart(s: Loop)
    ensures Served(s, s)
  {
  }

  lemma NoTimers(pq: set<Event>, events: map<nat, Event>, queue: map<nat, Timer>)
    requires Shown(pq, events, queue) && pq == {}
    ensures queue == map[]
  {
    assert forall id :: id in queue ==> id in events;
  }

  /** The timer at the top, if it is not due, gives the wait, which fits 32 bits. */
  lemma WaitIs(pq: set<Event>, events: map<nat, Event>, s: Loop, e: Event, now: nat)
    requires Shown(pq, events, s.queue) && Inv(s) && e in pq && IsTop(s.queue, e.id) && s.clock <= now < e.time && e.active
    ensures Turn(s, e.id, now) == s.(clock := now) && NearestWait(Turn(s, e.id, now), (e.time - now) % 0x1_0000_0000)
  {
    assert s.queue[e.id].time == e.time;
    assert e.time - now < 0x1_0000_0000;
  }

  lemma NewTimer(s: Loop)
    requires Inv(s)
    ensures s.added !in s.queue
  {
  }

  class EventLoop {
    const clock: nat -> nat
    var ticks: nat
    var pq: set<Event>
    var added: nat
    var fired: seq<Fire>
    ghost var events: map<nat, Event>
    ghost var s: Loop

    ghost predicate Valid()
      reads this, pq
    {
      && Shown(pq, events, s.queue) && added == s.added && fired == s.fired && Inv(s)
      && s.clock <= clock(ticks) && forall i, j :: 0 <= i <= j ==> clock(i) <= clock(j)
    }

    constructor (clock: nat -> nat)
      requires forall i: nat, j: nat :: i <= j ==> clock(i) <= clock(j)
      ensures Valid() && s == START
    {
      this.clock := clock;
      ticks, pq, added, fired, events, s := 0, {}, 0, [], map[], START;
    }

    method ReadClock() returns (now: nat)
      requires Valid()
      modifies this`ticks
      ensures Valid() && s.clock <= now <= clock(ticks)
    {
      now := clock(ticks);
      ticks := ticks + 1;
    }

    /** `add_event`. */
    method AddEvent(delay: nat, call: bool) returns (e: Event, ghost now: nat)
      requires Valid() && delay < 0x1_0000_0000
      modifies this
      ensures Valid() && old(s).clock <= now && s == Add(old(s), delay, call, now)
      ensures fresh(e) && pq == old(pq) + {e} && e.id == old(s).added
    {
      hide Inv, Shown;
      var t := ReadClock();
      now := t;
      AddInv(s, delay, call, now);
      NewTimer(s);
      e := new Event(added, t + delay, call);
      ShownAdd(pq, events, s.queue, e);
      events, pq := events[added := e], pq + {e};
      s := Add(s, delay, call, now);
      added := added + 1;
    }

    /** `cancel_event`. */
    method CancelEvent(e: Event?) returns (ok: bool)
      requires Valid() && (e != null ==> e in pq)
      modifies this`s, e
      ensures Valid() && ok == (e != null)
      ensures s == if e == null then old(s) else Cancel(old(s), e.id)
    {
      if e == null { return false; }
      hide Inv, Shown;
      Deactivate(e, pq, events, s.queue);
      CancelInv(s, e.id);
      s := Cancel(s, e.id);
      ok := true;
    }

    /** `m_event_pq.top`: any timer that is due first. */
    method Top() returns (e: Event)
      requires Valid() && pq != {}
      ensures e in pq && IsTop(s.queue, e.id)
    {
      HasLeast(pq);
      e :| e in pq && forall x :: x in pq ==> e.time <= x.time;
    }

    /** `m_event_pq.pop` of the timer at the top, and its service if it is active and has a callback. */
    method Pop(e: Event, now: nat)
      requires Valid() && e in pq && IsTop(s.queue, e.id) && s.clock <= now <= clock(ticks) && !(e.active && now < e.time)
      modifies this
      ensures Valid() && s == Turn(old(s), e.id, now) && pq == old(pq) - {e} && clock(ticks) == old(clock(ticks))
    {
      hide Inv;
      TurnInv(s, e.id, now);
      ShownDrop(pq, events, s.queue, e);
      s := Turn(s, e.id, now);
      events, pq := events - {e.id}, pq - {e};
      if e.active && e.call {
        fired := fired + [Fire(e.id, e.time, now)];
      }
    }

    /** `dequeue_events`. */
    method DequeueEvents() returns (wait: nat)
      requires Valid()
      modifies this
      ensures Valid() && Served(old(s), s) && NearestWait(s, wait)
    {
      hide Inv, Shown, Served, Turn;
      wait := NO_WAIT;
      ServedStart(s);
      while pq != {}
        invariant Valid() && Served(old(s), s) && pq <= old(pq)
        decreases |pq|
      {
        var now := ReadClock();
        var e := Top();
        ServedTurn(old(s), s, e.id, now);
        if e.active && now < e.time {
          TurnInv(s, e.id, now);
          WaitIs(pq, events, s, e, now);
          wait := (e.time - now) % 0x1_0000_0000;
          s := Turn(s, e.id, now);
          return;
        }
        Pop(e, now);
      }
      NoTimers(pq, events, s.queue);
    }
  }
}
