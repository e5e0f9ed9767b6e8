/** What an event base keeps over every run, and what its loop does with it
    (libevent/event.c). */
module EventLoop {
  import opened Options
  import opened MinHeap
  import opened IdLists
  import opened EventQueues
  import opened EventCore

  /** The most common-timeout lists a base may have. */
  const MAX_COMMON_TIMEOUTS: nat := 256

  /** A finalizing event is on no timeout queue and waits for no descriptor, and a
      persistent one repeats on the list it is on. */
  ghost predicate EvOk(e: Ev) {
    && (Finalizing in e.flags ==> Timeout !in e.flags && Inserted !in e.flags)
    && (e.closure == Finalize <==> Finalizing in e.flags)
    && (e.closure == Persist && e.again != NO_TIME ==> e.again.common == e.at.common)
  }

  /** The internal timers of the common-timeout lists. */
  ghost predicate TimerOk(e: Ev) {
    && Internal in e.flags && Later !in e.flags && Finalizing !in e.flags
    && !e.io && e.closure == Plain && !e.persist && e.at.common == -1
  }

  ghost predicate TimersOk(evs: Evs, timers: seq<int>) {
    && Distinct(timers)
    && (forall c :: 0 <= c < |timers| ==> timers[c] >= 0 && timers[c] in evs && TimerOk(evs[timers[c]]))
  }

  /** The timer goes off by `us`, or its callback is due or running. */
  ghost predicate Covers(evs: Evs, timer: int, running: int, us: int) {
    timer in evs
    && ((Timeout in evs[timer].flags && evs[timer].at.us <= us) || Active in evs[timer].flags || running == timer)
  }

  /** No event on a common-timeout list is forgotten. */
  ghost predicate Covered(evs: Evs, timers: seq<int>, running: int) {
    forall id :: id in evs && Timeout in evs[id].flags && evs[id].at.common >= 0 ==>
      evs[id].at.common < |timers| && Covers(evs, timers[evs[id].at.common], running, evs[id].at.us)
  }

  ghost predicate Sound(evs: Evs, timers: seq<int>, running: int) {
    && (forall id :: id in evs ==> EvOk(evs[id]))
    && TimersOk(evs, timers)
    && Covered(evs, timers, running)
  }

  /** What holds between operations. */
  ghost predicate Inv(b: EventBase) reads b, b.heap {
    b.Consistent() && |b.timers| == |b.durations| == |b.queues| <= MAX_COMMON_TIMEOUTS && Sound(b.evs, b.timers, b.running)
  }

  /** A user's event changes; if it is then on a common list, the timer covers it. */
  lemma UserChange(evs: Evs, timers: seq<int>, running: int, id: int, e: Ev)
    requires Sound(evs, timers, running) && id in evs && id !in timers && EvOk(e)
    requires Timeout in e.flags && e.at.common >= 0 ==>
               e.at.common < |timers| && Covers(evs, timers[e.at.common], running, e.at.us)
    ensures Sound(evs[id := e], timers, running)
  {
    var m := evs[id := e];
    forall c | 0 <= c < |timers| ensures timers[c] in m && TimerOk(m[timers[c]]) && m[timers[c]] == evs[timers[c]] {
      assert timers[c] in timers;
    }
    forall x | x in m && Timeout in m[x].flags && m[x].at.common >= 0
      ensures m[x].at.common < |timers| && Covers(m, timers[m[x].at.common], running, m[x].at.us)
    {
      if x != id {
        assert Covers(evs, timers[evs[x].at.common], running, evs[x].at.us);
      }
    }
  }

  /** An operation that gives a user's event no new timeout. */
  lemma UserQuiet(evs: Evs, timers: seq<int>, running: int, id: int, e: Ev)
    requires Sound(evs, timers, running) && id in evs && id !in timers && EvOk(e)
    requires Timeout in e.flags ==> Timeout in evs[id].flags && e.at == evs[id].at
    ensures Sound(evs[id := e], timers, running)
  {
    UserChange(evs, timers, running, id, e);
  }

  /** A timer changes so that it still covers what is on its list. */
  lemma TimerChange(evs: Evs, timers: seq<int>, running: int, running2: int, c: nat, e: Ev)
    requires Sound(evs, timers, running) && c < |timers| && TimerOk(e)
    requires running2 == running || running == timers[c] || running !in timers
    requires forall id :: id in evs && evs[id].On(CommonList(c)) ==>
               (Timeout in e.flags && e.at.us <= evs[id].at.us) || Active in e.flags || running2 == timers[c]
    ensures Sound(evs[timers[c] := e], timers, running2)
  {
    var t, m := timers[c], evs[timers[c] := e];
    forall d | 0 <= d < |timers| ensures timers[d] in m && TimerOk(m[timers[d]]) {
    }
    forall x | x in m && Timeout in m[x].flags && m[x].at.common >= 0
      ensures m[x].at.common < |timers| && Covers(m, timers[m[x].at.common], running2, m[x].at.us)
    {
      assert x != t;
      assert Covers(evs, timers[evs[x].at.common], running, evs[x].at.us);
      if evs[x].at.common == c {
        assert evs[x].On(CommonList(c));
      } else {
        assert timers[evs[x].at.common] != t && timers[evs[x].at.common] in timers;
      }
    }
  }

  /** Another event comes to run when no timer's callback does. */
  lemma RunningChange(evs: Evs, timers: seq<int>, running: int, running2: int)
    requires Sound(evs, timers, running) && running !in timers
    ensures Sound(evs, timers, running2)
  {
    forall x | x in evs && Timeout in evs[x].flags && evs[x].at.common >= 0
      ensures evs[x].at.common < |timers| && Covers(evs, timers[evs[x].at.common], running2, evs[x].at.us)
    {
      assert timers[evs[x].at.common] in timers;
      assert Covers(evs, timers[evs[x].at.common], running, evs[x].at.us);
    }
  }

  lemma DeletedOk(e: Ev)
    requires EvOk(e)
    ensures EvOk(Deleted(e))
  {
  }

  lemma ActivatedOk(e: Ev, byTimeout: bool)
    requires EvOk(e)
    ensures EvOk(Activated(e, byTimeout)) && EvOk(ActivatedLater(e, byTimeout))
  {
  }

  lemma FinalizedOk(e: Ev)
    requires EvOk(e)
    ensures EvOk(Finalized(e)) && Timeout !in Finalized(e).flags
  {
  }

  /** event_del. */
  method Del(b: EventBase, id: int)
    requires Inv(b) && id in b.evs && id !in b.timers
    modifies b`evs, b`count, b`countActive, b`active, b`later, b`queues, b.heap
    ensures Inv(b) && b.evs == old(b.evs)[id := Deleted(old(b.evs)[id])]
  {
    hide Books, Linked, Ordered, Contents, Removed;
    DeletedOk(b.evs[id]);
    UserQuiet(b.evs, b.timers, b.running, id, Deleted(b.evs[id]));
    b.Delete(id);
  }

  /** event_active. */
  method Activate(b: EventBase, id: int, byTimeout: bool)
    requires Inv(b) && id in b.evs && id !in b.timers
    modifies b`evs, b`count, b`countActive, b`active, b`later
    ensures Inv(b) && b.evs == old(b.evs)[id := Activated(old(b.evs)[id], byTimeout)]
  {
    hide Books, Linked, Ordered, Contents, Removed;
    ActivatedOk(b.evs[id], byTimeout);
    UserQuiet(b.evs, b.timers, b.running, id, Activated(b.evs[id], byTimeout));
    b.Activate(id, byTimeout);
  }

  /** event_active_later_. */
  method ActivateLater(b: EventBase, id: int, byTimeout: bool)
    requires Inv(b) && id in b.evs && id !in b.timers
    modifies b`evs, b`count, b`countActive, b`later
    ensures Inv(b) && b.evs == old(b.evs)[id := ActivatedLater(old(b.evs)[id], byTimeout)]
  {
    hide Books, Linked, Ordered, Contents, Removed;
    ActivatedOk(b.evs[id], byTimeout);
    UserQuiet(b.evs, b.timers, b.running, id, ActivatedLater(b.evs[id], byTimeout));
    b.ActivateLater(id, byTimeout);
  }

  /** event_finalize. */
  method FinalizeEvent(b: EventBase, id: int)
    requires Inv(b) && id in b.evs && id !in b.timers
    modifies b`evs, b`count, b`countActive, b`active, b`later, b`queues, b.heap
    ensures Inv(b) && b.evs == old(b.evs)[id := Finalized(old(b.evs)[id])]
    ensures Active in b.evs[id].flags || Finalizing in old(b.evs)[id].flags
  {
    hide Books, Linked, Ordered, Contents, Removed;
    FinalizedOk(b.evs[id]);
    UserQuiet(b.evs, b.timers, b.running, id, Finalized(b.evs[id]));
    ghost var e := b.evs[id];
    b.Delete(id);
    b.OneQueue(id);
    b.Touch(id, b.evs[id].(closure := Finalize));
    b.Activate(id, false);
    b.OneQueue(id);
    b.Touch(id, b.evs[id].With(Finalizing));
    assert b.evs == old(b.evs)[id := Finalized(e)];
  }

  /** event_remove_timer. */
  method RemoveTimer(b: EventBase, id: int)
    requires Inv(b) && id in b.evs && id !in b.timers
    modifies b`evs, b`count, b`queues, b.heap
    ensures Inv(b)
    ensures b.evs == if Timeout in old(b.evs)[id].flags
                     then old(b.evs)[id := old(b.evs)[id].Without(Timeout).(again := NO_TIME)] else old(b.evs)
  {
    hide Books, Linked, Ordered, Contents, Removed;
    if Timeout in b.evs[id].flags {
      ghost var e := b.evs[id].Without(Timeout).(again := NO_TIME);
      UserQuiet(b.evs, b.timers, b.running, id, e);
      b.RemoveTimeout(id);
      b.OneQueue(id);
      b.Touch(id, b.evs[id].(again := NO_TIME));
      assert b.evs == old(b.evs)[id := e];
    }
  }

  // ----- timeouts -----

  lemma AddedOk(e: Ev, tv: Option<Time>, absolute: bool, now: int)
    requires EvOk(e) && Finalizing !in e.flags
    requires absolute && tv.Some? && e.closure == Persist && e.again != NO_TIME ==> tv.value.common == e.again.common
    ensures EvOk(Added(e, tv, absolute, now))
  {
  }

  /** The first on a list is the earliest. */
  lemma HeadFirst(evs: Evs, q: seq<int>, c: int, id: int)
    requires Lists(evs, q, CommonList(c)) && Sorted(evs, q) && id in evs && evs[id].On(CommonList(c))
    ensures q != [] && q[0] in evs && evs[q[0]].On(CommonList(c)) && evs[q[0]].at.us <= evs[id].at.us
  {
    assert id in q;
    var i := IndexOf(q, id);
    assert q[0] in q;
  }

  /** An event joins a list behind its head: the timer is early enough. */
  lemma JoinBehind(evs: Evs, timers: seq<int>, running: int, queues: seq<seq<int>>, id: int, e: Ev)
    requires Sound(evs, timers, running) && id in evs && id !in timers && EvOk(e)
    requires Timeout in e.flags && 0 <= e.at.common < |queues| == |timers|
    requires ListsOk(evs[id := e], queues) && (queues[e.at.common] == [] || queues[e.at.common][0] != id)
    ensures Sound(evs[id := e], timers, running)
  {
    var c, m := e.at.common, evs[id := e];
    HeadFirst(m, queues[c], c, id);
    var h := queues[c][0];
    assert m[h] == evs[h];
    assert Covers(evs, timers[c], running, evs[h].at.us);
    UserChange(evs, timers, running, id, e);
  }

  /** An event joins a list as its head, and the timer is set for it. */
  lemma JoinAsHead(evs: Evs, timers: seq<int>, running: int, queues: seq<seq<int>>, id: int, e: Ev, now: int)
    requires Sound(evs, timers, running) && id in evs && id !in timers && EvOk(e)
    requires Timeout in e.flags && 0 <= e.at.common < |queues| == |timers|
    requires ListsOk(evs[id := e], queues) && queues[e.at.common] != [] && queues[e.at.common][0] == id
    ensures timers[e.at.common] in evs
    ensures Sound(evs[id := e][timers[e.at.common] := Timed(evs[timers[e.at.common]], Time(e.at.us, -1), true, now)],
                  timers, running)
  {
    var c, m := e.at.common, evs[id := e];
    var t := timers[c];
    var et := Timed(evs[t], Time(e.at.us, -1), true, now);
    assert t in timers;
    var off := evs[id].Without(Timeout);
    UserQuiet(evs, timers, running, id, off);
    var evs1 := evs[id := off];
    forall x | x in evs1 && evs1[x].On(CommonList(c)) ensures et.at.us <= evs1[x].at.us {
      assert m[x] == evs1[x];
      HeadFirst(m, queues[c], c, x);
    }
    TimerChange(evs1, timers, running, running, c, et);
    var evs2 := evs1[t := et];
    UserChange(evs2, timers, running, id, e);
    assert evs2[id := e] == m[t := et];
  }

  /** event_add_nolock_. The time may name a common list; `ioResult` is what evmap
      answers if it is asked. */
  method Add(b: EventBase, id: int, tv: Option<Time>, absolute: bool, ioResult: int, now: int) returns (r: int)
    requires Inv(b) && id in b.evs && id !in b.timers
    requires tv.Some? ==> -1 <= tv.value.common < |b.queues|
    requires absolute && tv.Some? && b.evs[id].closure == Persist && b.evs[id].again != NO_TIME
             ==> tv.value.common == b.evs[id].again.common
    modifies b`evs, b`count, b`countActive, b`active, b`queues, b.heap
    ensures Inv(b)
    ensures r == if Finalizing in old(b.evs)[id].flags || (Joins(old(b.evs)[id]) && ioResult == -1) then -1 else 0
    ensures r == -1 ==> b.evs == old(b.evs)
    ensures r == 0 ==>
              && b.evs.Keys == old(b.evs).Keys && b.evs[id] == Added(old(b.evs)[id], tv, absolute, now)
              && forall x :: x in b.evs && x != id && x !in b.timers ==> b.evs[x] == old(b.evs)[x]
  {
    hide Books, Linked, Ordered, Contents, Removed, TimersOk, Covered;
    ghost var e := Added(b.evs[id], tv, absolute, now);
    if Finalizing in b.evs[id].flags {
      return -1;
    }
    AddedOk(b.evs[id], tv, absolute, now);
    if Joins(b.evs[id]) {
      if ioResult == -1 {
        return -1;
      }
      b.SetInserted(id, true);
    }
    r := 0;
    if tv.None? {
      SameUpdate(old(b.evs), id);
      UserQuiet(old(b.evs), b.timers, b.running, id, e);
      return;
    }
    b.SetTimeout(id, tv.value, absolute, now);
    assert b.evs == old(b.evs)[id := e];
    if tv.value.common < 0 {
      UserChange(old(b.evs), b.timers, b.running, id, e);
    } else {
      AddToList(b, old(b.evs), id, e, now);
    }
  }

  /** The end of event_add_nolock_ for a common timeout. */
  method AddToList(b: EventBase, ghost evs0: Evs, id: int, ghost e: Ev, now: int)
    requires b.Consistent() && |b.timers| == |b.durations| == |b.queues| <= MAX_COMMON_TIMEOUTS && Sound(evs0, b.timers, b.running)
    requires id in evs0 && id !in b.timers && EvOk(e) && Timeout in e.flags && 0 <= e.at.common < |b.queues|
    requires b.evs == evs0[id := e]
    modifies b`evs, b`count, b`countActive, b`active, b`queues, b.heap
    ensures Inv(b) && b.evs.Keys == old(b.evs).Keys && b.evs[id] == e
    ensures forall x :: x in b.evs && x !in b.timers ==> b.evs[x] == old(b.evs)[x]
  {
    hide Linked, Ordered, Contents, Removed, Memberships, Flagged;
    var c := b.evs[id].at.common;
    HeadFirst(b.evs, b.queues[c], c, id);
    if b.queues[c][0] == id {
      JoinAsHead(evs0, b.timers, b.running, b.queues, id, e, now);
      assert b.timers[c] in b.timers;
      Schedule(b, c, e.at.us, now);
    } else {
      JoinBehind(evs0, b.timers, b.running, b.queues, id, e);
    }
  }

  /** common_timeout_schedule. The timer waits for no descriptor. */
  method Schedule(b: EventBase, c: nat, ghost at: int, now: int)
    requires b.Consistent() && c < |b.timers| == |b.queues| && b.timers[c] in b.evs
    requires b.queues[c] != [] && b.queues[c][0] in b.evs && b.evs[b.queues[c][0]].at.us == at
    modifies b`evs, b`count, b`countActive, b`active, b`queues, b.heap
    ensures b.Consistent() && |b.queues| == old(|b.queues|)
    ensures b.evs == old(b.evs)[b.timers[c] := Timed(old(b.evs)[b.timers[c]], Time(at, -1), true, now)]
  {
    b.SetTimeout(b.timers[c], Time(b.evs[b.queues[c][0]].at.us, -1), true, now);
  }
}
