/** What the loop of an event base does: how long it waits, what it activates when
    time has passed, and how it takes active events off their queues
    (libevent/event.c). */
module EventDispatch {
  import opened Options
  import opened MinHeap
  import opened IdLists
  import opened EventQueues
  import opened EventCore
  import opened EventLoop

  /** Which common list a timer serves. */
  lemma TimerIndex(timers: seq<int>, id: int) returns (c: nat)
    requires id in timers
    ensures c < |timers| && timers[c] == id
  {
    c := IndexOf(timers, id);
  }

  lemma FiredOk(e: Ev)
    requires EvOk(e) && Timeout in e.flags
    ensures EvOk(Fired(e)) && Active in Fired(e).flags && Timeout !in Fired(e).flags && Fired(e).at == e.at
    ensures TimerOk(e) ==> TimerOk(Fired(e))
  {
  }

  /** An event whose time has come keeps the base sound, be it a user's or a timer. */
  lemma FireSound(evs: Evs, timers: seq<int>, running: int, id: int)
    requires Sound(evs, timers, running) && id in evs && Timeout in evs[id].flags
    ensures Sound(evs[id := Fired(evs[id])], timers, running) && Finalizing !in evs[id].flags
  {
    FiredOk(evs[id]);
    if id in timers {
      var c := TimerIndex(timers, id);
      TimerChange(evs, timers, running, running, c, Fired(evs[id]));
    } else {
      UserQuiet(evs, timers, running, id, Fired(evs[id]));
    }
  }

  /** event_del_nolock_ and event_active_nolock_, as for a timeout. */
  method Fire(b: EventBase, id: int)
    requires Inv(b) && id in b.evs && Timeout in b.evs[id].flags
    modifies b`evs, b`count, b`countActive, b`active, b`later, b`queues, b.heap
    ensures Inv(b) && b.evs == old(b.evs)[id := Fired(old(b.evs)[id])]
    ensures old(b.evs)[id].InHeap() ==> b.heap.Items() == old(b.heap.Items()) - {id}
    ensures var c := old(b.evs)[id].at.common;
            c >= 0 ==> c < |b.queues| && b.queues == old(b.queues)[c := Removed(old(b.queues)[c], id)]
  {
    hide Books, Linked, Ordered, Contents, Removed, Sound;
    FireSound(b.evs, b.timers, b.running, id);
    b.OneQueue(id);
    b.Delete(id);
    b.Activate(id, true);
    assert b.evs == old(b.evs)[id := Fired(old(b.evs)[id])];
  }

  /** From `evs0` to `evs`: of the events in `due`, those no longer in `rest` have
      fired, and they were due; nothing else has changed. */
  ghost predicate FiredAll(evs0: Evs, evs: Evs, due: set<int>, rest: set<int>, now: int) {
    && evs.Keys == evs0.Keys && rest <= due <= evs0.Keys
    && (forall id :: id in due - rest ==> evs0[id].at.us <= now && evs[id] == Fired(evs0[id]))
    && (forall id :: id in evs0.Keys - (due - rest) ==> evs[id] == evs0[id])
  }

  lemma FiredMore(evs0: Evs, evs: Evs, due: set<int>, rest: set<int>, now: int, id: int)
    requires FiredAll(evs0, evs, due, rest, now) && id in rest && evs[id].at.us <= now
    ensures FiredAll(evs0, evs[id := Fired(evs[id])], due, rest - {id}, now)
  {
  }

  lemma HeapKeys(b: EventBase)
    requires b.Consistent()
    ensures forall id :: id in b.heap.Items() <==> id in b.evs && b.evs[id].InHeap()
    ensures forall id :: id in b.heap.Items() ==> b.heap.Items()[id] == b.evs[id].at.us
    ensures b.heap.Items().Keys <= b.evs.Keys
  {
  }

  /** timeout_process: exactly the events in the heap whose time has come fire. */
  method TimeoutProcess(b: EventBase, now: int)
    requires Inv(b)
    modifies b`evs, b`count, b`countActive, b`active, b`later, b`queues, b.heap
    ensures Inv(b) && b.evs.Keys == old(b.evs).Keys
    ensures forall id :: id in b.evs ==>
              b.evs[id] == if old(b.evs)[id].InHeap() && old(b.evs)[id].at.us <= now then Fired(old(b.evs)[id])
                           else old(b.evs)[id]
    ensures forall id :: id in b.evs && b.evs[id].InHeap() ==> b.evs[id].at.us > now
  {
    hide Books, Linked, Ordered, Contents, Removed, Sound;
    ghost var evs0, due := b.evs, b.heap.Items().Keys;
    HeapKeys(b);
    var found, top := b.heap.Top();
    while found && top.key <= now
      invariant Inv(b) && FiredAll(evs0, b.evs, due, b.heap.Items().Keys, now)
      invariant found <==> b.heap.Items() != map[]
      invariant found ==> top.id in b.heap.Items() && b.heap.Items()[top.id] == top.key
      invariant found ==> forall id :: id in b.heap.Items() ==> top.key <= b.heap.Items()[id]
      decreases |b.heap.Items().Keys|
    {
      HeapKeys(b);
      ghost var items := b.heap.Items();
      FiredMore(evs0, b.evs, due, items.Keys, now, top.id);
      Fire(b, top.id);
      assert b.heap.Items().Keys == items.Keys - {top.id};
      found, top := b.heap.Top();
    }
    HeapKeys(b);
  }

  /** No callback of an internal timer is due or running. */
  predicate TimersIdle(b: EventBase) reads b {
    && b.running !in b.timers
    && forall c :: 0 <= c < |b.timers| && b.timers[c] in b.evs ==> Active !in b.evs[b.timers[c]].flags
  }

  /** timeout_next: the wait ends no later than any pending timeout, also those that
      are only on a common list; and it is no shorter than needed. */
  method TimeoutNext(b: EventBase, now: int) returns (wait: Option<nat>)
    requires Inv(b)
    ensures wait.None? <==> b.heap.Items() == map[]
    ensures TimersIdle(b) ==> forall id :: id in b.evs && Timeout in b.evs[id].flags ==>
              wait.Some? && (wait.value == 0 || now + wait.value <= b.evs[id].at.us)
    ensures wait.Some? ==> exists id :: id in b.heap.Items() && (wait.value == 0 ==> b.heap.Items()[id] <= now)
                                        && (wait.value > 0 ==> b.heap.Items()[id] == now + wait.value)
  {
    hide Linked, Ordered, Contents, Removed, Memberships, Flagged;
    HeapKeys(b);
    var found, top := b.heap.Top();
    wait := if !found then None else if top.key <= now then Some(0) else Some(top.key - now);
    if TimersIdle(b) {
      forall id | id in b.evs && Timeout in b.evs[id].flags ensures found && top.key <= b.evs[id].at.us {
        var c := b.evs[id].at.common;
        if c >= 0 {
          var t := b.timers[c];
          assert t in b.timers && Covers(b.evs, t, b.running, b.evs[id].at.us);
          assert b.evs[t].InHeap();
        } else {
          assert b.evs[id].InHeap();
        }
      }
    }
  }

  // ----- the lists of common timeouts -----

  lemma ListKeys(b: EventBase, c: nat)
    requires b.Consistent() && c < |b.queues|
    ensures Distinct(b.queues[c])
    ensures forall id :: id in b.queues[c] <==> id in b.evs && b.evs[id].On(CommonList(c))
    ensures (set id | id in b.queues[c]) <= b.evs.Keys
    ensures b.queues[c] != [] ==> b.queues[c][0] in b.queues[c]
    ensures b.queues[c] != [] ==>
              forall id :: id in b.queues[c] ==> b.evs[b.queues[c][0]].at.us <= b.evs[id].at.us
  {
    assert Lists(b.evs, b.queues[c], CommonList(c)) && Sorted(b.evs, b.queues[c]);
    forall id | id in b.queues[c] ensures b.evs[b.queues[c][0]].at.us <= b.evs[id].at.us {
      HeadFirst(b.evs, b.queues[c], c, id);
    }
  }

  /** The loop of common_timeout_callback: exactly the events on the list whose time
      has come fire. */
  method FireDue(b: EventBase, c: nat, now: int)
    requires Inv(b) && c < |b.queues|
    modifies b`evs, b`count, b`countActive, b`active, b`later, b`queues, b.heap
    ensures Inv(b) && b.evs.Keys == old(b.evs).Keys
    ensures forall id :: id in b.evs ==>
              b.evs[id] == if old(b.evs)[id].On(CommonList(c)) && old(b.evs)[id].at.us <= now then Fired(old(b.evs)[id])
                           else old(b.evs)[id]
    ensures forall id :: id in b.evs && b.evs[id].On(CommonList(c)) ==> b.evs[id].at.us > now
  {
    hide Books, Linked, Ordered, Contents, Removed, Sound, Distinct;
    ghost var evs0, due := b.evs, Members(b.queues[c]);
    ListKeys(b, c);
    while b.queues[c] != [] && b.evs[b.queues[c][0]].at.us <= now
      invariant Inv(b) && c < |b.queues| && FiredAll(evs0, b.evs, due, Members(b.queues[c]), now)
      invariant b.queues[c] != [] ==> b.queues[c][0] in b.evs
      decreases |b.queues[c]|
    {
      ListKeys(b, c);
      var id := b.queues[c][0];
      MembersRemoved(b.queues[c], id);
      FiredMore(evs0, b.evs, due, Members(b.queues[c]), now, id);
      Fire(b, id);
      ListKeys(b, c);
    }
    ListKeys(b, c);
    forall id | id in b.evs
      ensures b.evs[id] == if evs0[id].On(CommonList(c)) && evs0[id].at.us <= now then Fired(evs0[id]) else evs0[id]
    {
      assert id in due <==> evs0[id].On(CommonList(c));
    }
  }

  /** common_timeout_callback, in one locked region: what is due on the list fires,
      and the timer is set for what is left. */
  method CommonTimeoutCallback(b: EventBase, c: nat, now: int)
    requires Inv(b) && c < |b.queues| && b.running == b.timers[c]
    modifies b, b.heap
    ensures Inv(b) && b.running == -1 && b.evs.Keys == old(b.evs).Keys && b.timers == old(b.timers) && b.durations == old(b.durations)
    ensures forall id :: id in b.evs && id !in b.timers ==>
              b.evs[id] == if old(b.evs)[id].On(CommonList(c)) && old(b.evs)[id].at.us <= now then Fired(old(b.evs)[id])
                           else old(b.evs)[id]
    ensures forall id :: id in b.evs && b.evs[id].On(CommonList(c)) ==> b.evs[id].at.us > now
  {
    hide Books, Linked, Ordered, Contents, Removed, Distinct;
    var t := b.timers[c];
    assert t in b.timers;
    FireDue(b, c, now);
    ListKeys(b, c);
    ghost var evs1 := b.evs;
    if b.queues[c] != [] {
      ghost var et := Timed(b.evs[t], Time(b.evs[b.queues[c][0]].at.us, -1), true, now);
      TimerChange(b.evs, b.timers, b.running, -1, c, et);
      Schedule(b, c, b.evs[b.queues[c][0]].at.us, now);
    } else {
      TimerChange(b.evs, b.timers, b.running, -1, c, b.evs[t]);
      SameUpdate(b.evs, t);
    }
    b.running := -1;
    TimersOffLists(evs1, b.timers);
    TimersOffLists(b.evs, b.timers);
  }

  lemma TimersOffLists(evs: Evs, timers: seq<int>)
    requires TimersOk(evs, timers)
    ensures forall id, c :: id in timers && id in evs && c >= 0 ==> !evs[id].On(CommonList(c))
  {
    forall id, c | id in timers && id in evs && c >= 0 ensures !evs[id].On(CommonList(c)) {
      var d := TimerIndex(timers, id);
    }
  }

  // ----- running what is active -----

  /** The choice of event_process_active: the first queue that is not empty. */
  method FirstQueue(b: EventBase) returns (p: nat)
    ensures p <= |b.active|
    ensures forall q :: 0 <= q < p ==> b.active[q] == []
    ensures p < |b.active| ==> b.active[p] != []
  {
    p := 0;
    while p < |b.active| && b.active[p] == []
      invariant p <= |b.active|
      invariant forall q :: 0 <= q < p ==> b.active[q] == []
    {
      p := p + 1;
    }
  }

  lemma ActiveKeys(b: EventBase, p: nat)
    requires b.Consistent() && p < |b.active| && b.active[p] != []
    ensures b.active[p][0] in b.evs && Active in b.evs[b.active[p][0]].flags && b.evs[b.active[p][0]].pri == p
  {
    assert Lists(b.evs, b.active[p], ActiveList(p));
    assert b.active[p][0] in b.active[p];
  }

  /** What taking an event off its active queue leaves of it. */
  function Taken(e: Ev): Ev {
    if e.persist || Finalizing in e.flags then e.Without(Active) else Deleted(e)
  }

  lemma TakenSound(evs: Evs, timers: seq<int>, running: int, id: int)
    requires Sound(evs, timers, running) && running !in timers && id in evs
    ensures Sound(evs[id := Taken(evs[id])], timers, if evs[id].closure == Finalize then -1 else id)
    ensures evs[id].closure == Finalize <==> Finalizing in evs[id].flags
  {
    var e := evs[id];
    if id in timers {
      var c := TimerIndex(timers, id);
      TimerChange(evs, timers, running, id, c, Taken(e));
    } else {
      assert EvOk(Taken(e));
      UserQuiet(evs, timers, running, id, Taken(e));
      RunningChange(evs[id := Taken(e)], timers, running, if e.closure == Finalize then -1 else id);
    }
  }

  /** The start of a round of event_process_active_single_queue: the first event of
      the queue is taken off and becomes the running one. */
  method TakeFirst(b: EventBase, p: nat) returns (id: int)
    requires Inv(b) && p < |b.active| && b.active[p] != [] && b.running !in b.timers
    modifies b, b.heap
    ensures Inv(b) && b.timers == old(b.timers) && b.durations == old(b.durations) && |b.queues| == old(|b.queues|)
    ensures id == old(b.active)[p][0] && b.evs == old(b.evs)[id := Taken(old(b.evs)[id])]
    ensures b.running == if b.evs[id].closure == Finalize then -1 else id
  {
    hide Books, Linked, Ordered, Contents, Removed, Sound;
    ActiveKeys(b, p);
    id := b.active[p][0];
    b.OneQueue(id);
    TakenSound(b.evs, b.timers, b.running, id);
    if b.evs[id].persist || Finalizing in b.evs[id].flags {
      b.RemoveActive(id);
    } else {
      b.Delete(id);
    }
    if b.evs[id].closure == Finalize {
      // the source asserts that the event is finalizing
      assert Finalizing in b.evs[id].flags;
      b.running := -1;
    } else {
      b.running := id;
    }
  }

  /** A user's callback returns. */
  method Return(b: EventBase)
    requires Inv(b) && b.running !in b.timers
    modifies b`running
    ensures Inv(b) && b.running == -1
  {
    RunningChange(b.evs, b.timers, b.running, -1);
    b.running := -1;
  }

  /** When a persistent event runs next. */
  function NextRun(at: int, delay: int, byTimeout: bool, now: int): (next: int)
    ensures delay >= 0 ==> next >= now
    ensures byTimeout && at + delay >= now ==> next == at + delay
    ensures byTimeout && at + delay < now ==> next == now + delay
    ensures !byTimeout && delay >= 0 ==> next == now + delay
  {
    var base := if byTimeout then at else now;
    if base + delay < now then now + delay else base + delay
  }

  /** The time and list of its next run. */
  function Again(e: Ev, now: int): Time {
    Time(NextRun(e.at.us, e.again.us, e.byTimeout, now), e.again.common)
  }

  /** The first part of event_persist_closure: a persistent event with a timeout is
      added again, at the interval after its last time if it ran by timeout and is
      not too late, else after now. */
  method PersistAgain(b: EventBase, id: int, ioResult: int, now: int) returns (r: int)
    requires Inv(b) && id in b.evs && id !in b.timers && b.evs[id].closure == Persist
    modifies b`evs, b`count, b`countActive, b`active, b`queues, b.heap
    ensures Inv(b) && b.evs.Keys == old(b.evs).Keys
    ensures var e := old(b.evs)[id];
            && (r == 0 && e.again != NO_TIME ==>
                  && b.evs[id] == Added(e, Some(Again(e, now)), true, now)
                  && forall x :: x in b.evs && x != id && x !in b.timers ==> b.evs[x] == old(b.evs)[x])
            && (e.again == NO_TIME || r != 0 ==> b.evs == old(b.evs))
            && r == if e.again != NO_TIME && Joins(e) && ioResult == -1 then -1 else 0
  {
    hide Books, Linked, Ordered, Contents, Removed, TimersOk, Covered;
    r := 0;
    b.OneQueue(id);
    var e := b.evs[id];
    assert EvOk(e);
    if e.again != NO_TIME {
      // the source asserts that both times belong to the same list
      assert e.at.common == e.again.common;
      r := Add(b, id, Some(Again(e, now)), true, ioResult, now);
    }
  }

  /** event_queue_make_later_events_active. */
  method MakeLaterActive(b: EventBase)
    requires Inv(b)
    modifies b`evs, b`active, b`later
    ensures Inv(b) && b.later == [] && b.evs.Keys == old(b.evs).Keys
    ensures forall id :: id in b.evs ==> b.evs[id] == NowActive(old(b.evs)[id])
    ensures b.count == old(b.count) && b.countActive == old(b.countActive)
    ensures forall p :: 0 <= p < |b.active| ==> b.active[p] == old(b.active)[p] + OfPriority(old(b.evs), old(b.later), p)
  {
    hide Books, Linked, Ordered, Contents, Sound;
    ghost var evs0, active0, later0 := b.evs, b.active, b.later;
    while b.later != []
      invariant |b.active| == |active0| && OnlyMoved(b.evs, evs0)
      invariant forall p :: 0 <= p < |b.active| ==>
                  b.active[p] + OfPriority(evs0, b.later, p) == active0[p] + OfPriority(evs0, later0, p)
      invariant Inv(b) && b.evs.Keys == evs0.Keys
      invariant forall id :: id in b.evs ==> b.evs[id] == evs0[id] || b.evs[id] == NowActive(evs0[id])
      decreases |b.later|
    {
      LaterMoves(b);
      var id := b.later[0];
      var e := NowActive(b.evs[id]);
      forall p | 0 <= p < |b.active|
        ensures Tailed(b.active, e.pri, id)[p] + OfPriority(evs0, b.later[1..], p) == b.active[p] + OfPriority(evs0, b.later, p)
      {
        MoveOne(evs0, b.active, b.later, p);
      }
      b.evs, b.later, b.active := b.evs[id := e], b.later[1..], Tailed(b.active, e.pri, id);
    }
    NoneLater(b);
    forall id | id in b.evs ensures b.evs[id] == NowActive(evs0[id]) {
      NowActiveOnce(evs0[id]);
    }
  }

  /** The events of a list that have a priority, in the order of the list. */
  function OfPriority(evs: Evs, q: seq<int>, p: nat): seq<int> {
    if q == [] then []
    else (if q[0] in evs && evs[q[0]].pri == p then [q[0]] else []) + OfPriority(evs, q[1..], p)
  }

  ghost predicate OnlyMoved(evs: Evs, evs0: Evs) {
    evs.Keys == evs0.Keys && forall id :: id in evs ==> evs[id].pri == evs0[id].pri
  }

  lemma MoveOne(evs: Evs, active: seq<seq<int>>, later: seq<int>, p: nat)
    requires later != [] && later[0] in evs && evs[later[0]].pri < |active| && p < |active|
    ensures Tailed(active, evs[later[0]].pri, later[0])[p] + OfPriority(evs, later[1..], p)
            == active[p] + OfPriority(evs, later, p)
  {
  }

  function NowActive(e: Ev): Ev {
    if Later in e.flags then e.(flags := e.flags - {Later} + {Active}) else e
  }

  lemma NowActiveOnce(e: Ev)
    ensures Later !in e.flags ==> NowActive(e) == e
  {
  }

  lemma NoneLater(b: EventBase)
    requires b.Consistent() && b.later == []
    ensures forall id :: id in b.evs ==> Later !in b.evs[id].flags
  {
    EmptyLater(b.evs);
  }

  lemma EmptyLater(evs: Evs)
    requires LaterOk(evs, [])
    ensures forall id :: id in evs ==> Later !in evs[id].flags
  {
    assert forall id :: id in evs ==> !evs[id].On(LaterList);
  }

  /** Moving the first event of the later queue to its active queue. */
  lemma LaterMoves(b: EventBase)
    requires Inv(b) && b.later != []
    ensures var id := b.later[0];
            && id in b.evs && b.evs[id].pri < |b.active| && Later in b.evs[id].flags
            && Books(b.evs[id := NowActive(b.evs[id])], b.heap.Items(), b.queues,
                     Tailed(b.active, b.evs[id].pri, id), b.later[1..], b.count, b.countActive)
            && Sound(b.evs[id := NowActive(b.evs[id])], b.timers, b.running)
  {
    hide Linked, Ordered, Contents, Memberships, Flagged, ListsOk, HeapOk;
    var id := b.later[0];
    assert id in b.later;
    assert b.evs[id].On(LaterList);
    var e := b.evs[id];
    BooksLaterOut(b.evs, b.heap.Items(), b.queues, b.active, b.later, b.count, b.countActive, id);
    assert Removed(b.later, id) == b.later[1..];
    var evs1 := b.evs[id := e.Without(Later)];
    BooksActiveIn(evs1, b.heap.Items(), b.queues, b.active, b.later[1..],
                  b.count - (if Internal in e.flags then 0 else 1), b.countActive - 1, id);
    assert NowActive(e) == e.Without(Later).With(Active);
    assert evs1[id := NowActive(e)] == b.evs[id := NowActive(e)];
    LaterSound(b.evs, b.timers, b.running, id);
  }

  lemma LaterSound(evs: Evs, timers: seq<int>, running: int, id: int)
    requires Sound(evs, timers, running) && id in evs && Later in evs[id].flags
    ensures Sound(evs[id := NowActive(evs[id])], timers, running)
  {
    assert forall c :: 0 <= c < |timers| ==> timers[c] != id;
    assert EvOk(NowActive(evs[id]));
    UserQuiet(evs, timers, running, id, NowActive(evs[id]));
  }
}
