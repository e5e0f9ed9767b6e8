/** The event base of libevent/event.c: adding, deleting, activating and finalizing
    events, timeouts, and running what is active. */
module EventCore {
  import opened Options
  import opened MinHeap
  import opened IdLists
  import opened EventQueues

  // ----- what the operations do to one event -----

  /** event_del_nolock_. */
  function Deleted(e: Ev): Ev {
    if Finalizing in e.flags then e else e.(flags := e.flags - {Timeout, Active, Later, Inserted})
  }

  /** event_active_nolock_. */
  function Activated(e: Ev, byTimeout: bool): Ev {
    if Finalizing in e.flags then e
    else if Active in e.flags then e.(byTimeout := e.byTimeout || byTimeout)
    else if Later in e.flags then e.(flags := e.flags - {Later} + {Active}, byTimeout := e.byTimeout || byTimeout)
    else e.(flags := e.flags + {Active}, byTimeout := byTimeout)
  }

  /** event_active_later_nolock_. */
  function ActivatedLater(e: Ev, byTimeout: bool): Ev {
    if Active in e.flags || Later in e.flags then e.(byTimeout := e.byTimeout || byTimeout)
    else e.(flags := e.flags + {Later}, byTimeout := byTimeout)
  }

  /** A timeout runs out: the event is deleted and activated. */
  function Fired(e: Ev): Ev {
    Activated(Deleted(e), true)
  }

  /** The timeout part of event_add_nolock_. */
  function Timed(e: Ev, tv: Time, absolute: bool, now: int): Ev {
    e.(flags := (if Active in e.flags && e.byTimeout then e.flags - {Active} else e.flags) + {Timeout},
       at := if absolute then tv else Time(now + tv.us, tv.common),
       again := if e.closure == Persist && !absolute then tv else e.again)
  }

  /** event_add_nolock_ puts the event on the list of its descriptor. */
  predicate Joins(e: Ev) {
    e.io && Inserted !in e.flags && Active !in e.flags && Later !in e.flags
  }

  function Added(e: Ev, tv: Option<Time>, absolute: bool, now: int): Ev {
    var e1 := if Joins(e) then e.With(Inserted) else e;
    if tv.None? then e1 else Timed(e1, tv.value, absolute, now)
  }

  /** event_finalize_nolock_. */
  function Finalized(e: Ev): Ev {
    Activated(Deleted(e).(closure := Finalize), false).With(Finalizing)
  }

  lemma SameUpdate(evs: Evs, id: int)
    requires id in evs
    ensures evs[id := evs[id]] == evs
  {
  }

  lemma WithoutAbsent(e: Ev, f: Flag)
    requires f !in e.flags
    ensures e.Without(f) == e
  {
    assert e.flags - {f} == e.flags;
  }

  lemma DeletedFlags(e: Ev, d: Ev)
    requires Finalizing !in e.flags && !(Active in e.flags && Later in e.flags)
    requires d == e.(flags := d.flags)
    requires Timeout !in d.flags && Active !in d.flags && Later !in d.flags && Inserted !in d.flags
    requires forall f :: f in d.flags <==> f in e.flags && f !in {Timeout, Active, Later, Inserted}
    ensures d == Deleted(e)
  {
    assert d.flags == Deleted(e).flags;
  }

  lemma TimedFlags(e: Ev, d: Ev, tv: Time, absolute: bool, now: int)
    requires d == e.(flags := d.flags)
    requires forall f :: f in d.flags <==> f in e.flags && f != Timeout && !(f == Active && e.byTimeout)
    ensures d.flags + {Timeout} == Timed(e, tv, absolute, now).flags
  {
  }

  /** TAILQ_INSERT_TAIL on the active queue of a priority. */
  function Tailed(active: seq<seq<int>>, p: nat, id: int): seq<seq<int>>
    requires p < |active|
  {
    active[p := active[p] + [id]]
  }

  class EventBase {
    var evs: Evs
    const heap: Heap
    const priorities: nat
    var queues: seq<seq<int>>
    var active: seq<seq<int>>
    var later: seq<int>
    var count: int
    var countActive: int
    /** The internal timer of each common-timeout list, and its duration. */
    var timers: seq<int>
    var durations: seq<int>
    /** current_event: the event whose callback is about to run or running, or -1. */
    var running: int

    /** A base with some priorities and no events. */
    constructor (priorities: nat)
      ensures Consistent() && evs == map[] && queues == [] && timers == durations == [] && running == -1
      ensures this.priorities == priorities && fresh(heap)
    {
      heap := new Heap();
      this.priorities := priorities;
      evs, queues, active, later := map[], [], seq(priorities, i => []), [];
      count, countActive, timers, durations, running := 0, 0, [], [], -1;
      new;
      assert forall f :: Flagged(evs, f) == {} && Visible(evs, f) == {};
    }

    ghost predicate Consistent() reads this, heap {
      heap.Valid() && |active| == priorities && Books(evs, heap.Items(), queues, active, later, count, countActive)
    }

    function Step(id: int): int
      requires id in evs
      reads this
    {
      if Internal in evs[id].flags then 0 else 1
    }

    method SetInserted(id: int, on: bool)
      requires Consistent() && id in evs && (on <==> Inserted !in evs[id].flags)
      modifies this`evs, this`count
      ensures Consistent()
      ensures evs == old(evs)[id := if on then old(evs)[id].With(Inserted) else old(evs)[id].Without(Inserted)]
    {
      hide Books;
      BooksInserted(evs, heap.Items(), queues, active, later, count, countActive, id, on);
      count := count + if on then Step(id) else -Step(id);
      evs := evs[id := if on then evs[id].With(Inserted) else evs[id].Without(Inserted)];
    }

    method InsertActive(id: int)
      requires Consistent() && id in evs && Active !in evs[id].flags && Later !in evs[id].flags
      modifies this`evs, this`count, this`countActive, this`active
      ensures Consistent() && evs == old(evs)[id := old(evs)[id].With(Active)]
      ensures evs[id].pri < |old(active)| && active == Tailed(old(active), evs[id].pri, id)
    {
      hide Books;
      BooksActiveIn(evs, heap.Items(), queues, active, later, count, countActive, id);
      var p := evs[id].pri;
      count, countActive := count + Step(id), countActive + 1;
      evs, active := evs[id := evs[id].With(Active)], Tailed(active, p, id);
    }

    method RemoveActive(id: int)
      requires Consistent() && id in evs && Active in evs[id].flags
      modifies this`evs, this`count, this`countActive, this`active
      ensures Consistent() && evs == old(evs)[id := old(evs)[id].Without(Active)]
      ensures evs[id].pri < |old(active)| && active == old(active)[evs[id].pri := Removed(old(active)[evs[id].pri], id)]
    {
      hide Books;
      BooksActiveOut(evs, heap.Items(), queues, active, later, count, countActive, id);
      var p := evs[id].pri;
      count, countActive := count - Step(id), countActive - 1;
      evs, active := evs[id := evs[id].Without(Active)], active[p := Removed(active[p], id)];
    }

    method InsertLater(id: int)
      requires Consistent() && id in evs && Active !in evs[id].flags && Later !in evs[id].flags
      modifies this`evs, this`count, this`countActive, this`later
      ensures Consistent() && evs == old(evs)[id := old(evs)[id].With(Later)] && later == old(later) + [id]
    {
      hide Books;
      BooksLaterIn(evs, heap.Items(), queues, active, later, count, countActive, id);
      count, countActive := count + Step(id), countActive + 1;
      evs, later := evs[id := evs[id].With(Later)], later + [id];
    }

    method RemoveLater(id: int)
      requires Consistent() && id in evs && Later in evs[id].flags
      modifies this`evs, this`count, this`countActive, this`later
      ensures Consistent() && evs == old(evs)[id := old(evs)[id].Without(Later)]
      ensures later == Removed(old(later), id) && |later| == old(|later|) - 1
    {
      hide Books;
      BooksLaterOut(evs, heap.Items(), queues, active, later, count, countActive, id);
      count, countActive := count - Step(id), countActive - 1;
      evs, later := evs[id := evs[id].Without(Later)], Removed(later, id);
    }

    method RemoveTimeout(id: int)
      requires Consistent() && id in evs && Timeout in evs[id].flags
      modifies this`evs, this`count, this`queues, heap
      ensures Consistent() && evs == old(evs)[id := old(evs)[id].Without(Timeout)] && |queues| == old(|queues|)
      ensures heap.Items() == if old(evs)[id].InHeap() then old(heap.Items()) - {id} else old(heap.Items())
      ensures var c := evs[id].at.common;
              c < |queues| && queues == if c < 0 then old(queues) else old(queues)[c := Removed(old(queues)[c], id)]
    {
      hide Books;
      BooksTimeoutOut(evs, heap.Items(), queues, active, later, count, countActive, id);
      var c := evs[id].at.common;
      count := count - Step(id);
      evs := evs[id := evs[id].Without(Timeout)];
      if c < 0 {
        var r := heap.Erase(id);
      } else {
        queues := queues[c := Removed(queues[c], id)];
      }
    }

    method InsertTimeout(id: int)
      requires Consistent() && id in evs && Timeout !in evs[id].flags && evs[id].at.common < |queues|
      modifies this`evs, this`count, this`queues, heap
      ensures Consistent() && evs == old(evs)[id := old(evs)[id].With(Timeout)] && |queues| == old(|queues|)
    {
      hide Books;
      var c := evs[id].at.common;
      if c < 0 {
        BooksHeapIn(evs, heap.Items(), queues, active, later, count, countActive, id);
        heap.Push(id, evs[id].at.us);
      } else {
        ListKnown(c);
        var k := FindPlace(evs, queues[c], evs[id].at.us);
        BooksListIn(evs, heap.Items(), queues, active, later, count, countActive, id, k);
        queues := queues[c := InsertedAt(queues[c], k, id)];
      }
      count := count + Step(id);
      evs := evs[id := evs[id].With(Timeout)];
    }

    lemma ListKnown(c: nat)
      requires Consistent() && c < |queues|
      ensures forall i :: 0 <= i < |queues[c]| ==> queues[c][i] in evs && evs[queues[c][i]].On(CommonList(c))
    {
      assert Lists(evs, queues[c], CommonList(c));
      forall i | 0 <= i < |queues[c]| ensures queues[c][i] in evs && evs[queues[c][i]].On(CommonList(c)) {
        assert queues[c][i] in queues[c];
      }
    }

    /** Fields that no queue depends on. */
    method Touch(id: int, e: Ev)
      requires Consistent() && id in evs
      requires e.flags - {Finalizing} == evs[id].flags - {Finalizing} && e.pri == evs[id].pri
      requires -1 <= e.at.common < |queues| && (Timeout in e.flags ==> e.at == evs[id].at)
      modifies this`evs
      ensures Consistent() && evs == old(evs)[id := e]
    {
      hide Books;
      BooksTouch(evs, heap.Items(), queues, active, later, count, countActive, id, e);
      evs := evs[id := e];
    }

    // ----- operations on one event, by the flags -----

    lemma OneQueue(id: int)
      requires Consistent() && id in evs
      ensures !(Active in evs[id].flags && Later in evs[id].flags)
      ensures -1 <= evs[id].at.common < |queues| && evs[id].pri < |active|
    {
    }

    /** event_del_nolock_. */
    method Delete(id: int)
      requires Consistent() && id in evs
      modifies this`evs, this`count, this`countActive, this`active, this`later, this`queues, heap
      ensures Consistent() && evs == old(evs)[id := Deleted(old(evs)[id])]
      ensures |queues| == old(|queues|)
      ensures var e, c := old(evs)[id], old(evs)[id].at.common;
              && (Finalizing !in e.flags && e.InHeap() ==> heap.Items() == old(heap.Items()) - {id})
              && (Finalizing !in e.flags && Timeout in e.flags && c >= 0 ==>
                    c < |queues| && queues == old(queues)[c := Removed(old(queues)[c], id)])
    {
      hide Books, Removed, Linked, Ordered, Contents;
      OneQueue(id);
      ghost var e := evs[id];
      if Finalizing in evs[id].flags {
        SameUpdate(evs, id);
        return;
      }
      DropTimeout(id);
      DropRest(id);
      DeletedFlags(e, evs[id]);
      assert evs == old(evs)[id := evs[id]];
    }

    method DropRest(id: int)
      requires Consistent() && id in evs
      modifies this`evs, this`count, this`countActive, this`active, this`later
      ensures Consistent() && evs == old(evs)[id := old(evs)[id].(flags := old(evs)[id].flags - {Active, Later, Inserted})]
    {
      hide Books, Removed, Linked, Ordered, Contents;
      OneQueue(id);
      ghost var e := evs[id];
      if Active in evs[id].flags {
        RemoveActive(id);
      } else {
        DropLater(id);
      }
      if Inserted in evs[id].flags {
        SetInserted(id, false);
      }
      assert evs[id].flags == e.flags - {Active, Later, Inserted};
      assert evs == old(evs)[id := evs[id]];
    }

    method DropTimeout(id: int)
      requires Consistent() && id in evs
      modifies this`evs, this`count, this`queues, heap
      ensures Consistent() && evs == old(evs)[id := old(evs)[id].Without(Timeout)] && |queues| == old(|queues|)
      ensures var e, c := old(evs)[id], old(evs)[id].at.common;
              && heap.Items() == (if e.InHeap() then old(heap.Items()) - {id} else old(heap.Items()))
              && queues == if Timeout in e.flags && 0 <= c < |queues| then old(queues)[c := Removed(old(queues)[c], id)] else old(queues)
      ensures -1 <= evs[id].at.common < |queues|
    {
      hide Books, Removed, Linked, Ordered, Contents;
      OneQueue(id);
      if Timeout in evs[id].flags {
        RemoveTimeout(id);
      } else {
        WithoutAbsent(evs[id], Timeout);
        SameUpdate(evs, id);
      }
    }

    method DropLater(id: int)
      requires Consistent() && id in evs
      modifies this`evs, this`count, this`countActive, this`later
      ensures Consistent() && evs == old(evs)[id := old(evs)[id].Without(Later)]
    {
      hide Books, Removed, Linked, Ordered, Contents;
      if Later in evs[id].flags {
        RemoveLater(id);
      } else {
        WithoutAbsent(evs[id], Later);
        SameUpdate(evs, id);
      }
    }

    /** event_active_nolock_ and event_callback_activate_nolock_. */
    method Activate(id: int, byTimeout: bool)
      requires Consistent() && id in evs
      modifies this`evs, this`count, this`countActive, this`active, this`later
      ensures Consistent() && evs == old(evs)[id := Activated(old(evs)[id], byTimeout)]
      ensures var e := old(evs)[id];
              if Finalizing in e.flags || Active in e.flags then active == old(active) && later == old(later)
              else e.pri < |old(active)| && active == Tailed(old(active), e.pri, id)
                   && later == if Later in e.flags then Removed(old(later), id) else old(later)
    {
      hide Books, Removed;
      OneQueue(id);
      if Finalizing in evs[id].flags {
        return;
      }
      if Active in evs[id].flags {
        Touch(id, evs[id].(byTimeout := evs[id].byTimeout || byTimeout));
        return;
      }
      if Later in evs[id].flags {
        Touch(id, evs[id].(byTimeout := evs[id].byTimeout || byTimeout));
        RemoveLater(id);
      } else {
        Touch(id, evs[id].(byTimeout := byTimeout));
      }
      InsertActive(id);
    }

    /** event_active_later_nolock_. */
    method ActivateLater(id: int, byTimeout: bool)
      requires Consistent() && id in evs
      modifies this`evs, this`count, this`countActive, this`later
      ensures Consistent() && evs == old(evs)[id := ActivatedLater(old(evs)[id], byTimeout)]
      ensures later == if Active in old(evs)[id].flags || Later in old(evs)[id].flags then old(later) else old(later) + [id]
    {
      hide Books, Removed;
      OneQueue(id);
      if Active in evs[id].flags || Later in evs[id].flags {
        Touch(id, evs[id].(byTimeout := evs[id].byTimeout || byTimeout));
        return;
      }
      Touch(id, evs[id].(byTimeout := byTimeout));
      InsertLater(id);
    }

    /** The timeout part of event_add_nolock_. */
    method SetTimeout(id: int, tv: Time, absolute: bool, now: int)
      requires Consistent() && id in evs && -1 <= tv.common < |queues|
      modifies this`evs, this`count, this`countActive, this`active, this`queues, heap
      ensures Consistent() && evs == old(evs)[id := Timed(old(evs)[id], tv, absolute, now)]
      ensures |queues| == old(|queues|)
    {
      hide Books, Removed, Linked, Ordered, Contents;
      ghost var e0 := evs[id];
      DropTimeout(id);
      if Active in evs[id].flags && evs[id].byTimeout {
        RemoveActive(id);
      }
      ghost var e1 := evs[id];
      TimedFlags(e0, e1, tv, absolute, now);
      Touch(id, evs[id].(at := if absolute then tv else Time(now + tv.us, tv.common),
                         again := if evs[id].closure == Persist && !absolute then tv else evs[id].again));
      InsertTimeout(id);
      assert evs == old(evs)[id := evs[id]];
    }
  }
}
