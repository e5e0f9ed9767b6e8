/** The queues of an event base (libevent/event.c): the heap and the common-timeout
    lists that hold events with a timeout, the active queues by priority, the queue
    of events to run later, and the counters. An event's flags say where it is. */
module EventQueues {
  import opened MinHeap
  import opened IdLists

  datatype Flag = Timeout | Inserted | Active | Later | Finalizing | Internal

  /** A point in time or a duration in microseconds; `common` is the index of a
      common-timeout list, or -1. The source keeps it in spare bits of tv_usec. */
  datatype Time = Time(us: int, common: int)

  const NO_TIME: Time := Time(0, -1)

  datatype Closure = Plain | Persist | Finalize

  /** The lists of a base: by common timeout, by priority, and the one for later. */
  datatype List = CommonList(c: int) | ActiveList(p: int) | LaterList

  /** A struct event. `again` is ev_io_timeout; `byTimeout` is EV_TIMEOUT in ev_res. */
  datatype Ev = Ev(flags: set<Flag>, pri: nat, io: bool, persist: bool, closure: Closure,
                   at: Time, again: Time, byTimeout: bool) {
    predicate InHeap() {
      Timeout in flags && at.common < 0
    }

    /** The event belongs on a list. */
    predicate On(w: List) {
      match w
      case CommonList(c) => Timeout in flags && at.common == c
      case ActiveList(p) => Active in flags && pri == p
      case LaterList => Later in flags
    }

    function With(f: Flag): Ev {
      this.(flags := flags + {f})
    }

    function Without(f: Flag): Ev {
      this.(flags := flags - {f})
    }
  }

  type Evs = map<int, Ev>

  /** The events with a flag; those the user may see are not internal. */
  function Flagged(evs: Evs, f: Flag): set<int> {
    set id | id in evs && f in evs[id].flags
  }

  function Visible(evs: Evs, f: Flag): set<int> {
    set id | id in evs && f in evs[id].flags && Internal !in evs[id].flags
  }

  /** Queue memberships of events that are not internal. */
  function Memberships(evs: Evs): nat {
    |Visible(evs, Timeout)| + |Visible(evs, Inserted)| + |Visible(evs, Active)| + |Visible(evs, Later)|
  }

  /** A list holds exactly the events that belong on it, once each. */
  ghost predicate Lists(evs: Evs, q: seq<int>, w: List) {
    && Distinct(q)
    && (forall id :: id in q ==> id in evs && evs[id].On(w))
    && (forall id :: id in evs && evs[id].On(w) ==> id in q)
  }

  ghost predicate HeapOk(evs: Evs, items: map<int, int>) {
    && (forall id :: id in items ==> id in evs && evs[id].InHeap() && items[id] == evs[id].at.us)
    && (forall id :: id in evs && evs[id].InHeap() ==> id in items)
  }

  ghost predicate Sorted(evs: Evs, q: seq<int>) {
    forall i, j :: 0 <= i < j < |q| && q[i] in evs && q[j] in evs ==> evs[q[i]].at.us <= evs[q[j]].at.us
  }

  ghost predicate ListsOk(evs: Evs, queues: seq<seq<int>>) {
    && (forall c :: 0 <= c < |queues| ==> Lists(evs, queues[c], CommonList(c)) && Sorted(evs, queues[c]))
    && (forall id :: id in evs ==> -1 <= evs[id].at.common < |queues|)
  }

  ghost predicate ActiveOk(evs: Evs, active: seq<seq<int>>) {
    && (forall p :: 0 <= p < |active| ==> Lists(evs, active[p], ActiveList(p)))
    && (forall id :: id in evs ==> evs[id].pri < |active|)
  }

  ghost predicate LaterOk(evs: Evs, later: seq<int>) {
    Lists(evs, later, LaterList)
  }

  /** No event is both active and to become active later. */
  ghost predicate Apart(evs: Evs) {
    forall id :: id in evs ==> !(Active in evs[id].flags && Later in evs[id].flags)
  }

  // ----- one event changes -----

  lemma FlagChange(evs: Evs, id: int, e: Ev, f: Flag)
    requires id in evs && (Internal in e.flags <==> Internal in evs[id].flags)
    ensures Flagged(evs[id := e], f) == if f in e.flags then Flagged(evs, f) + {id} else Flagged(evs, f) - {id}
    ensures Visible(evs[id := e], f)
            == if f in e.flags && Internal !in e.flags then Visible(evs, f) + {id} else Visible(evs, f) - {id}
  {
  }

  /** How the counts change with one flag of one event. */
  lemma CountChange(evs: Evs, id: int, e: Ev, f: Flag)
    requires id in evs && (Internal in e.flags <==> Internal in evs[id].flags)
    ensures |Flagged(evs[id := e], f)| == |Flagged(evs, f)| + One(f in e.flags) - One(f in evs[id].flags)
    ensures |Visible(evs[id := e], f)|
            == |Visible(evs, f)| + One(f in e.flags && Internal !in e.flags) - One(f in evs[id].flags && Internal !in e.flags)
  {
    FlagChange(evs, id, e, f);
    Cardinality(Flagged(evs, f), id);
    Cardinality(Visible(evs, f), id);
  }

  lemma HeapSame(evs: Evs, items: map<int, int>, id: int, e: Ev)
    requires HeapOk(evs, items) && id in evs
    requires e.InHeap() == evs[id].InHeap() && (e.InHeap() ==> e.at.us == evs[id].at.us)
    ensures HeapOk(evs[id := e], items)
  {
  }

  lemma HeapIn(evs: Evs, items: map<int, int>, id: int, e: Ev)
    requires HeapOk(evs, items) && id in evs && e.InHeap()
    ensures HeapOk(evs[id := e], items[id := e.at.us])
  {
  }

  lemma HeapOut(evs: Evs, items: map<int, int>, id: int, e: Ev)
    requires HeapOk(evs, items) && id in evs && !e.InHeap()
    ensures HeapOk(evs[id := e], items - {id})
  {
  }

  lemma ListsSame(evs: Evs, q: seq<int>, w: List, id: int, e: Ev)
    requires Lists(evs, q, w) && id in evs && e.On(w) == evs[id].On(w)
    ensures Lists(evs[id := e], q, w)
  {
  }

  lemma RemovedSorted(evs: Evs, q: seq<int>, id: int)
    requires Sorted(evs, q)
    ensures Sorted(evs, Removed(q, id))
  {
    hide Cut;
    if id in q {
      CutAt(q, IndexOf(q, id));
    }
  }

  lemma ListOut(evs: Evs, q: seq<int>, w: List, id: int, e: Ev)
    requires Lists(evs, q, w) && id in evs && evs[id].On(w) && !e.On(w)
    ensures Lists(evs[id := e], Removed(q, id), w) && |Removed(q, id)| == |q| - 1
  {
    RemovedMembers(q, id);
  }

  lemma ListIn(evs: Evs, q: seq<int>, w: List, id: int, e: Ev, k: nat)
    requires Lists(evs, q, w) && id in evs && !evs[id].On(w) && e.On(w) && k <= |q|
    ensures Lists(evs[id := e], InsertedAt(q, k, id), w)
  {
    InsertedMembers(q, k, id);
  }

  /** The place where insert_common_timeout_inorder puts an event keeps order. */
  lemma InsertedSorted(evs: Evs, q: seq<int>, id: int, e: Ev, k: nat)
    requires Sorted(evs, q) && id !in q && k <= |q| && (forall i :: 0 <= i < |q| ==> q[i] in evs)
    requires k > 0 ==> evs[q[k - 1]].at.us <= e.at.us
    requires forall i :: k <= i < |q| ==> e.at.us < evs[q[i]].at.us
    ensures Sorted(evs[id := e], InsertedAt(q, k, id))
  {
    var r, m := InsertedAt(q, k, id), evs[id := e];
    assert forall i :: 0 <= i < |r| ==> r[i] == if i < k then q[i] else if i == k then id else q[i - 1];
    forall i, j | 0 <= i < j < |r| ensures m[r[i]].at.us <= m[r[j]].at.us {
      if i < k {
        assert evs[q[i]].at.us <= evs[q[k - 1]].at.us;
        assert k <= j ==> m[r[i]].at.us <= e.at.us;
      }
    }
  }

  lemma SortedSame(evs: Evs, q: seq<int>, id: int, e: Ev)
    requires Sorted(evs, q) && (id in q ==> id in evs && e.at == evs[id].at)
    ensures Sorted(evs[id := e], q)
  {
  }

  // ----- the effect on all lists of a kind -----

  lemma ListsOkSame(evs: Evs, queues: seq<seq<int>>, id: int, e: Ev)
    requires ListsOk(evs, queues) && id in evs
    requires (Timeout in e.flags <==> Timeout in evs[id].flags) && -1 <= e.at.common < |queues|
    requires Timeout in e.flags ==> e.at == evs[id].at
    ensures ListsOk(evs[id := e], queues)
  {
    forall c | 0 <= c < |queues|
      ensures Lists(evs[id := e], queues[c], CommonList(c)) && Sorted(evs[id := e], queues[c])
    {
      ListsSame(evs, queues[c], CommonList(c), id, e);
      SortedSame(evs, queues[c], id, e);
    }
  }

  lemma ListsOkOut(evs: Evs, queues: seq<seq<int>>, id: int, e: Ev)
    requires ListsOk(evs, queues) && id in evs && Timeout in evs[id].flags && evs[id].at.common >= 0
    requires Timeout !in e.flags && e.at == evs[id].at
    ensures var c := evs[id].at.common;
            ListsOk(evs[id := e], queues[c := Removed(queues[c], id)])
  {
    var d := evs[id].at.common;
    var after := queues[d := Removed(queues[d], id)];
    forall c | 0 <= c < |after|
      ensures Lists(evs[id := e], after[c], CommonList(c)) && Sorted(evs[id := e], after[c])
    {
      if c == d {
        ListOut(evs, queues[c], CommonList(c), id, e);
        RemovedSorted(evs, queues[c], id);
        SortedSame(evs, after[c], id, e);
      } else {
        ListsSame(evs, queues[c], CommonList(c), id, e);
        SortedSame(evs, queues[c], id, e);
      }
    }
  }

  lemma ListsOkIn(evs: Evs, queues: seq<seq<int>>, id: int, e: Ev, k: nat)
    requires ListsOk(evs, queues) && id in evs && Timeout !in evs[id].flags
    requires Timeout in e.flags && 0 <= e.at.common < |queues| && k <= |queues[e.at.common]|
    requires var q := queues[e.at.common];
             && (k > 0 && q[k - 1] in evs ==> evs[q[k - 1]].at.us <= e.at.us)
             && (forall i :: k <= i < |q| && q[i] in evs ==> e.at.us < evs[q[i]].at.us)
    ensures var c := e.at.common;
            ListsOk(evs[id := e], queues[c := InsertedAt(queues[c], k, id)])
  {
    var d := e.at.common;
    var after := queues[d := InsertedAt(queues[d], k, id)];
    assert Lists(evs, queues[d], CommonList(d));
    forall c | 0 <= c < |after|
      ensures Lists(evs[id := e], after[c], CommonList(c)) && Sorted(evs[id := e], after[c])
    {
      if c == d {
        ListIn(evs, queues[c], CommonList(c), id, e, k);
        assert forall i :: 0 <= i < |queues[c]| ==> queues[c][i] in queues[c];
        InsertedSorted(evs, queues[c], id, e, k);
      } else {
        ListsSame(evs, queues[c], CommonList(c), id, e);
        SortedSame(evs, queues[c], id, e);
      }
    }
  }

  lemma ActiveOkSame(evs: Evs, active: seq<seq<int>>, id: int, e: Ev)
    requires ActiveOk(evs, active) && id in evs
    requires (Active in e.flags <==> Active in evs[id].flags) && e.pri == evs[id].pri
    ensures ActiveOk(evs[id := e], active)
  {
    forall p | 0 <= p < |active| ensures Lists(evs[id := e], active[p], ActiveList(p)) {
      ListsSame(evs, active[p], ActiveList(p), id, e);
    }
  }

  lemma ActiveOkOut(evs: Evs, active: seq<seq<int>>, id: int, e: Ev)
    requires ActiveOk(evs, active) && id in evs && Active in evs[id].flags
    requires Active !in e.flags && e.pri == evs[id].pri
    ensures ActiveOk(evs[id := e], active[e.pri := Removed(active[e.pri], id)])
  {
    var after := active[e.pri := Removed(active[e.pri], id)];
    forall p | 0 <= p < |after| ensures Lists(evs[id := e], after[p], ActiveList(p)) {
      if p == e.pri {
        ListOut(evs, active[p], ActiveList(p), id, e);
      } else {
        ListsSame(evs, active[p], ActiveList(p), id, e);
      }
    }
  }

  lemma ActiveOkIn(evs: Evs, active: seq<seq<int>>, id: int, e: Ev)
    requires ActiveOk(evs, active) && id in evs && Active !in evs[id].flags
    requires Active in e.flags && e.pri == evs[id].pri
    ensures ActiveOk(evs[id := e], active[e.pri := active[e.pri] + [id]])
  {
    var after := active[e.pri := active[e.pri] + [id]];
    forall p | 0 <= p < |after| ensures Lists(evs[id := e], after[p], ActiveList(p)) {
      if p == e.pri {
        ListIn(evs, active[p], ActiveList(p), id, e, |active[p]|);
        assert InsertedAt(active[p], |active[p]|, id) == active[p] + [id];
      } else {
        ListsSame(evs, active[p], ActiveList(p), id, e);
      }
    }
  }

  /** Queues and counters say the same as the flags. */
  ghost predicate Books(evs: Evs, items: map<int, int>, queues: seq<seq<int>>, active: seq<seq<int>>, later: seq<int>,
                        count: int, countActive: int) {
    && HeapOk(evs, items)
    && ListsOk(evs, queues)
    && ActiveOk(evs, active)
    && LaterOk(evs, later)
    && Apart(evs)
    && count == Memberships(evs)
    && countActive == |Flagged(evs, Active)| + |Flagged(evs, Later)|
  }

  /** Everything but what one flag decides stays right. */
  lemma CountsChange(evs: Evs, id: int, e: Ev, f: Flag)
    requires id in evs && e.flags in {evs[id].flags + {f}, evs[id].flags - {f}}
    requires f in {Timeout, Inserted, Active, Later}
    ensures Memberships(evs[id := e]) == Memberships(evs)
            + (if Internal in e.flags then 0 else One(f in e.flags) - One(f in evs[id].flags))
    ensures |Flagged(evs[id := e], Active)| + |Flagged(evs[id := e], Later)|
            == |Flagged(evs, Active)| + |Flagged(evs, Later)|
               + if f == Active || f == Later then One(f in e.flags) - One(f in evs[id].flags) else 0
  {
    hide Flagged, Visible;
    CountChange(evs, id, e, Timeout);
    CountChange(evs, id, e, Inserted);
    CountChange(evs, id, e, Active);
    CountChange(evs, id, e, Later);
  }

  /** Fields that no queue depends on may change. */
  lemma BooksTouch(evs: Evs, items: map<int, int>, queues: seq<seq<int>>, active: seq<seq<int>>, later: seq<int>,
                   count: int, countActive: int, id: int, e: Ev)
    requires Books(evs, items, queues, active, later, count, countActive) && id in evs
    requires e.flags - {Finalizing} == evs[id].flags - {Finalizing} && e.pri == evs[id].pri
    requires -1 <= e.at.common < |queues| && (Timeout in e.flags ==> e.at == evs[id].at)
    ensures Books(evs[id := e], items, queues, active, later, count, countActive)
  {
    hide HeapOk, ListsOk, ActiveOk, Lists, Flagged, Visible;
    SameButFinalizing(e.flags, evs[id].flags);
    HeapSame(evs, items, id, e);
    ListsOkSame(evs, queues, id, e);
    ActiveOkSame(evs, active, id, e);
    ListsSame(evs, later, LaterList, id, e);
    CountChange(evs, id, e, Timeout);
    CountChange(evs, id, e, Inserted);
    CountChange(evs, id, e, Active);
    CountChange(evs, id, e, Later);
  }

  lemma SameButFinalizing(a: set<Flag>, b: set<Flag>)
    requires a - {Finalizing} == b - {Finalizing}
    ensures forall f: Flag :: f != Finalizing ==> (f in a <==> f in b)
  {
    forall f: Flag | f != Finalizing ensures f in a <==> f in b {
      assert f in a - {Finalizing} <==> f in b - {Finalizing};
    }
  }

  /** event_queue_insert_inserted and event_queue_remove_inserted. */
  lemma BooksInserted(evs: Evs, items: map<int, int>, queues: seq<seq<int>>, active: seq<seq<int>>, later: seq<int>,
                      count: int, countActive: int, id: int, on: bool)
    requires Books(evs, items, queues, active, later, count, countActive) && id in evs
    requires on <==> Inserted !in evs[id].flags
    ensures var e := if on then evs[id].With(Inserted) else evs[id].Without(Inserted);
            Books(evs[id := e], items, queues, active, later,
                  count + (if Internal in evs[id].flags then 0 else if on then 1 else -1), countActive)
  {
    hide HeapOk, ListsOk, ActiveOk, Lists, Flagged, Visible, Memberships;
    var e := if on then evs[id].With(Inserted) else evs[id].Without(Inserted);
    HeapSame(evs, items, id, e);
    ListsOkSameFlags(evs, queues, id, e);
    ActiveOkSame(evs, active, id, e);
    ListsSame(evs, later, LaterList, id, e);
    CountsChange(evs, id, e, Inserted);
  }

  lemma ListsOkSameFlags(evs: Evs, queues: seq<seq<int>>, id: int, e: Ev)
    requires ListsOk(evs, queues) && id in evs
    requires (Timeout in e.flags <==> Timeout in evs[id].flags) && e.at == evs[id].at
    ensures ListsOk(evs[id := e], queues)
  {
    ListsOkSame(evs, queues, id, e);
  }

  /** event_queue_insert_active. */
  lemma BooksActiveIn(evs: Evs, items: map<int, int>, queues: seq<seq<int>>, active: seq<seq<int>>, later: seq<int>,
                      count: int, countActive: int, id: int)
    requires Books(evs, items, queues, active, later, count, countActive) && id in evs
    requires Active !in evs[id].flags && Later !in evs[id].flags
    ensures var e := evs[id].With(Active);
            && e.pri < |active|
            && Books(evs[id := e], items, queues, active[e.pri := active[e.pri] + [id]], later,
                     count + (if Internal in evs[id].flags then 0 else 1), countActive + 1)
  {
    hide HeapOk, ListsOk, Lists, Flagged, Visible, Memberships;
    var e := evs[id].With(Active);
    HeapSame(evs, items, id, e);
    ListsOkSameFlags(evs, queues, id, e);
    ActiveOkIn(evs, active, id, e);
    ListsSame(evs, later, LaterList, id, e);
    CountsChange(evs, id, e, Active);
  }

  /** event_queue_remove_active. */
  lemma BooksActiveOut(evs: Evs, items: map<int, int>, queues: seq<seq<int>>, active: seq<seq<int>>, later: seq<int>,
                       count: int, countActive: int, id: int)
    requires Books(evs, items, queues, active, later, count, countActive) && id in evs
    requires Active in evs[id].flags
    ensures var e := evs[id].Without(Active);
            && e.pri < |active|
            && Books(evs[id := e], items, queues, active[e.pri := Removed(active[e.pri], id)], later,
                     count - (if Internal in evs[id].flags then 0 else 1), countActive - 1)
  {
    hide HeapOk, ListsOk, Lists, Flagged, Visible, Memberships, Removed;
    var e := evs[id].Without(Active);
    HeapSame(evs, items, id, e);
    ListsOkSameFlags(evs, queues, id, e);
    ActiveOkOut(evs, active, id, e);
    ListsSame(evs, later, LaterList, id, e);
    CountsChange(evs, id, e, Active);
  }

  /** event_queue_insert_active_later. */
  lemma BooksLaterIn(evs: Evs, items: map<int, int>, queues: seq<seq<int>>, active: seq<seq<int>>, later: seq<int>,
                     count: int, countActive: int, id: int)
    requires Books(evs, items, queues, active, later, count, countActive) && id in evs
    requires Active !in evs[id].flags && Later !in evs[id].flags
    ensures Books(evs[id := evs[id].With(Later)], items, queues, active, later + [id],
                  count + (if Internal in evs[id].flags then 0 else 1), countActive + 1)
  {
    hide HeapOk, ListsOk, ActiveOk, Lists, Flagged, Visible, Memberships;
    var e := evs[id].With(Later);
    HeapSame(evs, items, id, e);
    ListsOkSameFlags(evs, queues, id, e);
    ActiveOkSame(evs, active, id, e);
    ListIn(evs, later, LaterList, id, e, |later|);
    assert InsertedAt(later, |later|, id) == later + [id];
    CountsChange(evs, id, e, Later);
  }

  /** event_queue_remove_active_later. */
  lemma BooksLaterOut(evs: Evs, items: map<int, int>, queues: seq<seq<int>>, active: seq<seq<int>>, later: seq<int>,
                      count: int, countActive: int, id: int)
    requires Books(evs, items, queues, active, later, count, countActive) && id in evs
    requires Later in evs[id].flags
    ensures Books(evs[id := evs[id].Without(Later)], items, queues, active, Removed(later, id),
                  count - (if Internal in evs[id].flags then 0 else 1), countActive - 1)
    ensures |Removed(later, id)| == |later| - 1
  {
    hide HeapOk, ListsOk, ActiveOk, Lists, Flagged, Visible, Memberships, Removed;
    var e := evs[id].Without(Later);
    HeapSame(evs, items, id, e);
    ListsOkSameFlags(evs, queues, id, e);
    ActiveOkSame(evs, active, id, e);
    ListOut(evs, later, LaterList, id, e);
    CountsChange(evs, id, e, Later);
  }

  /** event_queue_remove_timeout. */
  lemma BooksTimeoutOut(evs: Evs, items: map<int, int>, queues: seq<seq<int>>, active: seq<seq<int>>, later: seq<int>,
                        count: int, countActive: int, id: int)
    requires Books(evs, items, queues, active, later, count, countActive) && id in evs
    requires Timeout in evs[id].flags
    ensures var e, c := evs[id].Without(Timeout), evs[id].at.common;
            && c < |queues|
            && Books(evs[id := e], if c < 0 then items - {id} else items,
                     if c < 0 then queues else queues[c := Removed(queues[c], id)], active, later,
                     count - (if Internal in evs[id].flags then 0 else 1), countActive)
  {
    hide HeapOk, ActiveOk, Lists, Flagged, Visible, Memberships, Removed, Sorted;
    var e, c := evs[id].Without(Timeout), evs[id].at.common;
    if c < 0 {
      HeapOut(evs, items, id, e);
      ListsOkHeap(evs, queues, id, e);
    } else {
      HeapSame(evs, items, id, e);
      ListsOkOut(evs, queues, id, e);
    }
    ActiveOkSame(evs, active, id, e);
    ListsSame(evs, later, LaterList, id, e);
    CountsChange(evs, id, e, Timeout);
  }

  /** The common lists do not see an event that comes to or goes from the heap. */
  lemma ListsOkHeap(evs: Evs, queues: seq<seq<int>>, id: int, e: Ev)
    requires ListsOk(evs, queues) && id in evs && e.at == evs[id].at && e.at.common < 0
    ensures ListsOk(evs[id := e], queues)
  {
    forall c | 0 <= c < |queues|
      ensures Lists(evs[id := e], queues[c], CommonList(c)) && Sorted(evs[id := e], queues[c])
    {
      ListsSame(evs, queues[c], CommonList(c), id, e);
      SortedSame(evs, queues[c], id, e);
    }
  }

  /** event_queue_insert_timeout, into the heap. */
  lemma BooksHeapIn(evs: Evs, items: map<int, int>, queues: seq<seq<int>>, active: seq<seq<int>>, later: seq<int>,
                    count: int, countActive: int, id: int)
    requires Books(evs, items, queues, active, later, count, countActive) && id in evs
    requires Timeout !in evs[id].flags && evs[id].at.common < 0
    ensures id !in items
    ensures Books(evs[id := evs[id].With(Timeout)], items[id := evs[id].at.us], queues, active, later,
                  count + (if Internal in evs[id].flags then 0 else 1), countActive)
  {
    hide ListsOk, ActiveOk, Lists, Flagged, Visible, Memberships, Removed, Sorted;
    var e := evs[id].With(Timeout);
    HeapIn(evs, items, id, e);
    ListsOkHeap(evs, queues, id, e);
    ActiveOkSame(evs, active, id, e);
    ListsSame(evs, later, LaterList, id, e);
    CountsChange(evs, id, e, Timeout);
  }

  /** event_queue_insert_timeout, into a common list at place `k`. */
  lemma BooksListIn(evs: Evs, items: map<int, int>, queues: seq<seq<int>>, active: seq<seq<int>>, later: seq<int>,
                    count: int, countActive: int, id: int, k: nat)
    requires Books(evs, items, queues, active, later, count, countActive) && id in evs
    requires Timeout !in evs[id].flags && 0 <= evs[id].at.common < |queues|
    requires InPlace(evs, queues[evs[id].at.common], k, evs[id].at.us)
    ensures var c := evs[id].at.common;
            Books(evs[id := evs[id].With(Timeout)], items, queues[c := InsertedAt(queues[c], k, id)], active, later,
                  count + (if Internal in evs[id].flags then 0 else 1), countActive)
  {
    hide HeapOk, ListsOk, ActiveOk, Lists, Flagged, Visible, Memberships, Sorted;
    var e := evs[id].With(Timeout);
    HeapSame(evs, items, id, e);
    ListsOkIn(evs, queues, id, e, k);
    ActiveOkSame(evs, active, id, e);
    ListsSame(evs, later, LaterList, id, e);
    CountsChange(evs, id, e, Timeout);
  }

  /** What lies before `k` is not later, what lies from `k` on is later. */
  ghost predicate InPlace(evs: Evs, q: seq<int>, k: nat, us: int) {
    && k <= |q|
    && (k > 0 && q[k - 1] in evs ==> evs[q[k - 1]].at.us <= us)
    && (forall i :: k <= i < |q| && q[i] in evs ==> us < evs[q[i]].at.us)
  }

  /** insert_common_timeout_inorder: search from the end. */
  method FindPlace(evs: Evs, q: seq<int>, us: int) returns (k: nat)
    requires forall i :: 0 <= i < |q| ==> q[i] in evs
    ensures InPlace(evs, q, k, us)
  {
    k := |q|;
    while k > 0 && evs[q[k - 1]].at.us > us
      invariant k <= |q|
      invariant forall i :: k <= i < |q| && q[i] in evs ==> us < evs[q[i]].at.us
    {
      k := k - 1;
    }
  }
}
