/** Whole runs of an event base: any sequence of operations, callbacks and clock
    readings keeps its books, and no pending timeout is ever slept through. */
module EventRun {
  import opened Options
  import opened MinHeap
  import opened IdLists
  import opened EventQueues
  import opened EventCore
  import opened EventLoop
  import opened EventDispatch

  /** An event that was just assigned. */
  function Blank(flags: set<Flag>, pri: nat, io: bool, persist: bool): Ev {
    Ev(flags, pri, io, persist, if persist then Persist else Plain, NO_TIME, NO_TIME, false)
  }

  lemma NewLists(evs: Evs, q: seq<int>, w: List, id: int, e: Ev)
    requires Lists(evs, q, w) && id !in evs && !e.On(w)
    ensures Lists(evs[id := e], q, w)
  {
  }

  lemma NewCounts(evs: Evs, id: int, e: Ev, f: Flag)
    requires id !in evs && e.flags <= {Internal} && f != Internal
    ensures Flagged(evs[id := e], f) == Flagged(evs, f) && Visible(evs[id := e], f) == Visible(evs, f)
  {
  }

  lemma NewListsOk(evs: Evs, queues: seq<seq<int>>, id: int, e: Ev)
    requires ListsOk(evs, queues) && id !in evs && Timeout !in e.flags && -1 <= e.at.common < |queues|
    ensures ListsOk(evs[id := e], queues)
  {
    forall c | 0 <= c < |queues|
      ensures Lists(evs[id := e], queues[c], CommonList(c)) && Sorted(evs[id := e], queues[c])
    {
      NewLists(evs, queues[c], CommonList(c), id, e);
    }
  }

  lemma NewActiveOk(evs: Evs, active: seq<seq<int>>, id: int, e: Ev)
    requires ActiveOk(evs, active) && id !in evs && Active !in e.flags && e.pri < |active|
    ensures ActiveOk(evs[id := e], active)
  {
    forall p | 0 <= p < |active| ensures Lists(evs[id := e], active[p], ActiveList(p)) {
      NewLists(evs, active[p], ActiveList(p), id, e);
    }
  }

  lemma NewBooks(evs: Evs, items: map<int, int>, queues: seq<seq<int>>, active: seq<seq<int>>, later: seq<int>,
                 count: int, countActive: int, id: int, e: Ev)
    requires Books(evs, items, queues, active, later, count, countActive) && id !in evs
    requires e.flags <= {Internal} && e.at == NO_TIME && e.pri < |active|
    ensures Books(evs[id := e], items, queues, active, later, count, countActive)
  {
    hide Lists, Flagged, Visible;
    NewListsOk(evs, queues, id, e);
    NewActiveOk(evs, active, id, e);
    NewLists(evs, later, LaterList, id, e);
    NewCounts(evs, id, e, Timeout);
    NewCounts(evs, id, e, Inserted);
    NewCounts(evs, id, e, Active);
    NewCounts(evs, id, e, Later);
  }

  /** event_assign. */
  method Assign(b: EventBase, id: int, pri: nat, io: bool, persist: bool)
    requires Inv(b) && id !in b.evs && id >= 0 && pri < |b.active|
    modifies b`evs
    ensures Inv(b) && b.evs == old(b.evs)[id := Blank({}, pri, io, persist)]
  {
    hide Linked, Ordered, Contents, Books;
    var e := Blank({}, pri, io, persist);
    NewBooks(b.evs, b.heap.Items(), b.queues, b.active, b.later, b.count, b.countActive, id, e);
    NewSound(b.evs, b.timers, b.running, id, e);
    b.evs := b.evs[id := e];
  }

  lemma NewSound(evs: Evs, timers: seq<int>, running: int, id: int, e: Ev)
    requires Sound(evs, timers, running) && id !in evs && EvOk(e) && Timeout !in e.flags
    ensures Sound(evs[id := e], timers, running)
  {
    var m := evs[id := e];
    assert forall c :: 0 <= c < |timers| ==> timers[c] != id;
    forall x | x in m && Timeout in m[x].flags && m[x].at.common >= 0
      ensures m[x].at.common < |timers| && Covers(m, timers[m[x].at.common], running, m[x].at.us)
    {
      assert Covers(evs, timers[evs[x].at.common], running, evs[x].at.us);
    }
  }

  /** event_base_init_common_timeout: the list for a duration, which may be there already;
      none if there is no room for another. */
  method InitCommonTimeout(b: EventBase, timer: int, duration: int) returns (list: Option<nat>)
    requires Inv(b) && timer !in b.evs && timer >= 0 && |b.active| > 0
    modifies b`evs, b`queues, b`timers, b`durations
    ensures Inv(b)
    ensures list.None? <==> duration !in old(b.durations) && old(|b.queues|) == MAX_COMMON_TIMEOUTS
    ensures list.Some? ==> list.value < |b.durations| && b.durations[list.value] == duration
    ensures if list.Some? && duration !in old(b.durations)
            then b.queues == old(b.queues) + [[]] && b.timers == old(b.timers) + [timer] && b.durations == old(b.durations) + [duration]
                 && b.evs == old(b.evs)[timer := Blank({Internal}, 0, false, false)]
            else b.evs == old(b.evs) && b.timers == old(b.timers) && b.queues == old(b.queues) && b.durations == old(b.durations)
  {
    hide Linked, Ordered, Contents;
    for i := 0 to |b.durations|
      invariant b.durations == old(b.durations) && b.evs == old(b.evs) && b.timers == old(b.timers) && b.queues == old(b.queues)
      invariant Inv(b) && duration !in b.durations[..i]
    {
      if b.durations[i] == duration {
        return Some(i);
      }
      assert b.durations[..i + 1] == b.durations[..i] + [b.durations[i]];
    }
    assert b.durations[..|b.durations|] == b.durations;
    if |b.queues| == MAX_COMMON_TIMEOUTS {
      return None;
    }
    AddCommonList(b, timer, duration);
    return Some(|b.queues| - 1);
  }

  method AddCommonList(b: EventBase, timer: int, duration: int)
    requires Inv(b) && timer !in b.evs && timer >= 0 && |b.active| > 0 && |b.queues| < MAX_COMMON_TIMEOUTS
    modifies b`evs, b`queues, b`timers, b`durations
    ensures Inv(b) && b.queues == old(b.queues) + [[]] && b.timers == old(b.timers) + [timer] && b.durations == old(b.durations) + [duration]
    ensures b.evs == old(b.evs)[timer := Blank({Internal}, 0, false, false)]
  {
    hide Linked, Ordered, Contents;
    var e := Blank({Internal}, 0, false, false);
    NewBooks(b.evs, b.heap.Items(), b.queues, b.active, b.later, b.count, b.countActive, timer, e);
    NewSound(b.evs, b.timers, b.running, timer, e);
    assert timer !in b.timers;
    NewList(b.evs[timer := e], b.queues);
    NewTimer(b.evs[timer := e], b.timers, b.running, timer);
    b.evs, b.queues, b.timers, b.durations := b.evs[timer := e], b.queues + [[]], b.timers + [timer], b.durations + [duration];
  }

  lemma NewList(evs: Evs, queues: seq<seq<int>>)
    requires ListsOk(evs, queues)
    ensures ListsOk(evs, queues + [[]])
  {
    var after := queues + [[]];
    forall c | 0 <= c < |after| ensures Lists(evs, after[c], CommonList(c)) && Sorted(evs, after[c]) {
      if c < |queues| {
        assert after[c] == queues[c];
      }
    }
  }

  lemma NewTimer(evs: Evs, timers: seq<int>, running: int, timer: int)
    requires Sound(evs, timers, running) && timer in evs && timer >= 0 && TimerOk(evs[timer]) && timer !in timers
    ensures Sound(evs, timers + [timer], running)
  {
    var after := timers + [timer];
    assert forall c :: 0 <= c < |timers| ==> timers[c] in timers;
    forall x | x in evs && Timeout in evs[x].flags && evs[x].at.common >= 0
      ensures evs[x].at.common < |after| && Covers(evs, after[evs[x].at.common], running, evs[x].at.us)
    {
      assert Covers(evs, timers[evs[x].at.common], running, evs[x].at.us);
    }
  }

  // ----- the counter of active events -----

  function Lengths(active: seq<seq<int>>, n: nat): nat
    requires n <= |active|
  {
    if n == 0 then 0 else Lengths(active, n - 1) + |active[n - 1]|
  }

  lemma {:induction false} ActiveBelow(evs: Evs, active: seq<seq<int>>, n: nat)
    requires ActiveOk(evs, active) && n <= |active|
    ensures |set id | id in evs && Active in evs[id].flags && evs[id].pri < n| == Lengths(active, n)
  {
    var s := set id | id in evs && Active in evs[id].flags && evs[id].pri < n;
    if n > 0 {
      ActiveBelow(evs, active, n - 1);
      var s1 := set id | id in evs && Active in evs[id].flags && evs[id].pri < n - 1;
      assert Lists(evs, active[n - 1], ActiveList(n - 1));
      DistinctSize(active[n - 1]);
      assert forall id :: id in active[n - 1] <==> id in evs && evs[id].On(ActiveList(n - 1));
      assert s == s1 + Members(active[n - 1]) && s1 !! Members(active[n - 1]);
    } else {
      assert s == {};
    }
  }

  /** event_base_assert_ok_nolock_: the counter is the number of events that the
      active queues and the later queue hold. */
  lemma CountActive(b: EventBase)
    requires b.Consistent()
    ensures b.countActive == Lengths(b.active, |b.active|) + |b.later|
  {
    ActiveBelow(b.evs, b.active, |b.active|);
    AllActive(b.evs, b.active);
    DistinctSize(b.later);
    LaterMembers(b.evs, b.later);
  }

  lemma AllActive(evs: Evs, active: seq<seq<int>>)
    requires ActiveOk(evs, active)
    ensures (set id | id in evs && Active in evs[id].flags && evs[id].pri < |active|) == Flagged(evs, Active)
  {
    assert forall id :: id in evs && Active in evs[id].flags ==> evs[id].pri < |active|;
  }

  lemma LaterMembers(evs: Evs, later: seq<int>)
    requires LaterOk(evs, later)
    ensures Members(later) == Flagged(evs, Later)
  {
    forall id ensures id in later <==> id in evs && Later in evs[id].flags {
      assert id in evs ==> (evs[id].On(LaterList) <==> Later in evs[id].flags);
    }
  }

  // ----- runs -----

  /** What may happen to a base, in any order. The first seven are calls by users,
      from any thread or callback; the rest is the loop's. */
  datatype Action =
    | AssignEvent(id: int, pri: nat, io: bool, persist: bool)
    | NewCommon(timer: int, duration: int)
    | AddEvent(id: int, tv: Option<Time>, ioResult: int)
    | DelEvent(id: int)
    | ActivateEvent(id: int, byTimeout: bool, defer: bool)
    | FinalizeOne(id: int)
    | RemoveTimerOf(id: int)
    | ProcessTimeouts
    | TakeActive
    | RunCallback(ioResult: int)
    | PromoteLater

  /** What can be seen of a base: the events, the internal timers and durations of the
      common lists, the running event, and the number of priorities. */
  datatype View = View(evs: Evs, timers: seq<int>, durations: seq<int>, running: int, priorities: nat) {
    /** An event that users know. */
    predicate Known(id: int) {
      id in evs && id !in timers
    }
  }

  ghost function ViewOf(b: EventBase): View reads b {
    View(b.evs, b.timers, b.durations, b.running, b.priorities)
  }

  /** Users' events are as `f` would have them; timers are the base's own business. */
  ghost predicate AddedOne(v: View, w: View, id: int, e: Ev) {
    && w == v.(evs := w.evs) && w.evs.Keys == v.evs.Keys && id in w.evs && w.evs[id] == e
    && forall x :: x in v.evs && x != id && x !in v.timers ==> w.evs[x] == v.evs[x]
  }

  /** An active event of the least priority number that any has is taken. */
  ghost predicate TookOne(v: View, w: View) {
    exists id :: Took(v, w, id)
  }

  ghost predicate Took(v: View, w: View, id: int) {
    && id in v.evs && Active in v.evs[id].flags
    && (forall x :: x in v.evs && Active in v.evs[x].flags ==> v.evs[id].pri <= v.evs[x].pri)
    && w == v.(evs := v.evs[id := Taken(v.evs[id])], running := if v.evs[id].closure == Finalize then -1 else id)
  }

  /** The callback of a common list's timer: the due events of that list fire. */
  ghost predicate RanTimer(v: View, w: View, now: int) {
    exists c :: 0 <= c < |v.timers| && v.timers[c] == v.running
      && w == v.(evs := w.evs, running := -1) && w.evs.Keys == v.evs.Keys
      && forall id :: id in v.evs && id !in v.timers ==>
           w.evs[id] == if v.evs[id].On(CommonList(c)) && v.evs[id].at.us <= now then Fired(v.evs[id]) else v.evs[id]
  }

  /** What an action does at a time `now`; one that cannot happen does nothing. */
  ghost predicate Happened(v: View, a: Action, now: int, w: View) {
    match a
    case AssignEvent(id, pri, io, persist) =>
      w == if id !in v.evs && id >= 0 && pri < v.priorities then v.(evs := v.evs[id := Blank({}, pri, io, persist)]) else v
    case NewCommon(timer, duration) =>
      w == if timer !in v.evs && timer >= 0 && v.priorities > 0 && duration !in v.durations && |v.timers| < MAX_COMMON_TIMEOUTS
           then v.(evs := v.evs[timer := Blank({Internal}, 0, false, false)], timers := v.timers + [timer], durations := v.durations + [duration])
           else v
    case AddEvent(id, tv, ioResult) =>
      if !v.Known(id) || (tv.Some? && !(-1 <= tv.value.common < |v.timers|))
         || Finalizing in v.evs[id].flags || (Joins(v.evs[id]) && ioResult == -1)
      then w == v else AddedOne(v, w, id, Added(v.evs[id], tv, false, now))
    case DelEvent(id) => w == if v.Known(id) then v.(evs := v.evs[id := Deleted(v.evs[id])]) else v
    case ActivateEvent(id, byTimeout, defer) =>
      w == if !v.Known(id) then v
           else v.(evs := v.evs[id := if defer then ActivatedLater(v.evs[id], byTimeout) else Activated(v.evs[id], byTimeout)])
    case FinalizeOne(id) => w == if v.Known(id) then v.(evs := v.evs[id := Finalized(v.evs[id])]) else v
    case RemoveTimerOf(id) =>
      w == if v.Known(id) && Timeout in v.evs[id].flags
           then v.(evs := v.evs[id := v.evs[id].Without(Timeout).(again := NO_TIME)]) else v
    case ProcessTimeouts =>
      && w == v.(evs := w.evs) && w.evs.Keys == v.evs.Keys
      && forall id :: id in v.evs ==>
           w.evs[id] == if v.evs[id].InHeap() && v.evs[id].at.us <= now then Fired(v.evs[id]) else v.evs[id]
    case TakeActive =>
      if v.running in v.timers || (forall id :: id in v.evs ==> Active !in v.evs[id].flags) then w == v else TookOne(v, w)
    case RunCallback(ioResult) =>
      if v.running in v.timers then RanTimer(v, w, now)
      else if Repeats(v, ioResult) then
        AddedOne(v.(running := -1), w, v.running, Added(v.evs[v.running], Some(Again(v.evs[v.running], now)), true, now))
      else w == v.(running := -1)
    case PromoteLater =>
      w == v.(evs := w.evs) && w.evs.Keys == v.evs.Keys && forall id :: id in v.evs ==> w.evs[id] == NowActive(v.evs[id])
  }

  /** The running event is added again. */
  predicate Repeats(v: View, ioResult: int) {
    && v.running in v.evs && v.evs[v.running].closure == Persist && v.evs[v.running].again != NO_TIME
    && !(Joins(v.evs[v.running]) && ioResult == -1)
  }

  /** What every state shows: flags that go together, and timers that forget no event. */
  ghost predicate GoodView(v: View) {
    Sound(v.evs, v.timers, v.running) && Apart(v.evs)
  }

  /** One action at a time `now`, if it can happen. */
  method Do(b: EventBase, a: Action, now: int)
    requires Inv(b)
    modifies b, b.heap
    ensures Inv(b) && Happened(old(ViewOf(b)), a, now, ViewOf(b))
  {
    hide Books, Linked, Ordered, Contents, Sound;
    match a {
      case AssignEvent(id, pri, io, persist) =>
        if id !in b.evs && id >= 0 && pri < |b.active| { Assign(b, id, pri, io, persist); }
      case NewCommon(timer, duration) =>
        if timer !in b.evs && timer >= 0 && |b.active| > 0 { var list := InitCommonTimeout(b, timer, duration); }
      case AddEvent(id, tv, ioResult) =>
        if id in b.evs && id !in b.timers && (tv.Some? ==> -1 <= tv.value.common < |b.queues|) {
          var r := Add(b, id, tv, false, ioResult, now);
        }
      case DelEvent(id) => if id in b.evs && id !in b.timers { Del(b, id); }
      case ActivateEvent(id, byTimeout, defer) =>
        if id in b.evs && id !in b.timers {
          if defer { ActivateLater(b, id, byTimeout); } else { EventLoop.Activate(b, id, byTimeout); }
        }
      case FinalizeOne(id) => if id in b.evs && id !in b.timers { FinalizeEvent(b, id); }
      case RemoveTimerOf(id) => if id in b.evs && id !in b.timers { RemoveTimer(b, id); }
      case _ => DoLoop(b, a, now);
    }
  }

  /** One action of the loop. */
  method DoLoop(b: EventBase, a: Action, now: int)
    requires Inv(b) && (a.ProcessTimeouts? || a.TakeActive? || a.RunCallback? || a.PromoteLater?)
    modifies b, b.heap
    ensures Inv(b) && Happened(old(ViewOf(b)), a, now, ViewOf(b))
  {
    hide Books, Linked, Ordered, Contents, Sound;
    match a {
      case ProcessTimeouts => TimeoutProcess(b, now);
      case TakeActive => TakeNext(b, now);
      case RunCallback(ioResult) => RunCurrent(b, ioResult, now);
      case PromoteLater => MakeLaterActive(b);
    }
  }

  /** The next active event, if no timer's callback is running. */
  method TakeNext(b: EventBase, ghost now: int)
    requires Inv(b)
    modifies b, b.heap
    ensures Inv(b) && Happened(old(ViewOf(b)), TakeActive, now, ViewOf(b))
  {
    hide Books, Linked, Ordered, Contents, Sound;
    if b.running !in b.timers {
      var p := FirstQueue(b);
      LeastPriority(b, p);
      if p < |b.active| {
        ActiveKeys(b, p);
        var id := TakeFirst(b, p);
        assert Took(old(ViewOf(b)), ViewOf(b), id);
      }
    }
  }

  lemma LeastPriority(b: EventBase, p: nat)
    requires b.Consistent() && p <= |b.active| && forall q :: 0 <= q < p ==> b.active[q] == []
    ensures forall id :: id in b.evs && Active in b.evs[id].flags ==> p <= b.evs[id].pri < |b.active|
  {
    forall id | id in b.evs && Active in b.evs[id].flags ensures p <= b.evs[id].pri < |b.active| {
      var q := b.evs[id].pri;
      assert Lists(b.evs, b.active[q], ActiveList(q));
      assert b.evs[id].On(ActiveList(q));
      assert b.active[q] != [];
    }
  }

  /** The callback of the running event. */
  method RunCurrent(b: EventBase, ioResult: int, now: int)
    requires Inv(b)
    modifies b, b.heap
    ensures Inv(b) && Happened(old(ViewOf(b)), RunCallback(ioResult), now, ViewOf(b))
  {
    hide Books, Linked, Ordered, Contents, Sound;
    if b.running in b.timers {
      var c := FindTimer(b.timers, b.running);
      CommonTimeoutCallback(b, c, now);
      assert RanTimer(old(ViewOf(b)), ViewOf(b), now);
    } else {
      if b.running in b.evs && b.evs[b.running].closure == Persist {
        var r := PersistAgain(b, b.running, ioResult, now);
      }
      Return(b);
    }
  }

  method FindTimer(timers: seq<int>, id: int) returns (c: nat)
    requires id in timers
    ensures c < |timers| && timers[c] == id
  {
    c := 0;
    while timers[c] != id
      invariant c < |timers|
      invariant id !in timers[..c]
      decreases |timers| - c
    {
      assert timers[..c + 1] == timers[..c] + [timers[c]];
      assert timers[..|timers|] == timers;
      c := c + 1;
    }
  }

  /** Good states that follow from one another by the actions at their times. */
  ghost predicate Follows(trace: seq<View>, actions: seq<(Action, int)>) {
    && |trace| == |actions| + 1
    && (forall i :: 0 <= i < |actions| ==> Happened(trace[i], actions[i].0, actions[i].1, trace[i + 1]))
    && (forall i :: 0 <= i < |trace| ==> GoodView(trace[i]))
  }

  lemma FollowsOne(v: View)
    requires GoodView(v)
    ensures Follows([v], [])
  {
  }

  lemma FollowsNext(trace: seq<View>, actions: seq<(Action, int)>, a: (Action, int), v: View)
    requires Follows(trace, actions) && Happened(trace[|actions|], a.0, a.1, v) && GoodView(v)
    ensures Follows(trace + [v], actions + [a])
  {
    hide Happened, GoodView;
  }

  lemma ShowsGood(b: EventBase)
    requires Inv(b)
    ensures GoodView(ViewOf(b))
  {
  }

  /** A run goes through states that follow from one another by its actions, at clock
      readings of any kind. In each, no event is both active and to become so later, a
      finalizing one has no timeout, and no event on a common list is forgotten. In the
      last, the counters are the sizes of the queues. */
  method Run(priorities: nat, actions: seq<(Action, int)>) returns (b: EventBase, ghost trace: seq<View>)
    ensures fresh(b) && fresh(b.heap) && Inv(b)
    ensures Follows(trace, actions) && trace[0] == View(map[], [], [], -1, priorities) && trace[|actions|] == ViewOf(b)
    ensures b.count == Memberships(b.evs) && b.countActive == Lengths(b.active, |b.active|) + |b.later|
  {
    b := new EventBase(priorities);
    ShowsGood(b);
    trace := [ViewOf(b)];
    FollowsOne(ViewOf(b));
    assert actions[..0] == [];
    hide Books, Linked, Ordered, Contents, Sound, Happened, GoodView, Follows;
    for n := 0 to |actions|
      invariant fresh(b) && fresh(b.heap) && Inv(b)
      invariant Follows(trace, actions[..n]) && |trace| == n + 1 && trace[n] == ViewOf(b)
      invariant trace[0] == View(map[], [], [], -1, priorities)
    {
      Do(b, actions[n].0, actions[n].1);
      ShowsGood(b);
      FollowsNext(trace, actions[..n], actions[n], ViewOf(b));
      assert actions[..n + 1] == actions[..n] + [actions[n]];
      trace := trace + [ViewOf(b)];
    }
    assert actions[..|actions|] == actions;
    CountActive(b);
    CountOk(b);
  }

  lemma CountOk(b: EventBase)
    requires b.Consistent()
    ensures b.count == Memberships(b.evs)
  {
  }

  /** After any run, if no internal callback is due, the wait that timeout_next then
      allows ends no later than the time of any event that is waiting for one, in the heap
      or only on a common list. */
  method RunAndWait(priorities: nat, actions: seq<(Action, int)>, now: int)
    returns (b: EventBase, ghost trace: seq<View>, wait: Option<nat>)
    ensures fresh(b) && fresh(b.heap) && Inv(b)
    ensures Follows(trace, actions) && trace[0] == View(map[], [], [], -1, priorities) && trace[|actions|] == ViewOf(b)
    ensures TimersIdle(b) ==> forall id :: id in b.evs && Timeout in b.evs[id].flags ==>
              wait.Some? && (wait.value == 0 || now + wait.value <= b.evs[id].at.us)
    ensures wait.None? <==> b.heap.Items() == map[]
  {
    b, trace := Run(priorities, actions);
    wait := TimeoutNext(b, now);
  }
}
