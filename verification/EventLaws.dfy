/** What users of an event base can rely on over whole runs (libevent/event.c): when an
    added event is due, that a deleted one does not run, that an active one stays so until it
    is taken, and what finalizing leaves. */
module EventLaws {
  import opened Options
  import opened EventQueues
  import opened EventLoop
  import opened EventDispatch
  import opened EventRun

  // ----- what an action has to do with an event -----

  /** An action is about an event: a call by a user, or the loop takes it or ends its
      callback. */
  predicate Touches(v: View, a: Action, w: View, id: int) {
    match a
    case AddEvent(x, _, _) => x == id
    case DelEvent(x) => x == id
    case ActivateEvent(x, _, _) => x == id
    case FinalizeOne(x) => x == id
    case RemoveTimerOf(x) => x == id
    case TakeActive => id in v.evs && id in w.evs && Active in v.evs[id].flags && Active !in w.evs[id].flags
    case RunCallback(_) => v.running == id
    case _ => false
  }

  /** An action looks for what is due: in the heap, or on a common list when the callback of
      its timer runs. */
  predicate Looks(v: View, a: Action, common: int) {
    if common < 0 then a.ProcessTimeouts? else a.RunCallback? && common < |v.timers| && v.running == v.timers[common]
  }

  /** What is settled when an event is assigned, or by its last timeout. */
  predicate SameElse(e: Ev, f: Ev) {
    && f.pri == e.pri && f.io == e.io && f.persist == e.persist && f.closure == e.closure && f.at == e.at && f.again == e.again
    && (Finalizing in f.flags <==> Finalizing in e.flags) && (Internal in f.flags <==> Internal in e.flags)
  }

  /** The event has timed out. */
  predicate TimedOut(e: Ev, f: Ev) {
    && SameElse(e, f) && f.byTimeout
    && Timeout !in f.flags && Active in f.flags && Later !in f.flags && Inserted !in f.flags
  }

  /** Nothing has happened to the event, unless it was to become active later and now is. */
  predicate AsBefore(e: Ev, f: Ev, promoted: bool) {
    && SameElse(e, f) && f.byTimeout == e.byTimeout
    && (Timeout in f.flags <==> Timeout in e.flags) && (Inserted in f.flags <==> Inserted in e.flags)
    && (Active in f.flags <==> Active in e.flags || (promoted && Later in e.flags))
    && (Later in f.flags <==> !promoted && Later in e.flags)
  }

  lemma Unchanged(e: Ev)
    ensures AsBefore(e, e, false) && (Later !in e.flags ==> AsBefore(e, e, true))
  {
  }

  /** An action that is not about an event leaves it alone, but for its timeout. */
  lemma Untouched(v: View, a: Action, now: int, w: View, id: int)
    requires GoodView(v) && Happened(v, a, now, w) && v.Known(id) && !Touches(v, a, w, id)
    ensures w.Known(id) && |v.timers| <= |w.timers| && w.timers[..|v.timers|] == v.timers
    ensures var e, f := v.evs[id], w.evs[id];
            if Timeout in e.flags && Looks(v, a, e.at.common) && e.at.us <= now then TimedOut(e, f)
            else AsBefore(e, f, a.PromoteLater?)
  {
    hide GoodView;
    Unchanged(v.evs[id]);
    match a {
      case ProcessTimeouts => SeenFlags(v, id); FiredIs(v.evs[id]);
      case TakeActive => NotTaken(v, w, now, id);
      case RunCallback(ioResult) =>
        SeenFlags(v, id);
        FiredIs(v.evs[id]);
        SeenTimers(v);
        CallbackLeaves(v, ioResult, now, w, id);
      case PromoteLater =>
      case _ =>
    }
  }

  lemma SeenFlags(v: View, id: int)
    requires GoodView(v) && id in v.evs
    ensures Timeout in v.evs[id].flags ==> Finalizing !in v.evs[id].flags
    ensures !(Active in v.evs[id].flags && Later in v.evs[id].flags)
    ensures Finalizing in v.evs[id].flags ==> Inserted !in v.evs[id].flags && v.evs[id].closure == Finalize
  {
  }

  lemma SeenTimers(v: View)
    requires GoodView(v)
    ensures forall c, d :: 0 <= c < d < |v.timers| ==> v.timers[c] != v.timers[d]
  {
  }

  lemma FiredIs(e: Ev)
    requires Timeout in e.flags ==> Finalizing !in e.flags
    ensures Timeout in e.flags ==> TimedOut(e, EventCore.Fired(e))
  {
  }

  lemma NotTaken(v: View, w: View, now: int, id: int)
    requires Happened(v, TakeActive, now, w) && v.Known(id) && !Touches(v, TakeActive, w, id)
    ensures w.Known(id) && w.timers == v.timers && AsBefore(v.evs[id], w.evs[id], false)
  {
    Unchanged(v.evs[id]);
    if w != v {
      var x :| Took(v, w, x);
    }
  }

  lemma CallbackLeaves(v: View, ioResult: int, now: int, w: View, id: int)
    requires Happened(v, RunCallback(ioResult), now, w) && v.Known(id) && v.running != id
    requires forall c, d :: 0 <= c < d < |v.timers| ==> v.timers[c] != v.timers[d]
    ensures w.Known(id) && w.timers == v.timers
    ensures var e := v.evs[id];
            w.evs[id] == if Timeout in e.flags && Looks(v, RunCallback(ioResult), e.at.common) && e.at.us <= now then EventCore.Fired(e) else e
  {
    if v.running in v.timers {
      assert RanTimer(v, w, now);
    }
  }

  // ----- when an event is due -----

  /** event_add is accepted. */
  predicate Accepted(v: View, id: int, tv: Option<Time>, ioResult: int) {
    && v.Known(id) && Finalizing !in v.evs[id].flags
    && (tv.Some? ==> -1 <= tv.value.common < |v.timers|)
    && (ioResult == -1 ==> !v.evs[id].io || Inserted in v.evs[id].flags || Active in v.evs[id].flags || Later in v.evs[id].flags)
  }

  /** An event waits for its time. */
  predicate Waiting(v: View, id: int, us: int, common: int) {
    v.Known(id) && Timeout in v.evs[id].flags && v.evs[id].at == Time(us, common)
  }

  /** What event_add does: the event is due so long after now, and a persistent one keeps the
      interval; it waits for its descriptor, unless it is active; an activation by timeout is
      taken back. Without a time the old timeout stays. */
  lemma AddLaw(v: View, id: int, tv: Option<Time>, ioResult: int, now: int, w: View)
    requires GoodView(v) && Happened(v, AddEvent(id, tv, ioResult), now, w) && Accepted(v, id, tv, ioResult)
    ensures tv.Some? ==> Waiting(w, id, now + tv.value.us, tv.value.common)
    ensures w.Known(id)
    ensures var e, f := v.evs[id], w.evs[id];
            && f.pri == e.pri && f.io == e.io && f.persist == e.persist && f.closure == e.closure
            && f.again == (if tv.Some? && e.closure == Persist then tv.value else e.again)
            && (tv.None? ==> f.at == e.at && (Timeout in f.flags <==> Timeout in e.flags))
            && (e.io && Active !in e.flags && Later !in e.flags ==> Inserted in f.flags)
            && (Inserted in e.flags ==> Inserted in f.flags)
            && (Later in f.flags <==> Later in e.flags)
            && (Active in f.flags <==> Active in e.flags && !(tv.Some? && e.byTimeout))
    ensures forall x :: v.Known(x) && x != id ==> w.Known(x) && w.evs[x] == v.evs[x]
  {
    hide GoodView;
  }

  /** No action between two points of a run is about an event. */
  ghost predicate Alone(trace: seq<View>, actions: seq<(Action, int)>, i: nat, j: nat, id: int)
    requires j <= |actions| < |trace|
  {
    forall k :: i <= k < j ==> !Touches(trace[k], actions[k].0, trace[k + 1], id)
  }

  /** None looks for what is due at such a time or after it. */
  ghost predicate NotLooked(trace: seq<View>, actions: seq<(Action, int)>, i: nat, j: nat, common: int, due: int)
    requires j <= |actions| < |trace|
  {
    forall k :: i <= k < j ==> !(Looks(trace[k], actions[k].0, common) && actions[k].1 >= due)
  }

  lemma {:induction false} StillWaits(trace: seq<View>, actions: seq<(Action, int)>, i: nat, j: nat, id: int, us: int, common: int)
    requires Follows(trace, actions) && i <= j <= |actions| && Waiting(trace[i], id, us, common)
    requires Alone(trace, actions, i, j, id) && NotLooked(trace, actions, i, j, common, us)
    ensures Waiting(trace[j], id, us, common) && SameElse(trace[i].evs[id], trace[j].evs[id])
    decreases j - i
  {
    hide Happened, GoodView, Touches, Looks;
    if i < j {
      StillWaits(trace, actions, i, j - 1, id, us, common);
      StepOf(trace, actions, j - 1);
      Untouched(trace[j - 1], actions[j - 1].0, actions[j - 1].1, trace[j], id);
    }
  }

  lemma StepOf(trace: seq<View>, actions: seq<(Action, int)>, k: nat)
    requires Follows(trace, actions) && k < |actions|
    ensures |trace| == |actions| + 1 && Happened(trace[k], actions[k].0, actions[k].1, trace[k + 1])
    ensures GoodView(trace[k]) && GoodView(trace[k + 1])
  {
    hide Happened, GoodView;
  }

  /** An event that was added with a time keeps waiting as long as nobody looks at that time
      or after it, and fires when somebody first does; be it in the heap or on a common
      list. */
  lemma TimeoutLaw(trace: seq<View>, actions: seq<(Action, int)>, i: nat, j: nat, id: int, tv: Time, ioResult: int)
    requires Follows(trace, actions) && i < j <= |actions| && actions[i].0 == AddEvent(id, Some(tv), ioResult)
    requires Accepted(trace[i], id, Some(tv), ioResult) && Alone(trace, actions, i + 1, j, id)
    requires NotLooked(trace, actions, i + 1, j, tv.common, actions[i].1 + tv.us)
    ensures Waiting(trace[j], id, actions[i].1 + tv.us, tv.common)
    ensures j < |actions| && !Touches(trace[j], actions[j].0, trace[j + 1], id)
            && Looks(trace[j], actions[j].0, tv.common) && actions[j].1 >= actions[i].1 + tv.us
            ==> trace[j + 1].Known(id) && TimedOut(trace[j].evs[id], trace[j + 1].evs[id])
  {
    hide Happened, GoodView, Touches, Looks;
    StepOf(trace, actions, i);
    AddLaw(trace[i], id, Some(tv), ioResult, actions[i].1, trace[i + 1]);
    StillWaits(trace, actions, i + 1, j, id, actions[i].1 + tv.us, tv.common);
    if j < |actions| && !Touches(trace[j], actions[j].0, trace[j + 1], id) {
      StepOf(trace, actions, j);
      Untouched(trace[j], actions[j].0, actions[j].1, trace[j + 1], id);
    }
  }

  // ----- running -----

  /** An event is active, and waits for no time. */
  predicate Ready(v: View, id: int, byTimeout: bool) {
    v.Known(id) && Active in v.evs[id].flags && Later !in v.evs[id].flags && Timeout !in v.evs[id].flags && v.evs[id].byTimeout == byTimeout
  }

  lemma {:induction false} StaysReady(trace: seq<View>, actions: seq<(Action, int)>, i: nat, j: nat, id: int, byTimeout: bool)
    requires Follows(trace, actions) && i <= j <= |actions| && Ready(trace[i], id, byTimeout) && Alone(trace, actions, i, j, id)
    ensures Ready(trace[j], id, byTimeout) && SameElse(trace[i].evs[id], trace[j].evs[id])
    decreases j - i
  {
    hide Happened, GoodView, Touches, Looks;
    if i < j {
      StaysReady(trace, actions, i, j - 1, id, byTimeout);
      StepOf(trace, actions, j - 1);
      Untouched(trace[j - 1], actions[j - 1].0, actions[j - 1].1, trace[j], id);
    }
  }

  /** event_active: at once or later, unless the event is finalizing or active already;
      reasons add up. */
  lemma ActivateLaw(v: View, id: int, byTimeout: bool, defer: bool, now: int, w: View)
    requires GoodView(v) && Happened(v, ActivateEvent(id, byTimeout, defer), now, w) && v.Known(id)
    ensures w.Known(id) && SameElse(v.evs[id], w.evs[id])
    ensures var e, f := v.evs[id], w.evs[id];
            && (Timeout in f.flags <==> Timeout in e.flags) && (Inserted in f.flags <==> Inserted in e.flags)
            && (!defer && Finalizing !in e.flags ==> Active in f.flags && Later !in f.flags)
            && (!defer && Finalizing in e.flags ==> f == e)
            && (defer ==> (Active in f.flags <==> Active in e.flags) && (Active in f.flags || Later in f.flags))
            && (Finalizing !in e.flags || defer ==>
                  (f.byTimeout <==> byTimeout || ((Active in e.flags || Later in e.flags) && e.byTimeout)))
  {
    SeenFlags(v, id);
    hide GoodView;
  }

  /** The loop takes an event that is active: it is active no more, and unless it is
      persistent it waits for nothing more either. */
  lemma TakeLaw(v: View, now: int, w: View, id: int)
    requires GoodView(v) && Happened(v, TakeActive, now, w) && v.Known(id) && Touches(v, TakeActive, w, id)
    ensures w.Known(id) && SameElse(v.evs[id], w.evs[id]) && w.evs[id].byTimeout == v.evs[id].byTimeout
    ensures w.running == if v.evs[id].closure == Finalize then -1 else id
    ensures var e, f := v.evs[id], w.evs[id];
            && Active !in f.flags && Later !in f.flags
            && (e.persist ==> (Timeout in f.flags <==> Timeout in e.flags) && (Inserted in f.flags <==> Inserted in e.flags))
            && (!e.persist ==> Timeout !in f.flags && Inserted !in f.flags)
    ensures forall x :: v.Known(x) && Active in v.evs[x].flags ==> v.evs[id].pri <= v.evs[x].pri
  {
    SeenFlags(v, id);
    hide GoodView;
    assert w != v;
    var x :| Took(v, w, x);
    assert x == id;
  }

  /** A persistent event with an interval is added again before its callback: at the interval
      after its last time if it ran by timeout and that is not past, else after now. */
  lemma RepeatLaw(v: View, ioResult: int, now: int, w: View)
    requires GoodView(v) && Happened(v, RunCallback(ioResult), now, w) && v.Known(v.running)
    requires v.evs[v.running].closure == Persist && v.evs[v.running].again != NO_TIME
    requires ioResult != -1 || !v.evs[v.running].io || Active in v.evs[v.running].flags || Later in v.evs[v.running].flags
             || Inserted in v.evs[v.running].flags
    ensures var e := v.evs[v.running];
            && Waiting(w, v.running, if e.byTimeout && e.at.us + e.again.us >= now then e.at.us + e.again.us else now + e.again.us, e.again.common)
            && w.evs[v.running].again == e.again && w.running == -1
            && (e.io && Active !in e.flags && Later !in e.flags ==> Inserted in w.evs[v.running].flags)
  {
    hide GoodView;
  }

  /** A persistent event that was added with an interval and times out is due again an
      interval later, counted from when it was due, or from now if that is past. */
  lemma PeriodLaw(trace: seq<View>, actions: seq<(Action, int)>, i: nat, j: nat, taken: nat, run: nat,
                  id: int, tv: Time, io1: int, io2: int)
    requires Follows(trace, actions) && i < j < taken < run < |actions| && actions[i].0 == AddEvent(id, Some(tv), io1)
    requires Accepted(trace[i], id, Some(tv), io1) && trace[i].evs[id].closure == Persist && trace[i].evs[id].persist && tv != NO_TIME
    requires Alone(trace, actions, i + 1, j, id) && NotLooked(trace, actions, i + 1, j, tv.common, actions[i].1 + tv.us)
    requires !Touches(trace[j], actions[j].0, trace[j + 1], id)
    requires Looks(trace[j], actions[j].0, tv.common) && actions[j].1 >= actions[i].1 + tv.us
    requires Alone(trace, actions, j + 1, taken, id)
    requires actions[taken].0 == TakeActive && Touches(trace[taken], TakeActive, trace[taken + 1], id)
    requires run == taken + 1 && actions[run].0 == RunCallback(io2) && io2 != -1
    ensures var due := actions[i].1 + 2 * tv.us;
            Waiting(trace[run + 1], id, if due >= actions[run].1 then due else actions[run].1 + tv.us, tv.common)
  {
    hide Happened, GoodView, Touches, Looks;
    StepOf(trace, actions, i);
    AddLaw(trace[i], id, Some(tv), io1, actions[i].1, trace[i + 1]);
    StillWaits(trace, actions, i + 1, j, id, actions[i].1 + tv.us, tv.common);
    TimeoutLaw(trace, actions, i, j, id, tv, io1);
    StaysReady(trace, actions, j + 1, taken, id, true);
    StepOf(trace, actions, taken);
    TakeLaw(trace[taken], actions[taken].1, trace[taken + 1], id);
    StepOf(trace, actions, run);
    RepeatLaw(trace[run], io2, actions[run].1, trace[run + 1]);
  }

  // ----- deleting and finalizing -----

  /** An event is on no queue. */
  predicate Quiet(v: View, id: int) {
    v.Known(id) && Timeout !in v.evs[id].flags && Active !in v.evs[id].flags && Later !in v.evs[id].flags && Inserted !in v.evs[id].flags
  }

  lemma DeleteLaw(v: View, id: int, now: int, w: View)
    requires GoodView(v) && Happened(v, DelEvent(id), now, w) && v.Known(id)
    ensures if Finalizing in v.evs[id].flags then w == v else Quiet(w, id) && SameElse(v.evs[id], w.evs[id])
    ensures forall x :: v.Known(x) && x != id ==> w.Known(x) && w.evs[x] == v.evs[x]
  {
    SeenFlags(v, id);
    hide GoodView;
  }

  /** A deleted event stays off all queues, and so does not run, as long as nobody is about
      it. */
  lemma {:induction false} DeletedStays(trace: seq<View>, actions: seq<(Action, int)>, i: nat, j: nat, id: int)
    requires Follows(trace, actions) && i < j <= |actions| && actions[i].0 == DelEvent(id)
    requires trace[i].Known(id) && Finalizing !in trace[i].evs[id].flags && Alone(trace, actions, i + 1, j, id)
    ensures Quiet(trace[j], id)
    decreases j
  {
    hide Happened, GoodView, Touches, Looks;
    StepOf(trace, actions, j - 1);
    if j == i + 1 {
      DeleteLaw(trace[i], id, actions[i].1, trace[j]);
    } else {
      DeletedStays(trace, actions, i, j - 1, id);
      Untouched(trace[j - 1], actions[j - 1].0, actions[j - 1].1, trace[j], id);
    }
  }

  /** event_finalize: the event is active, to be finalized, and on no other queue. */
  lemma FinalizeLaw(v: View, id: int, now: int, w: View)
    requires GoodView(v) && Happened(v, FinalizeOne(id), now, w) && v.Known(id) && Finalizing !in v.evs[id].flags
    ensures w.Known(id) && w.evs[id].closure == Finalize && !w.evs[id].byTimeout
    ensures var f := w.evs[id].flags;
            Finalizing in f && Active in f && Timeout !in f && Later !in f && Inserted !in f
    ensures forall x :: v.Known(x) && x != id ==> w.Known(x) && w.evs[x] == v.evs[x]
  {
    SeenFlags(v, id);
    hide GoodView;
  }

  /** A finalizing event is so for ever, with no timeout and off its descriptor, whatever
      happens. */
  lemma {:induction false} FinalizedStays(trace: seq<View>, actions: seq<(Action, int)>, i: nat, j: nat, id: int)
    requires Follows(trace, actions) && i <= j <= |actions| && trace[i].Known(id) && Finalizing in trace[i].evs[id].flags
    ensures trace[j].Known(id) && Finalizing in trace[j].evs[id].flags
    ensures Timeout !in trace[j].evs[id].flags && Inserted !in trace[j].evs[id].flags
    decreases j
  {
    hide Happened, GoodView, Touches, Looks;
    if j < |actions| {
      StepOf(trace, actions, j);
    } else if j > 0 {
      StepOf(trace, actions, j - 1);
    } else {
      OnlyView(trace, actions);
    }
    if i < j {
      FinalizedStays(trace, actions, i, j - 1, id);
      StepOf(trace, actions, j - 1);
      FinalizedStep(trace[j - 1], actions[j - 1].0, actions[j - 1].1, trace[j], id);
    }
    SeenFlags(trace[j], id);
  }

  lemma OnlyView(trace: seq<View>, actions: seq<(Action, int)>)
    requires Follows(trace, actions)
    ensures |trace| > 0 && GoodView(trace[0])
  {
    hide Happened, GoodView;
  }

  lemma FinalizedStep(v: View, a: Action, now: int, w: View, id: int)
    requires GoodView(v) && Happened(v, a, now, w) && v.Known(id) && Finalizing in v.evs[id].flags
    ensures w.Known(id) && Finalizing in w.evs[id].flags
  {
    if !Touches(v, a, w, id) {
      hide Happened, GoodView, Touches, Looks;
      Untouched(v, a, now, w, id);
    } else if a.TakeActive? {
      hide Happened, GoodView;
      TakeLaw(v, now, w, id);
    } else {
      SeenFlags(v, id);
      hide GoodView;
    }
  }

  // ----- assigning -----

  /** event_assign: the event is on no queue and has the priority, descriptor and closure
      asked for. */
  lemma AssignLaw(v: View, id: int, pri: nat, io: bool, persist: bool, now: int, w: View)
    requires Happened(v, AssignEvent(id, pri, io, persist), now, w) && id !in v.evs && id >= 0 && pri < v.priorities
    requires id !in v.timers
    ensures Quiet(w, id) && Finalizing !in w.evs[id].flags && Internal !in w.evs[id].flags
    ensures var e := w.evs[id]; e.pri == pri && e.io == io && e.persist == persist && e.closure == if persist then Persist else Plain
  {
  }
}
