/** What the user of an evdns_getaddrinfo request hears after a cancel, when the timer goes
    off, and from a single lookup (libevent/evdns.c). */
module GetaddrinfoOutcome {
  import opened Getaddrinfo

  /** The state after some more steps. */
  function From(s: State, steps: seq<Step>): State {
    if steps == [] then s else Next(From(s, steps[..|steps| - 1]), steps[|steps| - 1])
  }

  // ----- cancelling -----

  /** A request between callbacks can still be cancelled. */
  ghost predicate DoorOpen(s: State) {
    && (s.requestDone && s.running == Nobody ==> s.frees == 1)
    && (s.running.Running? && s.OtherPending() ==> !s.requestDone)
  }

  lemma NextOpen(s: State, step: Step)
    requires Good(s) && DoorOpen(s)
    ensures DoorOpen(Next(s, step))
  {
    hide Ended, TimedOut;
    NextGood(s, step);
    if step.End? && s.running.Running? {
      EndedGood(s);
      EndedDoor(s);
    }
    if step.Fire? {
      FireDoor(s);
    }
  }

  lemma EndedDoor(s: State)
    requires s.running.Running? && s.subs.Get(s.running.family).Scheduled?
    ensures Ended(s).requestDone == s.requestDone && Ended(s).userCanceled == s.userCanceled
  {
    hide Detached;
    DetachedKeeps(s);
  }

  lemma DetachedKeeps(s: State)
    requires s.running.Running? && s.subs.Get(s.running.family).Scheduled?
    ensures var t := Detached(s);
            && t == s.(subs := s.subs.Put(s.running.family, Unused), running := Nobody, heard4 := t.heard4, heard6 := t.heard6)
  {
  }

  lemma FireDoor(s: State)
    ensures TimedOut(s).requestDone == s.requestDone && TimedOut(s).running == s.running
  {
  }

  lemma {:induction false} RunOpen(v4: bool, v6: bool, steps: seq<Step>)
    requires v4 || v6
    ensures DoorOpen(After(v4, v6, steps))
  {
    hide Next, DoorOpen, Good;
    if steps != [] {
      var front := steps[..|steps| - 1];
      RunGood(v4, v6, front);
      RunOpen(v4, v6, front);
      NextOpen(After(v4, v6, front), steps[|steps| - 1]);
    } else {
      StartOpen(v4, v6);
    }
  }

  lemma StartOpen(v4: bool, v6: bool)
    ensures DoorOpen(Start(v4, v6))
  {
  }

  /** What cancelling a request leads to, whatever happens then: no lookup is waited for,
      and the user gets no addresses; without the timer, the error is that of a cancel. */
  ghost predicate Doomed(s: State, fired: bool) {
    && s.userCanceled && s.subs.v4 != Waiting && s.subs.v6 != Waiting
    && (s.running.Running? ==> s.running.sawCancel)
    && (s.timerArmed ==> s.pendingResult == [])
    && (forall c :: c in s.calls ==> c.addresses == [] && (fired || c.err == EAI_CANCEL))
    && (!fired ==> (s.userCb || s.calls != []))
  }

  lemma NextDoomed(s: State, fired: bool, step: Step)
    requires Good(s) && Doomed(s, fired)
    ensures Doomed(Next(s, step), fired || step.Fire?)
  {
    match step {
      case End => if s.running.Running? { EndDoomed(s, fired); }
      case _ =>
    }
  }

  lemma EndDoomed(s: State, fired: bool)
    requires Good(s) && Doomed(s, fired) && s.running.Running?
    ensures Doomed(Ended(s), fired)
  {
    hide Good, Detached;
    NonePending(s);
    DetachedKeeps(s);
  }

  lemma NonePending(s: State)
    requires Good(s) && s.running.Running?
    ensures s.subs.Get(s.running.family).Scheduled?
    ensures s.OtherPending() ==> s.pendingResult == []
    ensures s.userCb <==> s.calls == []
  {
    DetachedIs(s);
  }

  lemma {:induction false} FromDoomed(s: State, steps: seq<Step>)
    requires Good(s) && Doomed(s, false)
    ensures Good(From(s, steps)) && Doomed(From(s, steps), exists i :: 0 <= i < |steps| && steps[i].Fire?)
  {
    hide Good, Doomed, Next;
    if steps != [] {
      var n := |steps| - 1;
      var front := steps[..n];
      FromDoomed(s, front);
      var fired := exists i :: 0 <= i < |front| && front[i].Fire?;
      NextGood(From(s, front), steps[n]);
      NextDoomed(From(s, front), fired, steps[n]);
      FiredOrNot(steps, n);
    }
  }

  lemma FiredOrNot(steps: seq<Step>, n: nat)
    requires |steps| == n + 1
    ensures (exists i :: 0 <= i < |steps| && steps[i].Fire?) <==>
            (exists i :: 0 <= i < n && steps[..n][i].Fire?) || steps[n].Fire?
  {
    if i :| 0 <= i < |steps| && steps[i].Fire? {
      assert i < n ==> steps[..n][i].Fire?;
    }
    if i :| 0 <= i < n && steps[..n][i].Fire? {
      assert steps[i].Fire?;
    }
  }

  /** A cancel between callbacks, before the user was told: no lookup is waited for any
      more and the timer is off. Whatever happens then, the user hears without addresses,
      and that it was a cancel unless the timer goes off; and once the lookups have ended it
      has heard exactly once. */
  lemma CancelHeard(v4: bool, v6: bool, before: seq<Step>, after: seq<Step>)
    requires (v4 || v6) && After(v4, v6, before).running == Nobody && After(v4, v6, before).calls == []
    ensures var s := Next(After(v4, v6, before), CancelByUser);
            && s.userCanceled && !s.timerArmed && s.subs.v4 != Waiting && s.subs.v6 != Waiting
    ensures var u := From(Next(After(v4, v6, before), CancelByUser), after);
            && |u.calls| <= 1 && (u.frees == 1 ==> |u.calls| == 1)
            && (u.calls != [] ==> u.calls[0].addresses == [])
            && (u.calls != [] && (forall i :: 0 <= i < |after| ==> !after[i].Fire?) ==> u.calls[0].err == EAI_CANCEL)
  {
    var s := After(v4, v6, before);
    RunGood(v4, v6, before);
    RunOpen(v4, v6, before);
    NextGood(s, CancelByUser);
    var t := Next(s, CancelByUser);
    assert Doomed(t, false);
    hide Next, Ended;
    FromDoomed(t, after);
  }

  /** A cancel when the callback of the last lookup has begun comes too late: nothing
      happens. */
  lemma CancelTooLate(v4: bool, v6: bool, before: seq<Step>)
    requires (v4 || v6)
    requires var s := After(v4, v6, before);
             s.running.Running? && s.subs.Get(s.running.family).Scheduled? && s.Result() != Shutdown && !s.OtherPending()
    ensures Next(After(v4, v6, before), CancelByUser) == After(v4, v6, before)
  {
    RunClosed(v4, v6, before);
  }

  ghost predicate DoorClosed(s: State) {
    s.running.Running? && s.subs.Get(s.running.family).Scheduled? && s.Result() != Shutdown && !s.OtherPending() ==> s.requestDone
  }

  lemma {:induction false} RunClosed(v4: bool, v6: bool, steps: seq<Step>)
    requires v4 || v6
    ensures DoorClosed(After(v4, v6, steps))
  {
    if steps != [] {
      var front := steps[..|steps| - 1];
      RunClosed(v4, v6, front);
      RunGood(v4, v6, front);
      NextClosed(After(v4, v6, front), steps[|steps| - 1]);
    }
  }

  lemma NextClosed(s: State, step: Step)
    requires Good(s) && DoorClosed(s)
    ensures DoorClosed(Next(s, step))
  {
    hide Ended;
    if step.End? && s.running.Running? {
      EndedGood(s);
    }
  }

  // ----- the timer -----

  /** With both families, one result in and the timer gone off: the user gets the addresses
      that have arrived, or the error; the other lookup is given up, and when it ends
      nothing more is said, whatever its result. */
  lemma TimerReports(first: Family, r: Result, late: Result)
    requires r != Canceled && r != Shutdown
    ensures var s := From(Start(true, true), [Reply(first, r), Begin(first), End, Fire]);
            var a := AddressesOf(r);
            && s.calls == [Call(if a == [] then ErrorOf(r) else 0, a)]
            && s.subs.Get(Other(first)) == Scheduled(Canceled) && s.frees == 0
            && var t := Next(Next(Next(s, Reply(Other(first), late)), Begin(Other(first))), End);
               t.calls == s.calls && t.frees == 1
  {
    hide Ended;
    FourSteps(Start(true, true), Reply(first, r), Begin(first), End, Fire);
    var s2 := Next(Next(Start(true, true), Reply(first, r)), Begin(first));
    FirstEnds(s2, first, r);
    FirstArms(s2, first, r);
    var s := Next(Next(s2, End), Fire);
    var t := Next(Next(s, Reply(Other(first), late)), Begin(Other(first)));
    LastSilent(t);
  }

  lemma FourSteps(s: State, a: Step, b: Step, c: Step, d: Step)
    ensures From(s, [a, b, c, d]) == Next(Next(Next(Next(s, a), b), c), d)
  {
    hide Next;
    assert [a, b, c, d][..3] == [a, b, c] && [a, b, c][..2] == [a, b] && [a, b][..1] == [a] && [a][..0] == [];
    assert From(s, [a]) == Next(s, a);
    assert From(s, [a, b]) == Next(From(s, [a]), b);
    assert From(s, [a, b, c]) == Next(From(s, [a, b]), c);
  }

  /** The first of two results starts the timer. */
  lemma FirstArms(s: State, f: Family, r: Result)
    requires s.running == Running(f, false) && s.subs.Get(f) == Scheduled(r) && s.subs.Get(Other(f)).Pending()
    requires s.userCb && r != Canceled && r != Shutdown && s.pendingError == 0
    ensures Ended(s).timerArmed && Ended(s).pendingError == (if AddressesOf(r) == [] then ErrorOf(r) else 0)
  {
  }

  /** A lookup that the timer has given up ends. */
  lemma LastSilent(s: State)
    requires s.running.Running? && s.subs.Get(s.running.family).Scheduled? && !s.userCb && !s.OtherPending()
    ensures Ended(s).calls == s.calls && Ended(s).frees == s.frees + 1
  {
  }

  // ----- one family -----

  /** A single lookup is reported as it ends. */
  lemma OneReports(f: Family, r: Result)
    requires r != Canceled
    ensures var s := Next(Next(Next(Start(f == V4, f == V6), Reply(f, r)), Begin(f)), End);
            && s.frees == 1 && |s.calls| == 1 && (r.Answer? ==> s.calls[0].addresses == r.addresses)
            && (!r.Answer? ==> s.calls[0].addresses == [])
            && s.calls[0].err == (if r.NotExist? then EAI_NONAME else if !r.Answer? then EAI_FAIL
                                  else if r.addresses == [] then EAI_NODATA else EAI_NONE)
  {
    hide Ended;
    SecondEnds(Next(Next(Start(f == V4, f == V6), Reply(f, r)), Begin(f)), f, r);
    assert AddressesOf(r) + [] == AddressesOf(r) && [] + AddressesOf(r) == AddressesOf(r);
  }
}
