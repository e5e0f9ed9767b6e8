/** The join of an A and an AAAA lookup behind one evdns_getaddrinfo call
    (libevent/evdns.c). Each step is what one thread does between taking and
    releasing the lock, or what one event callback does. */
module Getaddrinfo {

  datatype Family = V4 | V6

  function Other(f: Family): Family {
    if f == V4 then V6 else V4
  }

  /** What a lookup reports; the addresses may be none. */
  datatype Result = Answer(addresses: seq<int>) | NotExist | OtherError | Canceled | Shutdown

  /** A lookup: its handle is set while it is Waiting or Scheduled. A Scheduled one
      has its callback queued, and cancelling it does nothing (pending_cb). */
  datatype Phase = Unused | Waiting | Scheduled(result: Result) {
    predicate Pending() {
      this != Unused
    }
  }

  datatype Subs = Subs(v4: Phase, v6: Phase) {
    function Get(f: Family): Phase {
      if f == V4 then v4 else v6
    }

    function Put(f: Family, p: Phase): Subs {
      if f == V4 then this.(v4 := p) else this.(v6 := p)
    }

    function Pending(): nat {
      (if v4.Pending() then 1 else 0) + (if v6.Pending() then 1 else 0)
    }
  }

  /** evdns_cancel_request. */
  function Cancel(p: Phase): Phase {
    if p == Waiting then Scheduled(Canceled) else p
  }

  const EAI_NONE: int := 0
  const EAI_NODATA: int := 1
  const EAI_NONAME: int := 2
  const EAI_FAIL: int := 3
  const EAI_CANCEL: int := 4
  const EAI_AGAIN: int := 5

  function ErrorOf(r: Result): int {
    match r
    case Answer(a) => if a == [] then EAI_NODATA else EAI_NONE
    case NotExist => EAI_NONAME
    case _ => EAI_FAIL
  }

  function AddressesOf(r: Result): seq<int> {
    if r.Answer? then r.addresses else []
  }

  /** getaddrinfo_merge_err. */
  function MergeErr(e1: int, e2: int): int {
    if e1 == 0 then e2 else e1
  }

  /** What the user's callback was given. */
  datatype Call = Call(err: int, addresses: seq<int>)

  /** The callback that is running: it has left the lock, where it read whether
      the user had cancelled. */
  datatype Running = Nobody | Running(family: Family, sawCancel: bool)

  /** All there is to a request: the source's record, the callbacks made to the user, how
      often it was freed, and the addresses that arrived before the user was told. */
  datatype State = State(subs: Subs, userCb: bool, pendingResult: seq<int>, pendingError: int, timerArmed: bool,
                         userCanceled: bool, requestDone: bool, running: Running, calls: seq<Call>, frees: nat,
                         heard4: seq<int>, heard6: seq<int>) {
    function Heard(f: Family): seq<int> {
      if f == V4 then heard4 else heard6
    }

    /** The result of the lookup whose callback is running. */
    function Result(): Result
      requires running.Running? && subs.Get(running.family).Scheduled?
    {
      subs.Get(running.family).result
    }

    function OtherPending(): bool
      requires running.Running?
    {
      subs.Get(Other(running.family)).Pending()
    }
  }

  // ----- what each step does -----

  /** evdns_getaddrinfo launches one lookup or two. */
  function Start(v4: bool, v6: bool): State {
    State(Subs(if v4 then Waiting else Unused, if v6 then Waiting else Unused),
          true, [], 0, false, false, false, Nobody, [], 0, [], [])
  }

  /** A lookup gets its reply, runs out of time or meets the shutdown: its callback is
      queued. */
  function Replied(s: State, f: Family, r: Result): State {
    s.(subs := s.subs.Put(f, Scheduled(r)))
  }

  /** evdns_getaddrinfo_gotresolve up to where it releases the lock. */
  function Begun(s: State, f: Family): State
    requires s.subs.Get(f).Scheduled?
  {
    s.(requestDone := s.requestDone || (s.subs.Get(f).result != Shutdown && !s.subs.Get(Other(f)).Pending()),
       running := Running(f, s.userCanceled))
  }

  /** evdns_getaddrinfo_cancel. */
  function CanceledByUser(s: State): State {
    if s.requestDone then s
    else s.(timerArmed := false, userCanceled := true, subs := Subs(Cancel(s.subs.v4), Cancel(s.subs.v6)))
  }

  /** evdns_getaddrinfo_timeout_cb. */
  function TimedOut(s: State): State {
    var call := if s.pendingResult != [] then Call(0, s.pendingResult)
                else Call(if s.pendingError == 0 then EAI_AGAIN else s.pendingError, []);
    s.(timerArmed := false, subs := Subs(Cancel(s.subs.v4), Cancel(s.subs.v6)), calls := s.calls + [call],
       pendingResult := [], userCb := false)
  }

  /** free_getaddrinfo_request. */
  function Freed(s: State): State {
    s.(timerArmed := false, frees := s.frees + 1)
  }

  function Told(s: State, call: Call): State {
    s.(calls := s.calls + [call])
  }

  /** The handle of the lookup that ended is dropped. */
  function Detached(s: State): State
    requires s.running.Running? && s.subs.Get(s.running.family).Scheduled?
  {
    var f, r := s.running.family, s.Result();
    var t := s.(subs := s.subs.Put(f, Unused), running := Nobody);
    if r.Answer? && s.userCb then (if f == V4 then t.(heard4 := r.addresses) else t.(heard6 := r.addresses)) else t
  }

  /** The lookup failed. */
  function Failed(s: State): State
    requires s.running.Running? && s.subs.Get(s.running.family).Scheduled?
  {
    var t, err := Detached(s), ErrorOf(s.Result());
    if s.OtherPending() then t.(timerArmed := t.timerArmed || s.Result() != Shutdown, pendingError := err)
    else if s.running.sawCancel then Freed(Told(t, Call(EAI_CANCEL, [])))
    else if t.pendingResult != [] then Freed(Told(t, Call(0, t.pendingResult)).(pendingResult := []))
    else Freed(Told(t, Call(if t.pendingError != 0 then MergeErr(err, t.pendingError) else err, [])))
  }

  /** The lookup has addresses. */
  function Answered(s: State): State
    requires s.running.Running? && s.subs.Get(s.running.family).Scheduled? && s.Result().Answer?
  {
    var t, res := Detached(s), s.Result().addresses;
    if s.OtherPending() then t.(timerArmed := true, pendingResult := res)
    else
      var all := if s.running.family == V4 then res + t.pendingResult else t.pendingResult + res;
      Freed(Told(t.(pendingResult := []), Call(0, all)))
  }

  /** evdns_getaddrinfo_gotresolve after it has released the lock. */
  function Ended(s: State): State
    requires s.running.Running? && s.subs.Get(s.running.family).Scheduled?
  {
    if s.Result() == Canceled && !s.running.sawCancel then (if s.OtherPending() then Detached(s) else Freed(Detached(s)))
    else if !s.userCb then Freed(Detached(s))
    else if ErrorOf(s.Result()) != 0 then Failed(s)
    else if s.running.sawCancel then
      (if s.OtherPending() then Detached(s) else Freed(Told(Detached(s), Call(EAI_CANCEL, []))))
    else Answered(s)
  }

  /** What may happen next; which lookup or none is up to the environment. A cancel comes
      from any thread while the request lives; the rest is the loop's. */
  datatype Step = Reply(f: Family, result: Result) | Begin(f: Family) | End | Fire | CancelByUser

  /** One step; one that cannot happen does nothing. */
  function Next(s: State, step: Step): State {
    match step
    case Reply(f, r) => if s.subs.Get(f) == Waiting && r != Canceled then Replied(s, f, r) else s
    case Begin(f) => if s.running == Nobody && s.subs.Get(f).Scheduled? then Begun(s, f) else s
    case End => if s.running.Running? && s.subs.Get(s.running.family).Scheduled? then Ended(s) else s
    case Fire => if s.timerArmed && s.running == Nobody then TimedOut(s) else s
    case CancelByUser => if s.frees == 0 then CanceledByUser(s) else s
  }

  function After(v4: bool, v6: bool, steps: seq<Step>): State {
    if steps == [] then Start(v4, v6) else Next(After(v4, v6, steps[..|steps| - 1]), steps[|steps| - 1])
  }

  // ----- what every step keeps -----

  /** The heart of the protocol. The request is freed once, when no lookup is left; the
      user hears once, at the latest then; the timer runs only while exactly one lookup
      is left and the user is still to be told. */
  ghost predicate Fine(s: State) {
    && s.frees <= 1 && |s.calls| <= 1
    && (s.frees == 1 <==> s.subs.Pending() == 0)
    && (|s.calls| == 1 <==> s.frees == 1 || !s.userCb)
    && (s.timerArmed ==> s.subs.Pending() == 1 && s.userCb)
  }

  /** Once the user was told, at most one lookup is left, with its callback queued. */
  ghost predicate LastQueued(s: State) {
    !s.userCb ==> s.subs.Pending() <= 1 && s.subs.v4 != Waiting && s.subs.v6 != Waiting
  }

  /** A lookup is cancelled by the user, or by the timer once it has told the user. */
  ghost predicate CancelsKnown(s: State, f: Family) {
    s.subs.Get(f) == Scheduled(Canceled) ==> s.userCanceled || (!s.userCb && !s.subs.Get(Other(f)).Pending())
  }

  ghost predicate RunningOk(s: State) {
    s.running.Running? ==>
      && s.subs.Get(s.running.family).Scheduled?
      && (s.running.sawCancel ==> s.userCanceled)
      && (s.Result() == Canceled && !s.running.sawCancel ==> !s.userCb && !s.OtherPending())
  }

  /** What the user was told is what had arrived, IPv4 first. */
  ghost predicate HeardOk(s: State) {
    && (s.pendingResult == s.heard4 + s.heard6 || !s.userCb || s.frees == 1
        || (s.userCanceled && !s.timerArmed && (s.running.Running? ==> s.running.sawCancel)))
    && (s.calls != [] ==> CallOk(s, s.calls[0]))
    && (s.subs.Pending() == 2 ==> s.pendingResult == [])
    && (s.calls == [] && s.subs.v4.Pending() ==> s.heard4 == [])
    && (s.calls == [] && s.subs.v6.Pending() ==> s.heard6 == [])
  }

  ghost predicate CallOk(s: State, c: Call) {
    && (c.err == 0 <==> c.addresses != [])
    && (c.err == 0 ==> c.addresses == s.heard4 + s.heard6)
    && (c.err != 0 ==> s.heard4 + s.heard6 == [] || (s.userCanceled && c.err == EAI_CANCEL))
  }

  ghost predicate Good(s: State) {
    Fine(s) && LastQueued(s) && CancelsKnown(s, V4) && CancelsKnown(s, V6) && RunningOk(s) && HeardOk(s)
  }

  lemma TimedOutGood(s: State)
    requires Good(s) && s.timerArmed && s.running == Nobody
    ensures Good(TimedOut(s)) && s.subs.v4.Pending() != s.subs.v6.Pending()
  {
  }

  lemma CanceledGood(s: State)
    requires Good(s) && s.frees == 0
    ensures Good(CanceledByUser(s))
  {
  }

  /** What dropping the handle leaves. */
  lemma DetachedIs(s: State)
    requires Good(s) && s.running.Running?
    ensures var t, f, o := Detached(s), s.running.family, Other(s.running.family);
            && t.subs.Get(f) == Unused && t.subs.Get(o) == s.subs.Get(o)
            && t.subs.Pending() == s.subs.Pending() - 1 == (if s.OtherPending() then 1 else 0)
            && s.frees == 0 && (s.userCb <==> s.calls == [])
            && t == s.(subs := t.subs, running := Nobody, heard4 := t.heard4, heard6 := t.heard6)
  {
  }

  /** The addresses that have arrived, if the user is still to be told. */
  lemma HeardNow(s: State)
    requires Good(s) && s.running.Running? && s.userCb
    ensures var t, a, f := Detached(s), AddressesOf(s.Result()), s.running.family;
            && t.heard4 + t.heard6 == (if f == V4 then a + s.heard6 else s.heard4 + a)
            && (s.OtherPending() ==> s.pendingResult == [] && t.heard4 + t.heard6 == a && t.Heard(Other(f)) == [])
            && (!s.running.sawCancel ==> s.pendingResult == s.heard4 + s.heard6 == s.Heard(Other(f)))
            && s.Heard(f) == []
  {
  }

  /** The other lookup is left: the timer may run, and what has arrived is kept, unless
      the user has cancelled. */
  lemma WaitGood(s: State, t: State)
    requires Good(s) && s.running.Running? && s.userCb && s.OtherPending()
    requires var d := Detached(s);
             && t == d.(timerArmed := t.timerArmed, pendingError := t.pendingError, pendingResult := t.pendingResult)
             && (t.pendingResult == d.heard4 + d.heard6 || (s.userCanceled && !t.timerArmed))
    ensures Good(t)
  {
    DetachedIs(s);
    HeardNow(s);
    hide Detached;
  }

  /** No lookup is left: the user is told and the request is freed. */
  lemma DoneGood(s: State, t: State, call: Call)
    requires Good(s) && s.running.Running? && s.userCb && !s.OtherPending() && CallOk(Detached(s), call)
    requires t == Freed(Told(Detached(s), call)).(pendingResult := t.pendingResult)
    ensures Good(t)
  {
    DetachedIs(s);
    hide Detached;
  }

  /** The user was told before. */
  lemma ToldBeforeGood(s: State)
    requires Good(s) && s.running.Running? && !s.userCb
    ensures !s.OtherPending() && Good(Freed(Detached(s)))
  {
    DetachedIs(s);
  }

  lemma FailedGood(s: State)
    requires Good(s) && s.running.Running? && s.userCb && ErrorOf(s.Result()) != 0
    requires s.Result() == Canceled ==> s.running.sawCancel
    ensures Good(Failed(s)) && Failed(s).subs == Detached(s).subs && Failed(s).running == Nobody
  {
    DetachedIs(s);
    HeardNow(s);
    var t := Detached(s);
    hide Detached, Good, HeardOk, Fine, RunningOk, LastQueued, CancelsKnown;
    if s.OtherPending() {
      WaitGood(s, Failed(s));
    } else if s.running.sawCancel {
      CanceledKnown(s);
      DoneGood(s, Failed(s), Call(EAI_CANCEL, []));
    } else if t.pendingResult != [] {
      DoneGood(s, Failed(s), Call(0, t.pendingResult));
    } else {
      DoneGood(s, Failed(s), Call(ErrorOf(s.Result()), []));
    }
  }

  lemma CanceledKnown(s: State)
    requires Good(s) && s.running.Running? && s.running.sawCancel
    ensures s.userCanceled
  {
  }

  lemma AnsweredGood(s: State)
    requires Good(s) && s.running.Running? && s.userCb && ErrorOf(s.Result()) == 0 && !s.running.sawCancel
    ensures s.Result().Answer? && Good(Answered(s)) && Answered(s).subs == Detached(s).subs && Answered(s).running == Nobody
  {
    DetachedIs(s);
    HeardNow(s);
    var t := Detached(s);
    hide Detached, Good, HeardOk, Fine, RunningOk, LastQueued, CancelsKnown;
    if s.OtherPending() {
      WaitGood(s, Answered(s));
    } else {
      DoneGood(s, Answered(s), Call(0, t.heard4 + t.heard6));
    }
  }

  lemma EndedGood(s: State)
    requires Good(s) && s.running.Running?
    ensures Good(Ended(s)) && Ended(s).subs.Pending() == s.subs.Pending() - 1 && Ended(s).running == Nobody
  {
    DetachedIs(s);
    if !s.userCb {
      ToldBeforeGood(s);
      return;
    }
    NotSilent(s);
    hide Good, HeardOk, Fine, RunningOk, LastQueued, CancelsKnown, Detached, Failed, Answered;
    if ErrorOf(s.Result()) != 0 {
      FailedGood(s);
    } else if !s.running.sawCancel {
      AnsweredGood(s);
    } else if s.OtherPending() {
      CanceledKnown(s);
      CanceledWaitGood(s);
    } else {
      CanceledKnown(s);
      DoneGood(s, Ended(s), Call(EAI_CANCEL, []));
    }
  }

  lemma NotSilent(s: State)
    requires Good(s) && s.running.Running? && s.userCb
    ensures s.Result() == Canceled ==> s.running.sawCancel
  {
  }

  lemma CanceledWaitGood(s: State)
    requires Good(s) && s.running.Running? && s.userCb && s.OtherPending() && s.running.sawCancel
    ensures Good(Detached(s))
  {
    DetachedIs(s);
    WaitGood(s, Detached(s));
  }

  /** Every step keeps it. */
  lemma NextGood(s: State, step: Step)
    requires Good(s)
    ensures Good(Next(s, step))
  {
    hide Ended, TimedOut, CanceledByUser;
    match step {
      case End => if s.running.Running? { EndedGood(s); }
      case Fire => if s.timerArmed && s.running == Nobody { TimedOutGood(s); }
      case CancelByUser => if s.frees == 0 { CanceledGood(s); }
      case _ =>
    }
  }

  /** Over every interleaving, for a request for either or both families: neither the
      callback nor the free happens twice, the request has been freed exactly if no lookup
      is left, and then the user was told; the timer runs only while exactly one lookup is
      left. */
  lemma {:induction false} RunGood(v4: bool, v6: bool, steps: seq<Step>)
    requires v4 || v6
    ensures Good(After(v4, v6, steps)) && Fine(After(v4, v6, steps))
  {
    if steps != [] {
      RunGood(v4, v6, steps[..|steps| - 1]);
      NextGood(After(v4, v6, steps[..|steps| - 1]), steps[|steps| - 1]);
    }
  }

  /** One of the lookups that are left comes to its end. */
  function OneEnds(s: State, last: Result): State {
    var f := if s.subs.v4.Pending() then V4 else V6;
    var t := if s.running.Running? then s else Next(Next(s, Reply(f, last)), Begin(f));
    Next(t, End)
  }

  lemma OneEndsGood(s: State, last: Result)
    requires Good(s) && s.frees == 0 && last != Canceled
    ensures Good(OneEnds(s, last)) && OneEnds(s, last).subs.Pending() == s.subs.Pending() - 1
  {
    var f := if s.subs.v4.Pending() then V4 else V6;
    assert s.subs.Get(f).Pending();
    if !s.running.Running? {
      Launched(s, f, last);
    }
    var t := if s.running.Running? then s else Next(Next(s, Reply(f, last)), Begin(f));
    assert RunningOk(t);
    hide Ended, Good, Begun, Replied;
    EndedGood(t);
  }

  lemma Launched(s: State, f: Family, last: Result)
    requires Good(s) && s.running == Nobody && s.subs.Get(f).Pending() && last != Canceled
    ensures var t := Next(Next(s, Reply(f, last)), Begin(f));
            Good(t) && t.running.Running? && t.subs.Pending() == s.subs.Pending()
  {
    NextGood(s, Reply(f, last));
    NextGood(Next(s, Reply(f, last)), Begin(f));
    hide Good;
  }

  /** Once the lookups that are left have come to their ends, after any interleaving, the
      user has heard exactly once and the request was freed exactly once. */
  lemma RunEnds(v4: bool, v6: bool, steps: seq<Step>, last: Result)
    requires (v4 || v6) && last != Canceled
    ensures var s := After(v4, v6, steps);
            var t := if s.frees == 0 then OneEnds(s, last) else s;
            var u := if t.frees == 0 then OneEnds(t, last) else t;
            |u.calls| == 1 && u.frees == 1 && (u.calls[0].err == 0 <==> u.calls[0].addresses != [])
  {
    hide OneEnds, Next;
    RunGood(v4, v6, steps);
    var s := After(v4, v6, steps);
    if s.frees == 0 {
      OneEndsGood(s, last);
      var t := OneEnds(s, last);
      if t.frees == 0 {
        OneEndsGood(t, last);
      }
    }
  }

  /** The first of two results leaves its addresses pending. */
  lemma FirstEnds(s: State, f: Family, r: Result)
    requires s.running == Running(f, false) && s.subs.Get(f) == Scheduled(r) && s.subs.Get(Other(f)).Pending()
    requires s.userCb && r != Canceled && s.pendingResult == [] && s.calls == []
    ensures var t := Ended(s);
            && t.subs == s.subs.Put(f, Unused) && t.running == Nobody && t.userCb && t.userCanceled == s.userCanceled
            && t.calls == [] && t.frees == s.frees && t.pendingResult == AddressesOf(r)
  {
  }

  /** The second one is reported with them. */
  lemma SecondEnds(s: State, f: Family, r: Result)
    requires s.running == Running(f, false) && s.subs.Get(f) == Scheduled(r) && !s.subs.Get(Other(f)).Pending()
    requires s.userCb && r != Canceled && s.calls == []
    ensures var t, a := Ended(s), if f == V4 then AddressesOf(r) + s.pendingResult else s.pendingResult + AddressesOf(r);
            t.frees == s.frees + 1 && t.calls == [Call(if a == [] then ErrorOf(r) else 0, a)]
  {
    assert [] + s.pendingResult == s.pendingResult && s.pendingResult + [] == s.pendingResult;
    var t := Detached(s);
    assert t.pendingResult == s.pendingResult && t.calls == [] && t.frees == s.frees && t.userCb;
    hide Detached;
  }

  /** Without a cancel and with both results in time, the user gets the IPv4
      addresses and then the IPv6 ones, in whichever order the results came; if there
      are none, it gets the error of the result that came last. */
  lemma BothReport(r4: Result, r6: Result, first: Family)
    requires r4 != Canceled && r6 != Canceled
    ensures var s2 := Next(Next(Start(true, true), Reply(V4, r4)), Reply(V6, r6));
            var s4 := Next(Next(s2, Begin(first)), End);
            var s := Next(Next(s4, Begin(Other(first))), End);
            var a := AddressesOf(r4) + AddressesOf(r6);
            s.frees == 1 && s.calls == [Call(if a == [] then ErrorOf(if first == V4 then r6 else r4) else 0, a)]
  {
    hide Ended;
    var s2 := Next(Next(Start(true, true), Reply(V4, r4)), Reply(V6, r6));
    var s3 := Next(s2, Begin(first));
    FirstEnds(s3, first, if first == V4 then r4 else r6);
    var s4 := Next(s3, End);
    var s5 := Next(s4, Begin(Other(first)));
    SecondEnds(s5, Other(first), if first == V4 then r6 else r4);
  }

  // ----- in place -----

  class Request {
    var subs: Subs
    var userCb: bool
    var pendingResult: seq<int>
    var pendingError: int
    var timerArmed: bool
    var userCanceled: bool
    var requestDone: bool
    var running: Running
    var calls: seq<Call>
    var frees: nat
    ghost var heard4: seq<int>
    ghost var heard6: seq<int>

    ghost function View(): State reads this {
      State(subs, userCb, pendingResult, pendingError, timerArmed, userCanceled, requestDone, running, calls, frees, heard4, heard6)
    }

    /** One family, or both. */
    constructor (v4: bool, v6: bool)
      ensures View() == Start(v4, v6)
    {
      subs := Subs(if v4 then Waiting else Unused, if v6 then Waiting else Unused);
      userCb, pendingResult, pendingError := true, [], 0;
      timerArmed, userCanceled, requestDone := false, false, false;
      running, calls, frees := Nobody, [], 0;
      heard4, heard6 := [], [];
    }

    /** evdns_getaddrinfo_gotresolve up to where it releases the lock. */
    method BeginCallback(f: Family)
      requires running == Nobody && subs.Get(f).Scheduled?
      modifies this`running, this`requestDone
      ensures View() == Begun(old(View()), f)
    {
      if subs.Get(f).result != Shutdown && !subs.Get(Other(f)).Pending() {
        requestDone := true;
      }
      running := Running(f, userCanceled);
    }

    /** evdns_getaddrinfo_cancel, from any thread, while the request lives. */
    method UserCancel()
      modifies this`subs, this`timerArmed, this`userCanceled
      ensures View() == CanceledByUser(old(View()))
    {
      if requestDone {
        return;
      }
      timerArmed := false;
      userCanceled := true;
      subs := Subs(Cancel(subs.v4), Cancel(subs.v6));
    }

    /** free_getaddrinfo_request. */
    method Free()
      modifies this`frees, this`timerArmed
      ensures View() == Freed(old(View()))
    {
      timerArmed := false;
      frees := frees + 1;
    }

    /** evdns_getaddrinfo_timeout_cb. In a good state exactly one lookup has timed out, as
        the source asserts and guesses. */
    method Timeout()
      requires Good(View()) && timerArmed && running == Nobody
      modifies this`subs, this`timerArmed, this`userCb, this`calls, this`pendingResult
      ensures View() == TimedOut(old(View()))
    {
      TimedOutGood(View());
      timerArmed := false;
      var v4out, v6out := subs.v4.Pending(), subs.v6.Pending();
      subs := Subs(Cancel(subs.v4), Cancel(subs.v6));
      assert v4out != v6out;
      if pendingResult != [] {
        calls := calls + [Call(0, pendingResult)];
        pendingResult := [];
      } else {
        calls := calls + [Call(if pendingError == 0 then EAI_AGAIN else pendingError, [])];
      }
      userCb := false;
    }

    /** The start of the rest of evdns_getaddrinfo_gotresolve: the handle is dropped. */
    method Detach() returns (f: Family, result: Result, sawCancel: bool, otherPending: bool)
      requires running.Running? && subs.Get(running.family).Scheduled?
      modifies this`subs, this`running, this`heard4, this`heard6
      ensures View() == Detached(old(View())) && f == old(running).family && result == old(View()).Result()
      ensures sawCancel == old(running).sawCancel && otherPending == old(View()).OtherPending()
    {
      f, sawCancel := running.family, running.sawCancel;
      result, otherPending := subs.Get(f).result, subs.Get(Other(f)).Pending();
      subs := subs.Put(f, Unused);
      running := Nobody;
      if result.Answer? && userCb {
        if f == V4 { heard4 := result.addresses; } else { heard6 := result.addresses; }
      }
    }

    /** evdns_getaddrinfo_gotresolve after it has released the lock. */
    method EndCallback()
      requires running.Running? && subs.Get(running.family).Scheduled?
      modifies this
      ensures View() == Ended(old(View()))
    {
      hide Detached;
      var f, result, sawCancel, otherPending := Detach();
      if result == Canceled && !sawCancel {
        if !otherPending { Free(); }
        return;
      }
      if !userCb {
        Free();
        return;
      }
      var err := ErrorOf(result);
      if err != 0 {
        if otherPending {
          timerArmed := timerArmed || result != Shutdown;
          pendingError := err;
          return;
        }
        if sawCancel {
          calls := calls + [Call(EAI_CANCEL, [])];
        } else if pendingResult != [] {
          calls := calls + [Call(0, pendingResult)];
          pendingResult := [];
        } else {
          calls := calls + [Call(if pendingError != 0 then MergeErr(err, pendingError) else err, [])];
        }
        Free();
        return;
      }
      if sawCancel {
        if !otherPending {
          calls := calls + [Call(EAI_CANCEL, [])];
          Free();
        }
        return;
      }
      var res := result.addresses;
      if otherPending {
        timerArmed := true;
        pendingResult := res;
        return;
      }
      assert pendingResult == [] ==> res + pendingResult == res && pendingResult + res == res;
      if pendingResult != [] {
        res := if f == V4 then res + pendingResult else pendingResult + res;
        pendingResult := [];
      }
      calls := calls + [Call(0, res)];
      Free();
    }
  }

  /** A run on a request goes through the states of the run; the source's assertion in the
      timeout holds in each of them. */
  method Run(v4: bool, v6: bool, steps: seq<Step>) returns (q: Request)
    requires v4 || v6
    ensures fresh(q) && q.View() == After(v4, v6, steps)
  {
    hide Ended, TimedOut, Begun, CanceledByUser, Good;
    q := new Request(v4, v6);
    for i := 0 to |steps|
      invariant fresh(q) && q.View() == After(v4, v6, steps[..i])
    {
      assert steps[..i + 1][..i] == steps[..i];
      RunGood(v4, v6, steps[..i]);
      match steps[i] {
        case Reply(f, r) => if q.subs.Get(f) == Waiting && r != Canceled { q.subs := q.subs.Put(f, Scheduled(r)); }
        case Begin(f) => if q.running == Nobody && q.subs.Get(f).Scheduled? { q.BeginCallback(f); }
        case End => if q.running.Running? && q.subs.Get(q.running.family).Scheduled? { q.EndCallback(); }
        case Fire => if q.timerArmed && q.running == Nobody { q.Timeout(); }
        case CancelByUser => if q.frees == 0 { q.UserCancel(); }
      }
    }
    assert steps[..|steps|] == steps;
  }
}
