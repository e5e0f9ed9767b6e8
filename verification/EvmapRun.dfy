/** Whole runs of the descriptor table: holding changes back until the next
    dispatch registers what telling the kernel at once registers. */
module EvmapRun {
  import opened Epoll
  import opened Evmap

  datatype Call = AddCall(fd: int, ev: Event) | DelCall(fd: int, ev: Event) | DispatchCall

  /** The events on a descriptor after a run, newest first. */
  function After(calls: seq<Call>, fd: int): seq<Event> {
    if calls == [] then []
    else
      var was := After(calls[..|calls| - 1], fd);
      match calls[|calls| - 1]
      case AddCall(f, ev) => if f == fd && fd >= 0 && Fits(was, ev) then [ev] + was else was
      case DelCall(f, ev) => if f == fd && fd >= 0 then Without(was, ev) else was
      case DispatchCall => was
  }

  /** What a call answers: -1 if refused, 1 if the backend had to be told. */
  function Outcome(calls: seq<Call>, i: nat): int
    requires i < |calls|
  {
    match calls[i]
    case AddCall(fd, ev) =>
      var was := After(calls[..i], fd);
      if fd < 0 then 0 else if !Fits(was, ev) then -1 else if ev.kinds <= WantedBy(was) then 0 else 1
    case DelCall(fd, ev) =>
      var was := After(calls[..i], fd);
      if fd < 0 || WantedBy(was) == WantedBy(Without(was, ev)) then 0 else 1
    case DispatchCall => 0
  }

  /** Events are deleted only while they are in the table. */
  predicate Legal(calls: seq<Call>) {
    forall i :: 0 <= i < |calls| && calls[i].DelCall? && calls[i].fd >= 0
      ==> calls[i].ev in After(calls[..i], calls[i].fd)
  }

  /** How often an event was added to a descriptor, but for the calls that were refused,
      less how often it was deleted. */
  function Live(calls: seq<Call>, fd: int, ev: Event): int {
    if calls == [] then 0
    else
      var n := |calls| - 1;
      Live(calls[..n], fd, ev)
      + (if calls[n] == AddCall(fd, ev) && Outcome(calls, n) != -1 then 1 else if calls[n] == DelCall(fd, ev) then -1 else 0)
  }

  lemma LegalFront(calls: seq<Call>)
    requires calls != [] && Legal(calls)
    ensures Legal(calls[..|calls| - 1])
  {
    var front := calls[..|calls| - 1];
    forall i | 0 <= i < |front| && front[i].DelCall? && front[i].fd >= 0 ensures front[i].ev in After(front[..i], front[i].fd) {
      assert front[..i] == calls[..i] && front[i] == calls[i];
    }
  }

  /** The events that a run leaves on a descriptor are those that were added more often
      than deleted, as often as that. */
  lemma {:induction false} LiveLeft(calls: seq<Call>, fd: int, ev: Event)
    requires Legal(calls) && fd >= 0
    ensures multiset(After(calls, fd))[ev] == Live(calls, fd, ev)
  {
    if calls != [] {
      hide Fits, WantedBy, Without;
      var n := |calls| - 1;
      var was := After(calls[..n], fd);
      LegalFront(calls);
      LiveLeft(calls[..n], fd, ev);
      if calls[n].DelCall? && calls[n].fd == fd {
        WithoutTakes(was, calls[n].ev);
      }
    }
  }

  /** Somebody waits for a kind exactly if an event with that kind is on the list. */
  lemma {:induction false} WantsMember(events: seq<Event>, k: Kind)
    ensures k in WantedBy(events) <==> exists ev :: ev in events && k in ev.kinds
  {
    if events != [] {
      WantsMember(events[1..], k);
      assert events == [events[0]] + events[1..];
      if k in events[0].kinds {
        assert events[0] in events;
      }
    }
  }

  /** After a run somebody waits for a kind exactly if an event with that kind was added
      more often than deleted. */
  lemma LiveWants(calls: seq<Call>, fd: int, k: Kind)
    requires Legal(calls) && fd >= 0
    ensures k in WantedBy(After(calls, fd)) <==> exists ev: Event :: k in ev.kinds && Live(calls, fd, ev) > 0
  {
    hide WantedBy, After, Live;
    WantsMember(After(calls, fd), k);
    forall ev: Event ensures ev in After(calls, fd) <==> Live(calls, fd, ev) > 0 {
      LiveLeft(calls, fd, ev);
    }
  }

  /** The table holds the events of a run. */
  ghost predicate Holds(io: map<int, Ctx>, calls: seq<Call>) {
    forall f :: EventsOn(io, f) == After(calls, f)
  }

  lemma AfterNext(calls: seq<Call>, i: nat, fd: int)
    requires i < |calls|
    ensures After(calls[..i + 1], fd)
            == var was := After(calls[..i], fd);
               match calls[i]
               case AddCall(f, ev) => if f == fd && fd >= 0 && Fits(was, ev) then [ev] + was else was
               case DelCall(f, ev) => if f == fd && fd >= 0 then Without(was, ev) else was
               case DispatchCall => was
  {
    assert calls[..i + 1][..i] == calls[..i];
  }

  /** One call on either kind of table. */
  method Step(m: EventMap, calls: seq<Call>, i: nat) returns (r: int)
    requires m.Valid() && i < |calls| && Holds(m.io, calls[..i]) && Legal(calls)
    modifies m`io, m`changes, m`kernel
    ensures m.Valid() && Holds(m.io, calls[..i + 1]) && r == Outcome(calls, i)
    ensures calls[i].DispatchCall? ==> m.changes == []
  {
    hide EventMap.Valid, Count, WantedBy, Fits;
    forall f ensures After(calls[..i + 1], f)
            == var was := After(calls[..i], f);
               match calls[i]
               case AddCall(g, ev) => if g == f && f >= 0 && Fits(was, ev) then [ev] + was else was
               case DelCall(g, ev) => if g == f && f >= 0 then Without(was, ev) else was
               case DispatchCall => was
    {
      AfterNext(calls, i, f);
    }
    match calls[i] {
      case AddCall(fd, ev) => r := m.IoAdd(fd, ev);
      case DelCall(fd, ev) =>
        assert EventsOn(m.io, fd) == After(calls[..i], fd);
        r := m.IoDel(fd, ev);
      case DispatchCall => m.Dispatch(); r := 0;
    }
  }

  lemma SameMaps(a: Kernel, b: Kernel)
    requires forall f :: (f in a <==> f in b) && InterestIn(a, f) == InterestIn(b, f)
    ensures a == b
  {
    forall f ensures (f in a <==> f in b) && (f in a && f in b ==> a[f] == b[f]) {
      assert InterestIn(a, f) == InterestIn(b, f);
    }
    assert forall f :: f in a.Keys <==> f in b.Keys;
  }

  /** Two kernels that know what the same events want are the same. */
  lemma SameKernel(a: EventMap, b: EventMap, calls: seq<Call>)
    requires a.Valid() && b.Valid() && Holds(a.io, calls) && Holds(b.io, calls)
    requires a.changes == b.changes == []
    ensures a.kernel == b.kernel
    ensures forall f :: InterestIn(a.kernel, f) == WantedBy(After(calls, f))
  {
    Settled(a.io, a.kernel);
    Settled(b.io, b.kernel);
    forall f ensures (f in a.kernel <==> f in b.kernel) && InterestIn(a.kernel, f) == InterestIn(b.kernel, f) {
      assert InterestIn(a.kernel, f) == WantedBy(EventsOn(a.io, f));
      assert InterestIn(b.kernel, f) == WantedBy(EventsOn(b.io, f));
    }
    SameMaps(a.kernel, b.kernel);
  }

  /** The same calls on a base that holds changes back and on one that does not:
      all results are the same, and at a dispatch after the end both kernels know exactly
      the kinds that the events still in the table wait for. */
  method RunBoth(calls: seq<Call>)
    returns (lazy: Kernel, eager: Kernel, lazyResults: seq<int>, eagerResults: seq<int>)
    requires Legal(calls)
    ensures lazy == eager && lazyResults == eagerResults
    ensures |lazyResults| == |calls|
    ensures forall i :: 0 <= i < |calls| ==> lazyResults[i] == Outcome(calls, i)
    ensures forall f :: InterestIn(lazy, f) == WantedBy(After(calls, f))
    ensures forall f, k: Kind :: f >= 0 ==> (k in InterestIn(lazy, f) <==> exists ev: Event :: k in ev.kinds && Live(calls, f, ev) > 0)
  {
    var a := new EventMap(true);
    var b := new EventMap(false);
    lazyResults, eagerResults := [], [];
    for i := 0 to |calls|
      invariant a.Valid() && b.Valid() && !b.useChangelist
      invariant Holds(a.io, calls[..i]) && Holds(b.io, calls[..i])
      invariant lazyResults == eagerResults && |lazyResults| == i
      invariant forall j :: 0 <= j < i ==> lazyResults[j] == Outcome(calls, j)
      invariant fresh(a) && fresh(b) && a != b
    {
      var ra := Step(a, calls, i);
      var rb := Step(b, calls, i);
      lazyResults, eagerResults := lazyResults + [ra], eagerResults + [rb];
      if calls[i].DispatchCall? {
        SameKernel(a, b, calls[..i + 1]);
        assert a.kernel == b.kernel;
      }
    }
    assert calls[..|calls|] == calls;
    a.Dispatch();
    b.Dispatch();
    SameKernel(a, b, calls);
    lazy, eager := a.kernel, b.kernel;
    forall f, k: Kind | f >= 0 ensures k in InterestIn(lazy, f) <==> exists ev: Event :: k in ev.kinds && Live(calls, f, ev) > 0 {
      LiveWants(calls, f, k);
    }
  }
}
