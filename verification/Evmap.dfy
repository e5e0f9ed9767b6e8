/** The table of events per file descriptor of libevent/evmap.c, with its
    reference counts and the list of changes that waits for the next dispatch. */
module Evmap {
  import opened Epoll

  const MAX_COUNT: nat := 0xffff

  datatype Event = Event(id: int, kinds: Interest)

  /** Per-descriptor data: struct evmap_io and the changelist index behind it. */
  datatype Ctx = Ctx(nread: nat, nwrite: nat, nclose: nat, events: seq<Event>, idxPlus1: nat) {
    function Number(k: Kind): nat {
      match k
      case Read => nread
      case Write => nwrite
      case Close => nclose
    }

    /** The kinds somebody waits for. */
    function Wanted(): Interest {
      set k: Kind | Number(k) > 0
    }
  }

  const NEW_CTX: Ctx := Ctx(0, 0, 0, [], 0)

  /** How many events wait for a kind. */
  function Count(events: seq<Event>, k: Kind): nat {
    if events == [] then 0 else (if k in events[0].kinds then 1 else 0) + Count(events[1..], k)
  }

  /** The counts are those of the event list (evmap_io_check_integrity_fn), and
      they fit in 16 bits. */
  ghost predicate Counted(c: Ctx) {
    forall k: Kind :: c.Number(k) == Count(c.events, k) <= MAX_COUNT
  }

  function One(b: bool): nat {
    if b then 1 else 0
  }

  /** The context with one more event. */
  function Plus(c: Ctx, ev: Event): Ctx {
    c.(nread := c.nread + One(Read in ev.kinds),
       nwrite := c.nwrite + One(Write in ev.kinds),
       nclose := c.nclose + One(Close in ev.kinds),
       events := [ev] + c.events)
  }

  /** A list without the first occurrence of an event. */
  function Without(events: seq<Event>, ev: Event): seq<Event> {
    if events == [] then [] else if events[0] == ev then events[1..] else [events[0]] + Without(events[1..], ev)
  }

  /** The context with one event less. */
  function Minus(c: Ctx, ev: Event): Ctx
    requires forall k: Kind :: c.Number(k) >= One(k in ev.kinds)
  {
    assert c.Number(Read) == c.nread && c.Number(Write) == c.nwrite && c.Number(Close) == c.nclose;
    c.(nread := c.nread - One(Read in ev.kinds),
       nwrite := c.nwrite - One(Write in ev.kinds),
       nclose := c.nclose - One(Close in ev.kinds),
       events := Without(c.events, ev))
  }

  lemma PlusCounted(c: Ctx, ev: Event)
    requires Counted(c) && Fits(c.events, ev)
    ensures Counted(Plus(c, ev)) && Plus(c, ev).Wanted() == c.Wanted() + ev.kinds
  {
    forall k: Kind ensures Plus(c, ev).Number(k) == Count([ev] + c.events, k) {
      assert ([ev] + c.events)[1..] == c.events;
      match k case Read => case Write => case Close =>
    }
    forall k: Kind ensures k in Plus(c, ev).Wanted() <==> k in c.Wanted() + ev.kinds {
      match k case Read => case Write => case Close =>
    }
  }

  lemma {:induction false} WithoutCount(events: seq<Event>, ev: Event, k: Kind)
    requires ev in events
    ensures Count(events, k) == Count(Without(events, ev), k) + One(k in ev.kinds)
  {
    if events[0] != ev {
      WithoutCount(events[1..], ev, k);
      assert ([events[0]] + Without(events[1..], ev))[1..] == Without(events[1..], ev);
    }
  }

  /** One occurrence of an event has gone from a list; the others are in their old order. */
  ghost predicate TakenOut(before: seq<Event>, ev: Event, after: seq<Event>) {
    && (exists i :: 0 <= i < |before| && before[i] == ev && after == before[..i] + before[i + 1..])
    && multiset(before) == multiset(after) + multiset{ev}
  }

  lemma {:induction false} WithoutAt(events: seq<Event>, ev: Event) returns (i: nat)
    requires ev in events
    ensures i < |events| && events[i] == ev && Without(events, ev) == events[..i] + events[i + 1..]
  {
    if events[0] == ev {
      i := 0;
      assert events[..0] + events[1..] == events[1..];
    } else {
      var k := WithoutAt(events[1..], ev);
      i := k + 1;
      CutBehind(events, k);
    }
  }

  lemma CutBehind(events: seq<Event>, k: nat)
    requires k + 1 < |events|
    ensures [events[0]] + (events[1..][..k] + events[1..][k + 1..]) == events[..k + 1] + events[k + 2..]
  {
  }

  lemma CutMultiset(events: seq<Event>, i: nat)
    requires i < |events|
    ensures multiset(events) == multiset(events[..i] + events[i + 1..]) + multiset{events[i]}
  {
    assert events == events[..i] + ([events[i]] + events[i + 1..]);
  }

  lemma WithoutTakes(events: seq<Event>, ev: Event)
    requires ev in events
    ensures TakenOut(events, ev, Without(events, ev))
  {
    var i := WithoutAt(events, ev);
    CutMultiset(events, i);
  }

  lemma MinusCounted(c: Ctx, ev: Event)
    requires Counted(c) && ev in c.events
    ensures forall k: Kind :: c.Number(k) >= One(k in ev.kinds)
    ensures Counted(Minus(c, ev))
    ensures Minus(c, ev).Wanted() == c.Wanted() - (set k: Kind | k in ev.kinds && c.Number(k) == 1)
  {
    forall k: Kind ensures c.Number(k) >= One(k in ev.kinds) {
      WithoutCount(c.events, ev, k);
    }
    forall k: Kind ensures Minus(c, ev).Number(k) == Count(Without(c.events, ev), k) {
      WithoutCount(c.events, ev, k);
      match k case Read => case Write => case Close =>
    }
    forall k: Kind
      ensures k in Minus(c, ev).Wanted() <==> k in c.Wanted() && !(k in ev.kinds && c.Number(k) == 1)
    {
      match k case Read => case Write => case Close =>
    }
  }

  /** The change with the bits of some kinds set. */
  function Mark(c: Change, kinds: Interest, add: Bits, other: Bits): Change {
    c.(read := if Read in kinds then (if Read in c.before then add else other) else c.read,
       write := if Write in kinds then (if Write in c.before then add else other) else c.write,
       close := if Close in kinds then (if Close in c.before then add else other) else c.close)
  }

  /** event_changelist_add_: an add replaces any previous delete. */
  function MarkAdd(c: Change, kinds: Interest): Change {
    Mark(c, kinds, CHANGE_ADD, CHANGE_ADD)
  }

  /** event_changelist_del_: deleting what the kernel does not know is a no-op. */
  function MarkDel(c: Change, kinds: Interest): Change {
    Mark(c, kinds, CHANGE_DEL, 0)
  }

  /** The change leads to the wanted interest and deletes only what is there. */
  ghost predicate LeadsTo(c: Change, want: Interest) {
    && c.Sane() && c.Target() == want
    && forall k: Kind :: c.Get(k) == CHANGE_DEL ==> k in c.before
  }

  lemma MarkAddLeads(c: Change, want: Interest, kinds: Interest)
    requires LeadsTo(c, want)
    ensures LeadsTo(MarkAdd(c, kinds), want + kinds)
    ensures MarkAdd(c, kinds).fd == c.fd && MarkAdd(c, kinds).before == c.before
  {
    var d := MarkAdd(c, kinds);
    forall k: Kind ensures d.Get(k) == if k in kinds then CHANGE_ADD else c.Get(k) {
      match k case Read => case Write => case Close =>
    }
    assert d.Target() == want + kinds;
  }

  lemma MarkDelLeads(c: Change, want: Interest, kinds: Interest)
    requires LeadsTo(c, want)
    ensures LeadsTo(MarkDel(c, kinds), want - kinds)
    ensures MarkDel(c, kinds).fd == c.fd && MarkDel(c, kinds).before == c.before
  {
    var d := MarkDel(c, kinds);
    forall k: Kind
      ensures d.Get(k) == if k in kinds then (if k in c.before then CHANGE_DEL else 0) else c.Get(k)
    {
      match k case Read => case Write => case Close =>
    }
    assert d.Target() == want - kinds;
  }

  lemma NewChangeLeads(fd: int, before: Interest)
    ensures LeadsTo(Change(fd, before, 0, 0, 0), before)
  {
    var c := Change(fd, before, 0, 0, 0);
    forall k: Kind ensures c.Get(k) == 0 {
      match k case Read => case Write => case Close =>
    }
    assert c.Target() == before;
  }

  /** A descriptor's registration is what its events want, or one pending change
      leads from the registration to what they want. */
  ghost predicate Synced(c: Ctx, fd: int, changes: seq<Change>, kernel: Kernel) {
    if c.idxPlus1 == 0 then InterestIn(kernel, fd) == c.Wanted()
    else
      && c.idxPlus1 <= |changes|
      && changes[c.idxPlus1 - 1].fd == fd
      && changes[c.idxPlus1 - 1].before == InterestIn(kernel, fd)
      && LeadsTo(changes[c.idxPlus1 - 1], c.Wanted())
  }

  /** What the table, the list of changes and the kernel keep between calls:
      event_changelist_assert_ok, evmap_check_integrity_ and the link between them. */
  ghost predicate Agree(io: map<int, Ctx>, changes: seq<Change>, kernel: Kernel) {
    && (forall fd :: fd in io ==> fd >= 0 && Counted(io[fd]) && Synced(io[fd], fd, changes, kernel))
    && (forall i :: 0 <= i < |changes| ==> changes[i].fd in io && io[changes[i].fd].idxPlus1 == i + 1)
    && (forall fd :: fd in kernel ==> fd in io && kernel[fd] != {})
  }

  /** The list with the change in slot `i`, which may be the next free one. */
  function Put(changes: seq<Change>, i: nat, ch: Change): seq<Change>
    requires i <= |changes|
  {
    if i == |changes| then changes + [ch] else changes[i := ch]
  }

  /** The slot of a descriptor. */
  function SlotOf(c: Ctx, changes: seq<Change>): nat {
    if c.idxPlus1 == 0 then |changes| else c.idxPlus1 - 1
  }

  /** The pending change of a descriptor, new if there is none. */
  function Pending(c: Ctx, changes: seq<Change>, fd: int, before: Interest): Change
    requires c.idxPlus1 <= |changes|
  {
    if c.idxPlus1 == 0 then Change(fd, before, 0, 0, 0) else changes[c.idxPlus1 - 1]
  }

  /** What is pending leads from the registration to what is wanted. */
  lemma PendingLeads(io: map<int, Ctx>, changes: seq<Change>, kernel: Kernel, fd: int)
    requires Agree(io, changes, kernel) && fd in io
    ensures io[fd].idxPlus1 <= |changes|
    ensures LeadsTo(Pending(io[fd], changes, fd, io[fd].Wanted()), io[fd].Wanted())
    ensures Pending(io[fd], changes, fd, io[fd].Wanted()).before == InterestIn(kernel, fd)
    ensures Pending(io[fd], changes, fd, io[fd].Wanted()).fd == fd
  {
    assert Synced(io[fd], fd, changes, kernel);
    NewChangeLeads(fd, io[fd].Wanted());
  }

  /** Replacing a descriptor's context together with its change keeps agreement. */
  lemma PutAgrees(io: map<int, Ctx>, changes: seq<Change>, kernel: Kernel, fd: int, c: Ctx, ch: Change)
    requires Agree(io, changes, kernel) && fd in io
    requires c.idxPlus1 == SlotOf(io[fd], changes) + 1 && Counted(c)
    requires ch.fd == fd && ch.before == InterestIn(kernel, fd) && LeadsTo(ch, c.Wanted())
    ensures SlotOf(io[fd], changes) <= |changes|
    ensures Agree(io[fd := c], Put(changes, SlotOf(io[fd], changes), ch), kernel)
  {
    hide LeadsTo, Counted;
    assert Synced(io[fd], fd, changes, kernel);
    var i := SlotOf(io[fd], changes);
    var after := Put(changes, i, ch);
    var io2 := io[fd := c];
    forall g | g in io2 ensures g >= 0 && Counted(io2[g]) && Synced(io2[g], g, after, kernel) {
      if g != fd {
        assert Synced(io[g], g, changes, kernel);
      }
    }
    forall n | 0 <= n < |after| ensures after[n].fd in io2 && io2[after[n].fd].idxPlus1 == n + 1 {
      if n != i {
        assert after[n] == changes[n];
      }
    }
  }

  /** Replacing a descriptor's context alone keeps agreement if what it wants stays. */
  lemma SameWantsAgrees(io: map<int, Ctx>, changes: seq<Change>, kernel: Kernel, fd: int, c: Ctx)
    requires Agree(io, changes, kernel) && fd in io
    requires Counted(c) && c.idxPlus1 == io[fd].idxPlus1 && c.Wanted() == io[fd].Wanted()
    ensures Agree(io[fd := c], changes, kernel)
  {
    hide LeadsTo, Counted;
    assert Synced(io[fd], fd, changes, kernel);
    var io2 := io[fd := c];
    forall g | g in io2 ensures g >= 0 && Counted(io2[g]) && Synced(io2[g], g, changes, kernel) {
      assert g in io && Synced(io[g], g, changes, kernel);
    }
  }

  /** A context made for a descriptor nobody has used. */
  lemma NewCtxAgrees(io: map<int, Ctx>, changes: seq<Change>, kernel: Kernel, fd: int)
    requires Agree(io, changes, kernel) && fd >= 0 && fd !in io
    ensures Agree(io[fd := NEW_CTX], changes, kernel)
  {
    hide LeadsTo;
    var io2 := io[fd := NEW_CTX];
    assert Counted(NEW_CTX) && NEW_CTX.Wanted() == {};
    forall g | g in io2 ensures g >= 0 && Counted(io2[g]) && Synced(io2[g], g, changes, kernel) {
      if g != fd {
        assert Synced(io[g], g, changes, kernel);
      }
    }
  }

  /** Telling the kernel at once about a new context keeps agreement. */
  lemma ImmediateAgrees(io: map<int, Ctx>, kernel: Kernel, fd: int, c: Ctx, ch: Change)
    requires Agree(io, [], kernel) && fd in io && c.idxPlus1 == 0 && Counted(c)
    requires ch.fd == fd && LeadsTo(ch, c.Wanted()) && (ch.Sets(CHANGE_ADD) || ch.Sets(CHANGE_DEL))
    ensures Agree(io[fd := c], [], Applied(kernel, ch))
  {
    hide Counted;
    var io2, k2 := io[fd := c], Applied(kernel, ch);
    forall g | g in io2 ensures g >= 0 && Counted(io2[g]) && Synced(io2[g], g, [], k2) {
      if g != fd {
        assert Synced(io[g], g, [], kernel);
      }
    }
  }

  /** The events on a descriptor. */
  function EventsOn(io: map<int, Ctx>, fd: int): seq<Event> {
    if fd in io then io[fd].events else []
  }

  /** The kinds a list of events waits for. */
  function WantedBy(events: seq<Event>): Interest {
    set k: Kind | Count(events, k) > 0
  }

  /** One more event would not overflow a 16-bit count. */
  predicate Fits(events: seq<Event>, ev: Event) {
    forall k: Kind :: k in ev.kinds ==> Count(events, k) < MAX_COUNT
  }

  class EventMap {
    const useChangelist: bool
    var io: map<int, Ctx>
    var changes: seq<Change>
    var kernel: Kernel

    ghost predicate Valid() reads this {
      && Agree(io, changes, kernel)
      && (!useChangelist ==> changes == [])
    }

    constructor (changelist: bool)
      ensures Valid() && useChangelist == changelist && io == map[] && kernel == map[] && changes == []
    {
      useChangelist, io, changes, kernel := changelist, map[], [], map[];
    }

    /** event_changelist_add_ (`adding`) and event_changelist_del_. */
    method Enlist(fd: int, before: Interest, kinds: Interest, adding: bool)
      requires fd in io && io[fd].idxPlus1 <= |changes|
      modifies this`io, this`changes
      ensures io == old(io)[fd := old(io)[fd].(idxPlus1 := SlotOf(old(io)[fd], old(changes)) + 1)]
      ensures var was := Pending(old(io)[fd], old(changes), fd, before);
              changes == Put(old(changes), SlotOf(old(io)[fd], old(changes)),
                             if adding then MarkAdd(was, kinds) else MarkDel(was, kinds))
    {
      if io[fd].idxPlus1 == 0 {
        io := io[fd := io[fd].(idxPlus1 := |changes| + 1)];
        changes := changes + [Change(fd, before, 0, 0, 0)];
      }
      var i := io[fd].idxPlus1 - 1;
      var ch := changes[i];
      changes := changes[i := if adding then MarkAdd(ch, kinds) else MarkDel(ch, kinds)];
    }

    /** epoll_nochangelist_add and epoll_nochangelist_del. */
    method TellKernel(fd: int, before: Interest, kinds: Interest, adding: bool)
      modifies this`kernel
      ensures kernel == Applied(old(kernel), Direct(fd, before, kinds, adding))
    {
      var ch := Direct(fd, before, kinds, adding);
      var r;
      kernel, r := ApplyOneChange(kernel, ch);
    }

    /** The backend's add or del, with either backend. */
    method Backend(fd: int, before: Interest, kinds: Interest, adding: bool, ghost c: Ctx)
      requires Valid() && fd in io && before == io[fd].Wanted() && kinds != {}
      requires Counted(c) && c.Wanted() == if adding then before + kinds else before - kinds
      requires adding || kinds <= before
      modifies this`io, this`changes, this`kernel
      ensures fd in io && io == old(io)[fd := old(io)[fd].(idxPlus1 := io[fd].idxPlus1)]
      ensures Agree(io[fd := c.(idxPlus1 := io[fd].idxPlus1)], changes, kernel)
      ensures !useChangelist ==> changes == []
    {
      hide Agree, LeadsTo, Counted, Mark, Direct, Applied, Ctx.Wanted, Put;
      PendingLeads(io, changes, kernel, fd);
      ghost var was := Pending(io[fd], changes, fd, before);
      ghost var slot := SlotOf(io[fd], changes);
      if useChangelist {
        ghost var ch := if adding then MarkAdd(was, kinds) else MarkDel(was, kinds);
        IndexOnly(c, slot + 1);
        MarkAddLeads(was, before, kinds);
        MarkDelLeads(was, before, kinds);
        PutAgrees(io, changes, kernel, fd, c.(idxPlus1 := slot + 1), ch);
        assert io[fd := io[fd].(idxPlus1 := slot + 1)][fd := c.(idxPlus1 := slot + 1)] == io[fd := c.(idxPlus1 := slot + 1)];
        Enlist(fd, before, kinds, adding);
      } else {
        assert io == io[fd := io[fd].(idxPlus1 := 0)];
        IndexOnly(c, 0);
        assert io[fd].idxPlus1 == 0;
        DirectLeads(fd, before, kinds, adding);
        ImmediateAgrees(io, kernel, fd, c.(idxPlus1 := 0), Direct(fd, before, kinds, adding));
        TellKernel(fd, before, kinds, adding);
      }
    }

    /** evmap_io_add_. */
    method IoAdd(fd: int, ev: Event) returns (r: int)
      requires Valid()
      modifies this`io, this`changes, this`kernel
      ensures Valid()
      ensures var was := EventsOn(old(io), fd);
              && r == (if fd < 0 then 0
                       else if !Fits(was, ev) then -1
                       else if ev.kinds <= WantedBy(was) then 0 else 1)
              && (forall f :: EventsOn(io, f) == if f == fd && r != -1 && fd >= 0 then [ev] + was else EventsOn(old(io), f))
    {
      if fd < 0 {
        return 0;
      }
      if fd !in io {
        NewCtxAgrees(io, changes, kernel, fd);
        io := io[fd := NEW_CTX];
      }
      var ctx := io[fd];
      var after := Plus(ctx, ev);
      FitsCounted(ctx, ev);
      if after.nread > MAX_COUNT || after.nwrite > MAX_COUNT || after.nclose > MAX_COUNT {
        return -1;
      }
      PlusCounted(ctx, ev);
      var res := set k: Kind | k in ev.kinds && ctx.Number(k) == 0;
      assert res == ev.kinds - ctx.Wanted();
      r := 0;
      if res != {} {
        assert ctx.Wanted() + ev.kinds == ctx.Wanted() + res;
        Backend(fd, ctx.Wanted(), res, true, after);
        r := 1;
      } else {
        SameWantsAgrees(io, changes, kernel, fd, after);
      }
      io := io[fd := after.(idxPlus1 := io[fd].idxPlus1)];
    }

    /** evmap_io_del_, of an event that is in the table. */
    method IoDel(fd: int, ev: Event) returns (r: int)
      requires Valid() && (fd >= 0 ==> ev in EventsOn(io, fd))
      modifies this`io, this`changes, this`kernel
      ensures Valid()
      ensures var was := EventsOn(old(io), fd);
              && r == (if fd < 0 then 0 else if WantedBy(was) == WantedBy(Without(was, ev)) then 0 else 1)
              && (forall f :: EventsOn(io, f) == if f == fd && fd >= 0 then Without(was, ev) else EventsOn(old(io), f))
      ensures fd >= 0 ==> TakenOut(EventsOn(old(io), fd), ev, EventsOn(io, fd))
    {
      if fd < 0 {
        return 0;
      }
      WithoutTakes(EventsOn(io, fd), ev);
      var ctx := io[fd];
      MinusCounted(ctx, ev);
      var after := Minus(ctx, ev);
      var res := set k: Kind | k in ev.kinds && ctx.Number(k) == 1;
      CountedWants(ctx);
      CountedWants(after);
      r := 0;
      if res != {} {
        Backend(fd, ctx.Wanted(), res, false, after);
        r := 1;
      } else {
        SameWantsAgrees(io, changes, kernel, fd, after);
      }
      io := io[fd := after.(idxPlus1 := io[fd].idxPlus1)];
    }

    /** epoll_apply_changes, then event_changelist_remove_all_: the part of
        epoll_dispatch before the wait. */
    method Dispatch()
      requires Valid()
      modifies this`io, this`changes, this`kernel
      ensures Valid() && changes == []
      ensures forall f :: EventsOn(io, f) == EventsOn(old(io), f)
      ensures forall f :: InterestIn(kernel, f) == WantedBy(EventsOn(io, f))
    {
      DispatchAgrees(io, changes, kernel);
      var k := ApplyChanges(io, changes, kernel);
      var m := RemoveAll(io, changes, kernel);
      io, changes, kernel := m, [], k;
      Settled(io, kernel);
    }
  }

  /** epoll_apply_changes. */
  method ApplyChanges(ghost io: map<int, Ctx>, changes: seq<Change>, kernel: Kernel) returns (k: Kernel)
    requires Agree(io, changes, kernel)
    ensures k == AppliedTo(kernel, changes)
  {
    k := kernel;
    for i := 0 to |changes|
      invariant k == AppliedTo(kernel, changes[..i])
    {
      ChangeIsSane(io, changes, kernel, i);
      assert changes[..i + 1][..i] == changes[..i];
      var r;
      k, r := ApplyOneChange(k, changes[i]);
    }
    assert changes[..|changes|] == changes;
  }

  /** event_changelist_remove_all_, with the assertion it makes. */
  method RemoveAll(io: map<int, Ctx>, changes: seq<Change>, ghost kernel: Kernel) returns (m: map<int, Ctx>)
    requires Agree(io, changes, kernel)
    ensures m == Cleared(io, changes, |changes|)
  {
    m := io;
    for i := 0 to |changes|
      invariant m == Cleared(io, changes, i)
    {
      ClearedAt(io, changes, kernel, i);
      assert m[changes[i].fd].idxPlus1 == i + 1;
      m := m[changes[i].fd := m[changes[i].fd].(idxPlus1 := 0)];
    }
  }

  /** The change epoll_nochangelist_add and epoll_nochangelist_del apply at once. */
  function Direct(fd: int, before: Interest, kinds: Interest, adding: bool): (ch: Change)
    ensures ch.Sane()
  {
    var b := if adding then CHANGE_ADD else CHANGE_DEL;
    Change(fd, before, if Read in kinds then b else 0, if Write in kinds then b else 0, if Close in kinds then b else 0)
  }

  lemma DirectLeads(fd: int, before: Interest, kinds: Interest, adding: bool)
    requires kinds != {} && (adding || kinds <= before)
    ensures LeadsTo(Direct(fd, before, kinds, adding), if adding then before + kinds else before - kinds)
    ensures Direct(fd, before, kinds, adding).fd == fd
    ensures Direct(fd, before, kinds, adding).Sets(if adding then CHANGE_ADD else CHANGE_DEL)
  {
    var d := Direct(fd, before, kinds, adding);
    forall k: Kind ensures d.Get(k) == if k in kinds then (if adding then CHANGE_ADD else CHANGE_DEL) else 0 {
      match k case Read => case Write => case Close =>
    }
    var k :| k in kinds;
    assert d.Sets(d.Get(k));
    assert d.Target() == if adding then before + kinds else before - kinds;
  }

  lemma IndexOnly(c: Ctx, n: nat)
    requires Counted(c)
    ensures Counted(c.(idxPlus1 := n)) && c.(idxPlus1 := n).Wanted() == c.Wanted()
  {
    assert forall k: Kind :: c.(idxPlus1 := n).Number(k) == c.Number(k);
  }

  lemma CountedWants(c: Ctx)
    requires Counted(c)
    ensures c.Wanted() == WantedBy(c.events)
  {
  }

  lemma FitsCounted(c: Ctx, ev: Event)
    requires Counted(c)
    ensures Plus(c, ev).nread <= MAX_COUNT && Plus(c, ev).nwrite <= MAX_COUNT && Plus(c, ev).nclose <= MAX_COUNT
            <==> Fits(c.events, ev)
    ensures c.Wanted() == WantedBy(c.events)
  {
    assert c.nread == Count(c.events, Read) && c.nwrite == Count(c.events, Write) && c.nclose == Count(c.events, Close);
  }

  /** The kernel after a list of changes, in order. */
  ghost function AppliedTo(kernel: Kernel, changes: seq<Change>): Kernel {
    if changes == [] then kernel
    else Applied(AppliedTo(kernel, changes[..|changes| - 1]), changes[|changes| - 1])
  }

  /** The table with the indices of the first `n` changes reset. */
  ghost function Cleared(io: map<int, Ctx>, changes: seq<Change>, n: nat): map<int, Ctx>
    requires n <= |changes|
  {
    map fd | fd in io :: if 0 < io[fd].idxPlus1 <= n then io[fd].(idxPlus1 := 0) else io[fd]
  }

  /** No row that adds and deletes at once is ever looked up. */
  lemma ChangeIsSane(io: map<int, Ctx>, changes: seq<Change>, kernel: Kernel, i: nat)
    requires Agree(io, changes, kernel) && i < |changes|
    ensures changes[i].Sane()
  {
    assert Synced(io[changes[i].fd], changes[i].fd, changes, kernel);
  }

  lemma ClearedAt(io: map<int, Ctx>, changes: seq<Change>, kernel: Kernel, i: nat)
    requires Agree(io, changes, kernel) && i < |changes|
    ensures changes[i].fd in io && Cleared(io, changes, i)[changes[i].fd] == io[changes[i].fd]
    ensures io[changes[i].fd].idxPlus1 == i + 1
    ensures Cleared(io, changes, i + 1) == Cleared(io, changes, i)[changes[i].fd := io[changes[i].fd].(idxPlus1 := 0)]
  {
    var fd := changes[i].fd;
    forall g | g in io
      ensures Cleared(io, changes, i + 1)[g] == Cleared(io, changes, i)[fd := io[fd].(idxPlus1 := 0)][g]
    {
      assert Synced(io[g], g, changes, kernel);
    }
  }

  /** After the first `n` changes each descriptor they name is registered for what
      it wants, and the others are as before. */
  lemma {:induction false} AppliedInterest(io: map<int, Ctx>, changes: seq<Change>, kernel: Kernel, n: nat, fd: int)
    requires Agree(io, changes, kernel) && n <= |changes| && fd in io
    ensures InterestIn(AppliedTo(kernel, changes[..n]), fd)
            == if 0 < io[fd].idxPlus1 <= n then io[fd].Wanted() else InterestIn(kernel, fd)
  {
    hide Counted, Applied, InterestIn, Ctx.Wanted, Change.Target;
    if n > 0 {
      var ch := changes[n - 1];
      AppliedInterest(io, changes, kernel, n - 1, fd);
      assert changes[..n][..n - 1] == changes[..n - 1];
      AppliedOne(AppliedTo(kernel, changes[..n - 1]), ch, fd);
      assert Synced(io[fd], fd, changes, kernel);
      assert io[ch.fd].idxPlus1 == n;
    }
  }

  lemma AppliedOne(kernel: Kernel, ch: Change, fd: int)
    ensures fd != ch.fd ==> InterestIn(Applied(kernel, ch), fd) == InterestIn(kernel, fd)
    ensures ch.Sane() && InterestIn(kernel, ch.fd) == ch.before ==> InterestIn(Applied(kernel, ch), ch.fd) == ch.Target()
  {
    if ch.Sane() {
      UnsetTarget(ch);
    }
  }

  lemma UnsetTarget(c: Change)
    requires c.Sane()
    ensures !c.Sets(CHANGE_ADD) && !c.Sets(CHANGE_DEL) ==> c.Target() == c.before
  {
    if !c.Sets(CHANGE_ADD) && !c.Sets(CHANGE_DEL) {
      assert forall k: Kind :: c.Get(k) == 0;
    }
  }

  lemma {:induction false} AppliedKnown(io: map<int, Ctx>, changes: seq<Change>, kernel: Kernel, n: nat)
    requires Agree(io, changes, kernel) && n <= |changes|
    ensures forall fd :: fd in AppliedTo(kernel, changes[..n]) ==> fd in io && AppliedTo(kernel, changes[..n])[fd] != {}
  {
    hide Counted, Synced, LeadsTo;
    if n > 0 {
      AppliedKnown(io, changes, kernel, n - 1);
      assert changes[..n][..n - 1] == changes[..n - 1];
    }
  }

  /** Applying the list and emptying it leaves table and kernel in agreement. */
  lemma DispatchAgrees(io: map<int, Ctx>, changes: seq<Change>, kernel: Kernel)
    requires Agree(io, changes, kernel)
    ensures Agree(Cleared(io, changes, |changes|), [], AppliedTo(kernel, changes))
    ensures forall f :: EventsOn(Cleared(io, changes, |changes|), f) == EventsOn(io, f)
  {
    var io2, k2 := Cleared(io, changes, |changes|), AppliedTo(kernel, changes);
    assert changes[..|changes|] == changes;
    AppliedKnown(io, changes, kernel, |changes|);
    forall g | g in io2 ensures g >= 0 && Counted(io2[g]) && Synced(io2[g], g, [], k2) {
      assert Synced(io[g], g, changes, kernel);
      AppliedInterest(io, changes, kernel, |changes|, g);
      assert io2[g].Wanted() == io[g].Wanted();
    }
  }

  /** With nothing pending the kernel knows exactly what the events want. */
  lemma Settled(io: map<int, Ctx>, kernel: Kernel)
    requires Agree(io, [], kernel)
    ensures forall f :: InterestIn(kernel, f) == WantedBy(EventsOn(io, f))
  {
    forall f ensures InterestIn(kernel, f) == WantedBy(EventsOn(io, f)) {
      if f in io {
        assert Synced(io[f], f, [], kernel);
        CountedWants(io[f]);
      } else {
        assert forall k: Kind :: Count([], k) == 0;
      }
    }
  }
}
