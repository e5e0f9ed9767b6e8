/** How libevent/evdns.c schedules requests: which are in flight, which wait, and
    which server each is assigned to. What a send does and which timers go off is
    left to the environment; a random id is any that is free. */
module DnsScheduler {
  import opened Options
  import opened IdLists
  import opened Cycles
  import opened NameserverRing
  import opened DnsQueues

  /** The largest value the option max-inflight may be given. */
  const MAX_INFLIGHT: nat := 65000

  /** The same requests, with the same ids, in flight or waiting as before; a server
      may have changed. */
  ghost predicate Kept(before: Reqs, after: Reqs) {
    && after.Keys == before.Keys
    && forall r :: r in before ==> after[r].id == before[r].id && (after[r].ns >= 0 <==> before[r].ns >= 0)
  }

  /** Requests in flight, but for those that went, still are, with their ids. */
  ghost predicate StillFlying(before: Reqs, after: Reqs, gone: set<int>) {
    forall s :: s in before && s !in gone && before[s].ns >= 0 ==> s in after && after[s].id == before[s].id && after[s].ns >= 0
  }

  /** Requests that were in flight and still are stay with their server, unless that has
      failed and they had not been sent, and then go to one that was up; what was sent stays
      sent. */
  ghost predicate Stay(before: Reqs, after: Reqs, up0: seq<bool>, up1: seq<bool>, but: set<int>) {
    forall s :: s in before && s in after && s !in but && before[s].ns >= 0 ==>
      && (before[s].sent ==> after[s].sent)
      && (after[s].ns == before[s].ns
          || (!before[s].sent && Failed(up0, up1, before[s].ns) && IsUp(up0, after[s].ns)))
  }

  predicate IsUp(up: seq<bool>, k: int) {
    0 <= k < |up| && up[k]
  }

  /** A server that was up is down. */
  predicate Failed(up0: seq<bool>, up1: seq<bool>, k: int) {
    IsUp(up0, k) && !IsUp(up1, k)
  }

  /** Requests that waited and are now in flight went to servers that were up, if any still
      is. */
  ghost predicate WellPlaced(before: Reqs, after: Reqs, up0: seq<bool>, good: bool) {
    forall s :: s in before && s in after && before[s].ns < 0 && after[s].ns >= 0 && good ==> IsUp(up0, after[s].ns)
  }

  lemma StayStay(a: Reqs, b: Reqs, c: Reqs, up0: seq<bool>, up1: seq<bool>, up2: seq<bool>, but: set<int>)
    requires Stay(a, b, up0, up1, but) && Stay(b, c, up1, up2, but) && NoneUp(up0, up1) && NoneUp(up1, up2)
    requires forall s :: s in a && s in c && s !in but && a[s].ns >= 0 ==> s in b && b[s].ns >= 0
    ensures Stay(a, c, up0, up2, but)
  {
  }

  lemma StaySame(a: Reqs, b: Reqs, up0: seq<bool>, up1: seq<bool>, but: set<int>)
    requires forall s :: s in a && s in b && s !in but && a[s].ns >= 0 ==> b[s] == a[s]
    ensures Stay(a, b, up0, up1, but)
  {
  }

  lemma NonePlaced(a: Reqs, up: seq<bool>, good: bool)
    ensures WellPlaced(a, a, up, good)
  {
  }

  lemma OnePlaced(a: Reqs, b: Reqs, up: seq<bool>, good: bool, r: int)
    requires r in b && (good ==> IsUp(up, b[r].ns)) && forall s :: s in a && s in b && s != r ==> b[s] == a[s]
    ensures WellPlaced(a, b, up, good)
  {
  }

  lemma KeptPlaced(a: Reqs, b: Reqs, up: seq<bool>, good: bool)
    requires Kept(a, b)
    ensures WellPlaced(a, b, up, good)
  {
  }

  lemma LessPlaced(a: Reqs, b: Reqs, c: Reqs, up: seq<bool>, good: bool)
    requires WellPlaced(b, c, up, good) && forall s :: s in a && s in c ==> s in b && b[s] == a[s]
    ensures WellPlaced(a, c, up, good)
  {
  }

  lemma StayOne(a: Reqs, b: Reqs, up0: seq<bool>, up1: seq<bool>, r: int)
    requires Stay(a, b, up0, up1, {}) && r in a && r in b && a[r].ns >= 0
    ensures b[r].ns == a[r].ns || Failed(up0, up1, a[r].ns)
    ensures a[r].sent ==> b[r].ns == a[r].ns
    ensures IsUp(up0, a[r].ns) ==> IsUp(up0, b[r].ns)
  {
  }

  lemma SentStays(a: Reqs, b: Reqs, up0: seq<bool>, up1: seq<bool>, r: int)
    requires Stay(a, b, up0, up1, {}) && r in a && r in b && a[r].ns >= 0
    ensures a[r].sent ==> b[r].sent
  {
  }

  lemma StayBut(a: Reqs, b: Reqs, up0: seq<bool>, up1: seq<bool>, but: set<int>)
    requires Stay(a, b, up0, up1, {})
    ensures Stay(a, b, up0, up1, but)
  {
  }

  /** A server other than one is up. */
  predicate GoodBut(up: seq<bool>, k: nat) {
    exists i :: 0 <= i < |up| && i != k && up[i]
  }

  lemma OtherGood(up: seq<bool>, k: nat)
    requires k < |up| && !up[k]
    ensures GoodBut(up[k := true], k) <==> CountUp(up, |up|) > 0
  {
    SomeoneUp(up, |up|);
    assert up[..|up|] == up;
    if true in up {
      var i :| 0 <= i < |up| && up[i];
      assert up[k := true][i];
    }
  }

  lemma StayUp(a: Reqs, b: Reqs, up0: seq<bool>, up1: seq<bool>, k: nat)
    requires Stay(a, b, up0, up1, {}) && |up0| == |up1| && k < |up0| && !up0[k]
    ensures Stay(a, b, up0, up1[k := true], {})
  {
  }

  /** Taking note that a server is up, and what comes after. */
  lemma StayStayUp(a: Reqs, b: Reqs, c: Reqs, up0: seq<bool>, up1: seq<bool>, up2: seq<bool>, k: nat, gone: set<int>)
    requires Stay(a, b, up0, up1, {}) && Stay(b, c, up1, up2, {}) && k < |up0|
    requires NoneUp(up0[k := true], up1) && NoneUp(up1, up2)
    requires forall s :: s in c ==> s !in gone
    requires forall s :: s in a && s in c && a[s].ns >= 0 ==> s in b && b[s].ns >= 0
    ensures Stay(a, c, up0[k := true], up2, {})
  {
  }

  lemma WellPlacedReplied(a: Reqs, b: Reqs, c: Reqs, up0: seq<bool>, up1: seq<bool>, up2: seq<bool>, k: nat, r: int)
    requires k < |up0| && NoneUp(up0[k := true], up1) && NoneUp(up1, up2)
    requires WellPlaced(a, b, up0[k := true], GoodBut(up1, k)) && WellPlaced(b, c, up1, CountUp(up2, |up2|) > 0)
    requires Stay(b, c, up1, up2, {}) && forall s :: s in a && s in c ==> s in b
    ensures WellPlaced(a, c, up0[k := true], GoodBut(up2, k))
  {
    SomeoneUp(up2, |up2|);
    assert up2[..|up2|] == up2;
    if GoodBut(up2, k) {
      var i :| 0 <= i < |up2| && i != k && up2[i];
      assert up1[i] && true in up2;
      WellPlacedThen(a, b, c, up0[k := true], up1, up2, GoodBut(up1, k), true);
    }
  }

  lemma PlacedUp(a: Reqs, b: Reqs, up: seq<bool>, k: nat, good: bool, good2: bool)
    requires WellPlaced(a, b, up, good) && k < |up| && (good2 ==> good)
    ensures WellPlaced(a, b, up[k := true], good2)
  {
  }

  /** If a server is up, one was before. */
  lemma GoodBefore(up0: seq<bool>, up1: seq<bool>)
    requires NoneUp(up0, up1)
    ensures CountUp(up1, |up1|) > 0 ==> CountUp(up0, |up0|) > 0
  {
    SomeoneUp(up0, |up0|);
    SomeoneUp(up1, |up1|);
    assert up0[..|up0|] == up0 && up1[..|up1|] == up1;
    if true in up1 {
      var i :| 0 <= i < |up1| && up1[i];
      assert up0[i];
    }
  }

  lemma WellPlacedThen(a: Reqs, b: Reqs, c: Reqs, up0: seq<bool>, up1: seq<bool>, up2: seq<bool>, good1: bool, good2: bool)
    requires WellPlaced(a, b, up0, good1) && WellPlaced(b, c, up1, good2) && Stay(b, c, up1, up2, {})
    requires NoneUp(up0, up1) && (good2 ==> good1)
    requires forall s :: s in a && s in c ==> s in b
    ensures WellPlaced(a, c, up0, good2)
  {
  }

  /** What is left of a queue after requests have gone from its head. */
  ghost predicate LeftOf(before: seq<int>, after: seq<int>) {
    |after| <= |before| && after == before[|before| - |after|..]
  }

  lemma LeftOfLeft(a: seq<int>, b: seq<int>, c: seq<int>)
    requires LeftOf(a, b) && LeftOf(b, c)
    ensures LeftOf(a, c)
  {
  }

  /** The waiting queue without a request, if that is one that waits. */
  function Dropped(reqs: Reqs, q: seq<int>, r: int): seq<int> {
    if r in reqs && reqs[r].ns < 0 then Removed(q, r) else q
  }

  /** No server has come up. */
  ghost predicate NoneUp(before: seq<bool>, after: seq<bool>) {
    |after| == |before| && forall i :: 0 <= i < |after| && after[i] ==> before[i]
  }

  class Base {
    const ring: Ring
    var reqs: Reqs
    var buckets: seq<seq<int>>
    var waiting: seq<int>
    /** requests_inflight of each server. */
    var load: seq<int>
    var inflight: int
    var waits: int
    var max: nat

    ghost predicate Valid() reads this, ring {
      && ring.Valid() && |load| == |ring.up|
      && 1 <= max <= MAX_INFLIGHT
      && Books(reqs, buckets, waiting, load, inflight, waits)
    }

    /** A base whose servers are all up. */
    constructor (servers: nat)
      ensures Valid() && reqs == map[] && fresh(ring) && waiting == [] && max == 64 && ring.up == seq(servers, i => true)
    {
      ring := new Ring(seq(servers, i => true), 0);
      reqs, buckets, waiting := map[], seq(13, i => []), [];
      load := seq(servers, i => 0);
      inflight, waits, max := 0, 0, 64;
      new;
      assert InFlight(reqs) == {} && forall k :: OnServer(reqs, k) == {};
    }

    /** request_find_from_trans_id: finds the request in flight with an id, if any. */
    method Find(id: nat) returns (found: Option<int>)
      requires Valid()
      ensures found.Some? ==> found.value in reqs && reqs[found.value].ns >= 0 && reqs[found.value].id == id
      ensures found.None? ==> forall r :: r in reqs && reqs[r].ns >= 0 ==> reqs[r].id != id
    {
      hide IdsOk, LoadsOk, WaitingOk;
      var q := buckets[id % |buckets|];
      assert Bucket(reqs, q, id % |buckets|, |buckets|);
      for j := 0 to |q|
        invariant forall i :: 0 <= i < j ==> q[i] in reqs && reqs[q[i]].id != id
      {
        assert q[j] in q;
        if reqs[q[j]].id == id {
          return Some(q[j]);
        }
      }
      forall r | r in reqs && reqs[r].ns >= 0 ensures reqs[r].id != id {
        if r in q {
          assert q[IndexOf(q, r)] == r;
        }
      }
      return None;
    }

    /** transaction_id_pick, which tries ids at random until `Find` finds no request for
        one. */
    method PickId() returns (id: nat)
      requires Valid() && inflight < NO_ID
      ensures Free(reqs, id)
    {
      ghost var some := SomeFree(reqs);
      id :| id < NO_ID && Free(reqs, id);
    }

    /** nameserver_pick. */
    method PickServer() returns (k: Option<nat>)
      requires Valid()
      modifies ring`head
      ensures Valid()
      ensures k.None? <==> ring.up == []
      ensures k.Some? ==> k.value < |load|
      ensures ring.good > 0 && k.Some? ==> ring.up[k.value]
      ensures ring.good > 0 && k.Some? ==>
                FirstUpFrom(ring.up, old(ring.head), k.value) && ring.head == NameserverRing.Next(k.value, |ring.up|)
    {
      hide Books;
      ghost var q;
      if ring.up != [] {
        Residue(ring.head, 0, ring.head, |ring.up|);
      }
      k, q := ring.Pick(ring.head);
      if ring.good > 0 {
        ghost var s := UpsOnly(ring.up, old(ring.head), q, k.value);
      }
    }

    /** request_swap_ns. */
    method Swap(r: int, k: Option<nat>)
      requires Valid() && r in reqs && reqs[r].ns >= 0 && (k.Some? ==> k.value < |load|)
      modifies this`reqs, this`load
      ensures Valid() && |load| == old(|load|)
      ensures reqs == old(reqs)[r := old(reqs)[r].(ns := if k.Some? then k.value else old(reqs)[r].ns)]
    {
      hide Books;
      if k.Some? && k.value != reqs[r].ns {
        SwapBooks(reqs, buckets, waiting, load, inflight, waits, r, k.value);
        // the source asserts that the server it leaves has a request in flight
        assert load[reqs[r].ns] > 0;
        load := load[reqs[r].ns := load[reqs[r].ns] - 1][k.value := load[k.value] + 1];
        reqs := reqs[r := reqs[r].(ns := k.value)];
      }
    }

    lemma InBucket(i: nat, j: nat)
      requires Valid() && i < |buckets| && j < |buckets[i]|
      ensures buckets[i][j] in reqs && reqs[buckets[i][j]].ns >= 0
    {
      assert Bucket(reqs, buckets[i], i, |buckets|);
      assert buckets[i][j] in buckets[i];
    }

    /** nameserver_failed: requests of the server that were not sent yet go to another. */
    method ServerFailed(k: nat)
      requires Valid() && k < |load|
      modifies this`reqs, this`load, ring
      ensures NoneUp(old(ring.up), ring.up)
      ensures Valid() && Kept(old(reqs), reqs) && |load| == old(|load|) && !ring.up[k]
      ensures ring.up == old(ring.up)[k := false]
      ensures if old(ring.up)[k] && ring.good > 0
              then forall r :: r in old(reqs) ==> r in reqs && Rehomed(old(reqs)[r], reqs[r], k, ring.up)
              else reqs == old(reqs)
      ensures Stay(old(reqs), reqs, old(ring.up), ring.up, {})
      ensures !old(ring.up)[k] ==> ring.head == old(ring.head)
    {
      hide Books, Sweep;
      if !ring.up[k] {
        return;
      }
      ring.SetState(k, false);
      if ring.good == 0 {
        return;
      }
      ghost var was := reqs;
      PlacedHere();
      SweepStart(was, buckets, k, ring.up);
      for i := 0 to |buckets|
        invariant ring.up == old(ring.up)[k := false] && ring.good > 0
        invariant Valid() && |load| == old(|load|) && Sweep(was, reqs, buckets, i, 0, k, ring.up)
      {
        for j := 0 to |buckets[i]|
          invariant ring.up == old(ring.up)[k := false] && ring.good > 0
          invariant Valid() && |load| == old(|load|) && Sweep(was, reqs, buckets, i, j, k, ring.up)
        {
          InBucket(i, j);
          var r := buckets[i][j];
          ghost var now := reqs;
          SweepAt(was, now, buckets, i, j, k, ring.up);
          if !reqs[r].sent && reqs[r].ns == k {
            var picked := PickServer();
            Swap(r, picked);
          }
          SweepNext(was, now, reqs, buckets, i, j, k, ring.up);
        }
        SweepBucket(was, reqs, buckets, i, k, ring.up);
      }
      SweepEnd(was, reqs, buckets, k, ring.up);
    }

    lemma PlacedHere()
      requires Valid()
      ensures Placed(reqs, buckets)
    {
    }

    /** evdns_request_transmit: the send may work, be put off, or fail for good. */
    method Transmit(r: int)
      requires Valid() && r in reqs && reqs[r].ns >= 0
      modifies this`reqs, this`load, ring
      ensures NoneUp(old(ring.up), ring.up)
      ensures Valid() && Kept(old(reqs), reqs) && |load| == old(|load|)
      ensures Stay(old(reqs), reqs, old(ring.up), ring.up, {})
      ensures !old(reqs)[r].sent && IsUp(old(ring.up), old(reqs)[r].ns) && ring.good > 0 ==> IsUp(ring.up, reqs[r].ns)
      ensures ring.up == old(ring.up) ==> ring.head == old(ring.head) && reqs[r].ns == old(reqs)[r].ns
    {
      hide Books;
      if * {
        return;
      }
      if * {
        ServerOf(r);
        ServerFailed(reqs[r].ns);
      }
      SentBooks(reqs, buckets, waiting, load, inflight, waits, r, true);
      reqs := reqs[r := reqs[r].(sent := true)];
    }

    lemma ServerOf(r: int)
      requires Valid() && r in reqs
      ensures reqs[r].ns < |load|
    {
    }

    /** evdns_transmit: any of the requests in flight may be sent again. */
    method TransmitAll()
      requires Valid()
      modifies this`reqs, this`load, ring
      ensures NoneUp(old(ring.up), ring.up)
      ensures Valid() && Kept(old(reqs), reqs) && |load| == old(|load|)
      ensures Stay(old(reqs), reqs, old(ring.up), ring.up, {})
    {
      hide Books, Stay;
      StaySame(reqs, reqs, ring.up, ring.up, {});
      for i := 0 to |buckets|
        invariant NoneUp(old(ring.up), ring.up) && Stay(old(reqs), reqs, old(ring.up), ring.up, {})
        invariant Valid() && Kept(old(reqs), reqs) && |load| == old(|load|)
      {
        for j := 0 to |buckets[i]|
          invariant NoneUp(old(ring.up), ring.up) && Stay(old(reqs), reqs, old(ring.up), ring.up, {})
          invariant Valid() && Kept(old(reqs), reqs) && |load| == old(|load|)
        {
          if * {
            InBucket(i, j);
            ghost var reqs1, up1 := reqs, ring.up;
            Transmit(buckets[i][j]);
            StayStay(old(reqs), reqs1, reqs, old(ring.up), up1, ring.up, {});
          }
        }
      }
    }

    /** evdns_request_insert into the buckets, with the counters. */
    method Enter(r: int, id: nat, k: nat)
      requires Valid() && r !in reqs && k < |load| && Free(reqs, id)
      modifies this`reqs, this`buckets, this`load, this`inflight
      ensures Valid() && reqs == old(reqs)[r := Req(id, k, false)] && |load| == old(|load|) && inflight == old(inflight) + 1
    {
      var q := Req(id, k, false);
      EnterBooks(reqs, buckets, waiting, load, inflight, waits, r, q);
      var i := id % |buckets|;
      hide Books;
      reqs, buckets := reqs[r := q], buckets[i := buckets[i] + [r]];
      load, inflight := load[k := load[k] + 1], inflight + 1;
    }

    /** The first request that waits. */
    lemma FirstWaiting()
      requires Valid() && waits > 0
      ensures waiting != [] && waiting[0] in reqs && reqs[waiting[0]].ns < 0
    {
      assert waiting[0] in waiting;
    }

    /** evdns_requests_pump_waiting_queue: requests that wait are put in flight while
        there is room and a server. */
    method Pump()
      requires Valid()
      modifies this`reqs, this`buckets, this`waiting, this`load, this`inflight, this`waits, ring
      ensures NoneUp(old(ring.up), ring.up)
      ensures Valid() && reqs.Keys == old(reqs.Keys) && |load| == old(|load|)
      ensures StillFlying(old(reqs), reqs, {}) && Stay(old(reqs), reqs, old(ring.up), ring.up, {})
      ensures WellPlaced(old(reqs), reqs, old(ring.up), ring.good > 0)
      ensures inflight >= max || waits <= 0 || ring.up == []
      ensures LeftOf(old(waiting), waiting)
      ensures |waiting| == |old(waiting)| ==> ring.up == old(ring.up) && reqs == old(reqs)
    {
      hide Books, Stay, WellPlaced;
      StaySame(reqs, reqs, ring.up, ring.up, {});
      NonePlaced(reqs, ring.up, ring.good > 0);
      while inflight < max && waits > 0
        invariant NoneUp(old(ring.up), ring.up)
        invariant Valid() && reqs.Keys == old(reqs.Keys) && |load| == old(|load|)
        invariant StillFlying(old(reqs), reqs, {}) && Stay(old(reqs), reqs, old(ring.up), ring.up, {})
        invariant WellPlaced(old(reqs), reqs, old(ring.up), ring.good > 0)
        invariant LeftOf(old(waiting), waiting)
        invariant |waiting| == |old(waiting)| ==> ring.up == old(ring.up) && reqs == old(reqs)
        decreases waits
      {
        ghost var reqs1, up1, good1 := reqs, ring.up, ring.good > 0;
        var some := PumpOne();
        if !some {
          return;
        }
        StayStay(old(reqs), reqs1, reqs, old(ring.up), up1, ring.up, {});
        GoodBefore(up1, ring.up);
        WellPlacedThen(old(reqs), reqs1, reqs, old(ring.up), up1, ring.up, good1, ring.good > 0);
      }
    }

    /** A round of it: the first request that waits goes in flight, if there is a server. */
    method PumpOne() returns (some: bool)
      requires Valid() && inflight < max && waits > 0
      modifies this`reqs, this`buckets, this`waiting, this`load, this`inflight, this`waits, ring
      ensures Valid() && reqs.Keys == old(reqs.Keys) && |load| == old(|load|) && NoneUp(old(ring.up), ring.up)
      ensures StillFlying(old(reqs), reqs, {}) && Stay(old(reqs), reqs, old(ring.up), ring.up, {})
      ensures WellPlaced(old(reqs), reqs, old(ring.up), ring.good > 0)
      ensures if some then waits < old(waits) && |old(waiting)| > 0 && waiting == old(waiting)[1..]
              else ring.up == [] == old(ring.up) && reqs == old(reqs) && waiting == old(waiting)
    {
      hide Books, Stay, WellPlaced, FirstUpFrom;
      // the source asserts that the queue has a head
      FirstWaiting();
      assert waiting != [];
      var r := waiting[0];
      assert Removed(waiting, r) == waiting[1..];
      var k := PickServer();
      if k.None? {
        StaySame(reqs, reqs, ring.up, ring.up, {});
        NonePlaced(reqs, ring.up, ring.good > 0);
        return false;
      }
      Promote(r, k.value);
      ghost var reqs1, up1 := reqs, ring.up;
      StaySame(old(reqs), reqs1, ring.up, ring.up, {});
      OnePlaced(old(reqs), reqs1, ring.up, ring.good > 0, r);
      Transmit(r);
      ghost var reqs2, up2 := reqs, ring.up;
      StayStay(old(reqs), reqs1, reqs2, old(ring.up), up1, up2, {});
      TransmitAll();
      StayStay(old(reqs), reqs2, reqs, old(ring.up), up2, ring.up, {});
      StayStay(reqs1, reqs2, reqs, up1, up2, ring.up, {});
      GoodBefore(up1, ring.up);
      KeptPlaced(reqs1, reqs, up1, ring.good > 0);
      WellPlacedThen(old(reqs), reqs1, reqs, old(ring.up), up1, ring.up, CountUp(up1, |up1|) > 0, ring.good > 0);
      return true;
    }

    /** A waiting request is put in flight. */
    method Promote(r: int, k: nat)
      requires Valid() && r in reqs && reqs[r].ns < 0 && k < |load| && inflight < max
      modifies this`reqs, this`buckets, this`waiting, this`load, this`inflight, this`waits
      ensures Valid() && reqs.Keys == old(reqs.Keys) && |load| == old(|load|) && reqs[r].ns >= 0 && waits == old(waits) - 1
      ensures forall s :: s in reqs && s != r ==> reqs[s] == old(reqs)[s]
      ensures waiting == Removed(old(waiting), r) && reqs[r].ns == k && !reqs[r].sent
    {
      hide Books;
      UnwaitBooks(reqs, buckets, waiting, load, inflight, waits, r);
      reqs, waiting, waits := reqs - {r}, Removed(waiting, r), waits - 1;
      var id := PickId();
      Enter(r, id, k);
    }

    /** request_finished: the request is taken off its list, and there may be room. */
    method Finish(r: int)
      requires Valid() && r in reqs
      modifies this`reqs, this`buckets, this`waiting, this`load, this`inflight, this`waits, ring
      ensures NoneUp(old(ring.up), ring.up)
      ensures Valid() && reqs.Keys == old(reqs.Keys) - {r} && |load| == old(|load|)
      ensures StillFlying(old(reqs), reqs, {r}) && Stay(old(reqs), reqs, old(ring.up), ring.up, {})
      ensures WellPlaced(old(reqs), reqs, old(ring.up), ring.good > 0) && (inflight >= max || waits <= 0 || ring.up == [])
      ensures LeftOf(Dropped(old(reqs), old(waiting), r), waiting)
      ensures |waiting| == |Dropped(old(reqs), old(waiting), r)| ==> ring.up == old(ring.up) && reqs == old(reqs) - {r}
    {
      hide Books, Removed, Stay, WellPlaced;
      if reqs[r].ns >= 0 {
        Leave(r);
      } else {
        UnwaitBooks(reqs, buckets, waiting, load, inflight, waits, r);
        reqs, waiting, waits := reqs - {r}, Removed(waiting, r), waits - 1;
      }
      ghost var reqs1 := reqs;
      StaySame(old(reqs), reqs1, ring.up, ring.up, {});
      Pump();
      StayStay(old(reqs), reqs1, reqs, old(ring.up), old(ring.up), ring.up, {});
      LessPlaced(old(reqs), reqs1, reqs, old(ring.up), ring.good > 0);
    }

    /** A request is taken out of its bucket. */
    method Leave(r: int)
      requires Valid() && r in reqs && reqs[r].ns >= 0
      modifies this`reqs, this`buckets, this`load, this`inflight
      ensures Valid() && reqs == old(reqs) - {r} && |load| == old(|load|)
    {
      LeaveBooks(reqs, buckets, waiting, load, inflight, waits, r);
      var i, k := reqs[r].id % |buckets|, reqs[r].ns;
      hide Books, Removed;
      buckets, load := buckets[i := Removed(buckets[i], r)], load[k := load[k] - 1];
      reqs, inflight := reqs - {r}, inflight - 1;
    }

    /** request_new and request_submit: a request goes in flight if there is room and
        a server, else it waits. If no server fails, it is the next one that is up, and the
        one behind it comes next. */
    method Submit(r: int)
      requires Valid() && r !in reqs
      modifies this`reqs, this`buckets, this`waiting, this`load, this`inflight, this`waits, ring
      ensures NoneUp(old(ring.up), ring.up)
      ensures Valid() && reqs.Keys == old(reqs.Keys) + {r} && |load| == old(|load|)
      ensures reqs[r].ns >= 0 <==> old(inflight) < max && ring.up != []
      ensures waiting == if reqs[r].ns >= 0 then old(waiting) else old(waiting) + [r]
      ensures StillFlying(old(reqs), reqs, {}) && Stay(old(reqs), reqs, old(ring.up), ring.up, {})
      ensures reqs[r].ns >= 0 && ring.good > 0 ==> IsUp(ring.up, reqs[r].ns)
      ensures reqs[r].ns >= 0 && ring.good > 0 && ring.up == old(ring.up) ==>
                FirstUpFrom(ring.up, old(ring.head), reqs[r].ns) && reqs[r].ns < |ring.up| && ring.head == NameserverRing.Next(reqs[r].ns, |ring.up|)
    {
      hide Books, Stay, FirstUpFrom;
      var id, k := NO_ID, None;
      if inflight < max {
        id := PickId();
        k := PickServer();
      }
      if k.Some? {
        Enter(r, id, k.value);
        ghost var reqs1, up1 := reqs, ring.up;
        StaySame(old(reqs), reqs, ring.up, ring.up, {});
        Transmit(r);
        StayStay(old(reqs), reqs1, reqs, old(ring.up), up1, ring.up, {});
        GoodBefore(up1, ring.up);
      } else {
        WaitBooks(reqs, buckets, waiting, load, inflight, waits, r, Req(id, -1, false));
        reqs, waiting, waits := reqs[r := Req(id, -1, false)], waiting + [r], waits + 1;
        StaySame(old(reqs), reqs, ring.up, ring.up, {});
      }
    }

    /** nameserver_send_probe: a request for one server goes in flight in any case. */
    method Probe(r: int, k: nat)
      requires Valid() && r !in reqs && k < |load| && inflight < NO_ID
      modifies this`reqs, this`buckets, this`load, this`inflight, ring
      ensures NoneUp(old(ring.up), ring.up)
      ensures Valid() && reqs.Keys == old(reqs.Keys) + {r} && |load| == old(|load|) && reqs[r].ns >= 0
      ensures StillFlying(old(reqs), reqs, {}) && Stay(old(reqs), reqs, old(ring.up), ring.up, {})
      ensures reqs[r].ns == k || Failed(old(ring.up), ring.up, k)
    {
      hide Books, Stay, FirstUpFrom;
      if inflight < max {
        // request_new picks a server, which the probe does not use
        var picked := PickServer();
      }
      var id := PickId();
      Enter(r, id, k);
      ghost var reqs1, up1 := reqs, ring.up;
      StaySame(old(reqs), reqs, ring.up, ring.up, {});
      Transmit(r);
      StayStay(old(reqs), reqs1, reqs, old(ring.up), up1, ring.up, {});
      StayOne(reqs1, reqs, up1, ring.up, r);
    }

    /** evdns_request_timeout_callback, for a request that has been sent often enough
        (`last`) or not. */
    method TimedOut(r: int, last: bool)
      requires Valid() && r in reqs && reqs[r].ns >= 0
      modifies this`reqs, this`buckets, this`waiting, this`load, this`inflight, this`waits, ring
      ensures Valid() && reqs.Keys == if last then old(reqs.Keys) - {r} else old(reqs.Keys)
      ensures |load| == old(|load|) && NoneUp(old(ring.up), ring.up)
      ensures StillFlying(old(reqs), reqs, if last then {r} else {}) && Stay(old(reqs), reqs, old(ring.up), ring.up, {r})
      ensures WellPlaced(old(reqs), reqs, old(ring.up), ring.good > 0)
      ensures last ==> 0 <= old(reqs)[r].ns < |ring.up| && !ring.up[old(reqs)[r].ns]
      ensures last ==> inflight >= max || waits <= 0 || ring.up == []
      ensures last && |waiting| == |old(waiting)| ==> ring.up == old(ring.up)[old(reqs)[r].ns := false]
      ensures !last ==> r in reqs && (old(ring.good) > 0 ==> IsUp(old(ring.up), reqs[r].ns)) && (old(reqs)[r].sent ==> reqs[r].sent)
      ensures if last then LeftOf(old(waiting), waiting) else waiting == old(waiting)
    {
      hide Books, Stay, WellPlaced;
      ServerOf(r);
      if last {
        var k := reqs[r].ns;
        Finish(r);
        ghost var reqs1, up1 := reqs, ring.up;
        ServerFailed(k);
        StayStay(old(reqs), reqs1, reqs, old(ring.up), up1, ring.up, {});
        StayBut(old(reqs), reqs, old(ring.up), ring.up, {r});
        GoodBefore(up1, ring.up);
        KeptPlaced(reqs1, reqs, up1, ring.good > 0);
        WellPlacedThen(old(reqs), reqs1, reqs, old(ring.up), up1, ring.up, CountUp(up1, |up1|) > 0, ring.good > 0);
      } else {
        SendAgain(r);
        KeptPlaced(old(reqs), reqs, old(ring.up), ring.good > 0);
      }
    }

    /** The request is sent again, to the next server, which may be given up. */
    method SendAgain(r: int)
      requires Valid() && r in reqs && reqs[r].ns >= 0
      modifies this`reqs, this`load, ring
      ensures Valid() && Kept(old(reqs), reqs) && |load| == old(|load|) && NoneUp(old(ring.up), ring.up)
      ensures Stay(old(reqs), reqs, old(ring.up), ring.up, {r}) && (old(reqs)[r].sent ==> reqs[r].sent)
      ensures old(ring.good) > 0 ==> IsUp(old(ring.up), reqs[r].ns)
    {
      hide Books, Stay, FirstUpFrom;
      var k := PickServer();
      Swap(r, k);
      ghost var reqs1, up1 := reqs, ring.up;
      StaySame(old(reqs), reqs1, ring.up, ring.up, {r});
      ServerOf(r);
      Transmit(r);
      StayBut(reqs1, reqs, up1, ring.up, {r});
      StayStay(old(reqs), reqs1, reqs, old(ring.up), up1, ring.up, {r});
      StayOne(reqs1, reqs, up1, ring.up, r);
      SentStays(reqs1, reqs, up1, ring.up, r);
      if * {
        ghost var reqs2, up2 := reqs, ring.up;
        ServerOf(r);
        ServerFailed(reqs[r].ns);
        StayBut(reqs2, reqs, up2, ring.up, {r});
        StayStay(old(reqs), reqs2, reqs, old(ring.up), up2, ring.up, {r});
        StayStay(reqs1, reqs2, reqs, up1, up2, ring.up, {});
        StayOne(reqs1, reqs, up1, ring.up, r);
        SentStays(reqs1, reqs, up1, ring.up, r);
      }
    }

    /** request_reissue, after nameserver_failed. For a request that was sent, trying
        again is not pointless if another server is up, and then goes to one. */
    method Reissue(r: int) returns (pointless: bool)
      requires Valid() && r in reqs && reqs[r].ns >= 0
      modifies this`reqs, this`load, ring
      ensures NoneUp(old(ring.up), ring.up)
      ensures Valid() && Kept(old(reqs), reqs) && |load| == old(|load|)
      ensures Stay(old(reqs), reqs, old(ring.up), ring.up, {r})
      ensures 0 <= old(reqs)[r].ns < |ring.up| && !ring.up[old(reqs)[r].ns]
      ensures !pointless ==> !reqs[r].sent
      ensures old(reqs)[r].sent && ring.good > 0 ==> !pointless && 0 <= reqs[r].ns < |ring.up| && ring.up[reqs[r].ns]
    {
      hide Books, Stay, FirstUpFrom, Rehomed;
      ServerOf(r);
      ServerFailed(reqs[r].ns);
      ghost var reqs1 := reqs;
      StayOne(old(reqs), reqs, old(ring.up), ring.up, r);
      SentStays(old(reqs), reqs, old(ring.up), ring.up, r);
      StayBut(old(reqs), reqs, old(ring.up), ring.up, {r});
      pointless := MoveOn(r);
      StaySame(reqs1, reqs, ring.up, ring.up, {r});
      StayStay(old(reqs), reqs1, reqs, old(ring.up), ring.up, ring.up, {r});
    }

    /** The request goes to the next server, if that is another, and counts as not sent. */
    method MoveOn(r: int) returns (pointless: bool)
      requires Valid() && r in reqs && reqs[r].ns >= 0
      modifies this`reqs, this`load, ring`head
      ensures Valid() && |load| == old(|load|) && r in reqs && reqs == old(reqs)[r := reqs[r]]
      ensures reqs[r].id == old(reqs)[r].id && (pointless <==> reqs[r].ns == old(reqs)[r].ns)
      ensures if pointless then reqs[r] == old(reqs)[r] else !reqs[r].sent && reqs[r].ns >= 0
      ensures ring.good > 0 ==> IsUp(ring.up, reqs[r].ns)
    {
      hide Books, FirstUpFrom;
      var was := reqs[r].ns;
      var k := PickServer();
      Swap(r, k);
      pointless := reqs[r].ns == was;
      if !pointless {
        SentBooks(reqs, buckets, waiting, load, inflight, waits, r, false);
        reqs := reqs[r := reqs[r].(sent := false)];
      }
    }

    /** nameserver_up: a probe that is out is cancelled. */
    method ServerUp(k: nat, probe: Option<int>)
      requires Valid() && k < |load|
      modifies this`reqs, this`buckets, this`waiting, this`load, this`inflight, this`waits, ring
      ensures Valid() && |load| == old(|load|) && k < |ring.up| && ring.up[k] && NoneUp(old(ring.up)[k := true], ring.up)
      ensures LeftOf(if !old(ring.up)[k] && probe.Some? then Dropped(old(reqs), old(waiting), probe.value) else old(waiting), waiting)
      ensures reqs.Keys == old(reqs.Keys)
              - if !old(ring.up)[k] && probe.Some? then {probe.value} else {}
      ensures StillFlying(old(reqs), reqs, if !old(ring.up)[k] && probe.Some? then {probe.value} else {})
      ensures Stay(old(reqs), reqs, old(ring.up), ring.up, {})
      ensures WellPlaced(old(reqs), reqs, old(ring.up)[k := true], GoodBut(ring.up, k))
      ensures |waiting| == |if !old(ring.up)[k] && probe.Some? then Dropped(old(reqs), old(waiting), probe.value) else old(waiting)|
              ==> ring.up == old(ring.up)[k := true]
    {
      hide Books, Stay, WellPlaced;
      if ring.up[k] {
        StaySame(reqs, reqs, ring.up, ring.up, {});
        NonePlaced(reqs, ring.up[k := true], GoodBut(ring.up, k));
        return;
      }
      ghost var up1 := ring.up;
      if probe.Some? && probe.value in reqs {
        Finish(probe.value);
        up1 := ring.up;
      } else {
        StaySame(reqs, reqs, ring.up, ring.up, {});
        NonePlaced(reqs, ring.up, ring.good > 0);
      }
      ring.SetState(k, true);
      StayUp(old(reqs), reqs, old(ring.up), up1, k);
      OtherGood(up1, k);
      PlacedUp(old(reqs), reqs, old(ring.up), k, CountUp(up1, |up1|) > 0, GoodBut(ring.up, k));
    }

    /** reply_handle, for a reply that is not retried: its server is up, and the
        request is finished. */
    method Replied(r: int, probe: Option<int>)
      requires Valid() && r in reqs && reqs[r].ns >= 0 && probe != Some(r)
      modifies this`reqs, this`buckets, this`waiting, this`load, this`inflight, this`waits, ring
      ensures Valid() && |load| == old(|load|)
      ensures old(reqs)[r].ns < |old(ring.up)|
              && reqs.Keys == old(reqs.Keys) - {r}
                              - (if !old(ring.up)[old(reqs)[r].ns] && probe.Some? then {probe.value} else {})
              && StillFlying(old(reqs), reqs, {r} + if !old(ring.up)[old(reqs)[r].ns] && probe.Some? then {probe.value} else {})
              && NoneUp(old(ring.up)[old(reqs)[r].ns := true], ring.up)
              && Stay(old(reqs), reqs, old(ring.up)[old(reqs)[r].ns := true], ring.up, {})
              && WellPlaced(old(reqs), reqs, old(ring.up)[old(reqs)[r].ns := true], GoodBut(ring.up, old(reqs)[r].ns))
              && (inflight >= max || waits <= 0 || ring.up == [])
              && LeftOf(if !old(ring.up)[old(reqs)[r].ns] && probe.Some? then Dropped(old(reqs), old(waiting), probe.value) else old(waiting), waiting)
      ensures |waiting| == |if !old(ring.up)[old(reqs)[r].ns] && probe.Some? then Dropped(old(reqs), old(waiting), probe.value) else old(waiting)|
              ==> ring.up == old(ring.up)[old(reqs)[r].ns := true]
    {
      hide Books, Stay, WellPlaced;
      ServerOf(r);
      ghost var k := reqs[r].ns;
      ServerUp(reqs[r].ns, probe);
      ghost var between, reqs1, up1 := waiting, reqs, ring.up;
      Finish(r);
      StayStayUp(old(reqs), reqs1, reqs, old(ring.up), up1, ring.up, k, {r});
      WellPlacedReplied(old(reqs), reqs1, reqs, old(ring.up), up1, ring.up, k, r);
      LeftOfLeft(if !old(ring.up)[old(reqs)[r].ns] && probe.Some? then Dropped(old(reqs), old(waiting), probe.value) else old(waiting), between, waiting);
    }

    /** evdns_base_set_max_requests_inflight: every request moves to its bucket in a
        new table. */
    method SetMax(wanted: int)
      requires Valid() && wanted <= MAX_INFLIGHT
      modifies this`buckets, this`max
      ensures Valid() && max == (if wanted < 1 then 1 else wanted) && |buckets| == (max + 4) / 5
    {
      hide IdsOk, LoadsOk, WaitingOk;
      max := if wanted < 1 then 1 else wanted;
      buckets := Rehash(reqs, buckets, (max + 4) / 5);
    }
  }

  /** The requests whose bucket is before `i`, or that are among the first `j` in it. */
  ghost predicate Moved(reqs: Reqs, buckets: seq<seq<int>>, i: nat, j: nat, r: int) {
    && buckets != [] && r in reqs && reqs[r].ns >= 0
    && (reqs[r].id % |buckets| < i
        || (i < |buckets| && j <= |buckets[i]| && reqs[r].id % |buckets| == i && r in buckets[i][..j]))
  }

  /** `part` holds the requests moved so far. */
  ghost predicate Part(reqs: Reqs, buckets: seq<seq<int>>, i: nat, j: nat, part: Reqs) {
    forall r :: (r in part <==> Moved(reqs, buckets, i, j, r)) && (r in part ==> part[r] == reqs[r])
  }

  lemma MovedNext(reqs: Reqs, buckets: seq<seq<int>>, i: nat, j: nat)
    requires Placed(reqs, buckets) && i < |buckets| && j < |buckets[i]|
    ensures var r := buckets[i][j];
            && r in reqs && reqs[r].ns >= 0 && !Moved(reqs, buckets, i, j, r)
            && forall s :: Moved(reqs, buckets, i, j + 1, s) <==> Moved(reqs, buckets, i, j, s) || s == r
  {
    var q, r := buckets[i], buckets[i][j];
    assert Bucket(reqs, q, i, |buckets|);
    assert r in q;
    assert q[..j + 1] == q[..j] + [r];
    assert r !in q[..j];
  }

  lemma MovedBucket(reqs: Reqs, buckets: seq<seq<int>>, i: nat)
    requires Placed(reqs, buckets) && i < |buckets|
    ensures forall s :: Moved(reqs, buckets, i + 1, 0, s) <==> Moved(reqs, buckets, i, |buckets[i]|, s)
  {
    assert Bucket(reqs, buckets[i], i, |buckets|);
    assert buckets[i][..|buckets[i]|] == buckets[i];
  }

  lemma PartNext(reqs: Reqs, buckets: seq<seq<int>>, i: nat, j: nat, part: Reqs)
    requires Placed(reqs, buckets) && i < |buckets| && j < |buckets[i]| && Part(reqs, buckets, i, j, part)
    ensures var r := buckets[i][j];
            && r in reqs && r !in part && reqs[r].ns >= 0
            && Part(reqs, buckets, i, j + 1, part[r := reqs[r]])
  {
    hide Moved, Placed;
    MovedNext(reqs, buckets, i, j);
  }

  lemma PartBucket(reqs: Reqs, buckets: seq<seq<int>>, i: nat, part: Reqs)
    requires Placed(reqs, buckets) && i < |buckets| && Part(reqs, buckets, i, |buckets[i]|, part)
    ensures Part(reqs, buckets, i + 1, 0, part)
  {
    hide Moved, Placed;
    MovedBucket(reqs, buckets, i);
  }

  // ----- a server fails -----

  /** A request of the failed server that was not sent yet has another server, which
      is up; any other request is as it was. */
  ghost predicate Rehomed(before: Req, after: Req, k: nat, up: seq<bool>) {
    if before.ns == k && !before.sent
    then after == before.(ns := after.ns) && 0 <= after.ns < |up| && up[after.ns]
    else after == before
  }

  /** The requests that were passed are rehomed, the others are as they were. */
  ghost predicate Sweep(before: Reqs, now: Reqs, buckets: seq<seq<int>>, i: nat, j: nat, k: nat, up: seq<bool>) {
    && now.Keys == before.Keys
    && forall r :: r in before ==>
         if Moved(before, buckets, i, j, r) then Rehomed(before[r], now[r], k, up) else now[r] == before[r]
  }

  lemma SweepStart(reqs: Reqs, buckets: seq<seq<int>>, k: nat, up: seq<bool>)
    ensures Sweep(reqs, reqs, buckets, 0, 0, k, up)
  {
  }

  lemma SweepAt(before: Reqs, now: Reqs, buckets: seq<seq<int>>, i: nat, j: nat, k: nat, up: seq<bool>)
    requires Placed(before, buckets) && i < |buckets| && j < |buckets[i]| && Sweep(before, now, buckets, i, j, k, up)
    ensures buckets[i][j] in before && buckets[i][j] in now && now[buckets[i][j]] == before[buckets[i][j]]
  {
    hide Moved, Placed;
    MovedNext(before, buckets, i, j);
  }

  lemma SweepNext(before: Reqs, now: Reqs, after: Reqs, buckets: seq<seq<int>>, i: nat, j: nat, k: nat, up: seq<bool>)
    requires Placed(before, buckets) && i < |buckets| && j < |buckets[i]| && Sweep(before, now, buckets, i, j, k, up)
    requires buckets[i][j] in before && buckets[i][j] in after && after == now[buckets[i][j] := after[buckets[i][j]]]
    requires Rehomed(before[buckets[i][j]], after[buckets[i][j]], k, up)
    ensures Sweep(before, after, buckets, i, j + 1, k, up)
  {
    hide Moved, Placed;
    MovedNext(before, buckets, i, j);
  }

  lemma SweepBucket(before: Reqs, now: Reqs, buckets: seq<seq<int>>, i: nat, k: nat, up: seq<bool>)
    requires Placed(before, buckets) && i < |buckets| && Sweep(before, now, buckets, i, |buckets[i]|, k, up)
    ensures Sweep(before, now, buckets, i + 1, 0, k, up)
  {
    hide Moved, Placed;
    MovedBucket(before, buckets, i);
  }

  lemma SweepEnd(before: Reqs, now: Reqs, buckets: seq<seq<int>>, k: nat, up: seq<bool>)
    requires Placed(before, buckets) && Sweep(before, now, buckets, |buckets|, 0, k, up)
    ensures forall r :: r in before ==> r in now && Rehomed(before[r], now[r], k, up)
    ensures Kept(before, now)
  {
    forall r | r in before && before[r].ns >= 0 ensures Moved(before, buckets, |buckets|, 0, r) {
    }
  }

  method Rehash(reqs: Reqs, buckets: seq<seq<int>>, n: nat) returns (after: seq<seq<int>>)
    requires Placed(reqs, buckets) && n > 0
    ensures |after| == n && Placed(reqs, after)
  {
    hide Placed, Part;
    after := seq(n, i => []);
    ghost var part: Reqs := map[];
    PartStart(reqs, buckets, n);
    for i := 0 to |buckets|
      invariant |after| == n && Placed(part, after) && Part(reqs, buckets, i, 0, part)
    {
      for j := 0 to |buckets[i]|
        invariant |after| == n && Placed(part, after) && Part(reqs, buckets, i, j, part)
      {
        var r := buckets[i][j];
        PartNext(reqs, buckets, i, j, part);
        PlacedIn(part, after, r, reqs[r]);
        part := part[r := reqs[r]];
        var b := reqs[r].id % n;
        after := after[b := after[b] + [r]];
      }
      PartBucket(reqs, buckets, i, part);
    }
    PartEnd(reqs, buckets, part);
    PlacedSame(part, after, reqs);
  }

  lemma PartStart(reqs: Reqs, buckets: seq<seq<int>>, n: nat)
    requires n > 0
    ensures Placed(map[], seq(n, i => [])) && Part(reqs, buckets, 0, 0, map[])
  {
  }

  lemma PartEnd(reqs: Reqs, buckets: seq<seq<int>>, part: Reqs)
    requires Placed(reqs, buckets) && Part(reqs, buckets, |buckets|, 0, part)
    ensures forall r :: (r in reqs && reqs[r].ns >= 0) <==> (r in part && part[r].ns >= 0)
    ensures forall r :: r in reqs && r in part && part[r].ns >= 0 ==> reqs[r].id == part[r].id
  {
    forall r ensures Moved(reqs, buckets, |buckets|, 0, r) <==> r in reqs && reqs[r].ns >= 0 {
    }
  }

  /** What may happen to a base, in any order. */
  datatype Action =
    | SubmitOne(r: int)
    | ProbeServer(r: int, k: nat)
    | TimeOut(r: int, last: bool)
    | BadReply(r: int)
    | GoodReply(r: int, probe: Option<int>)
    | CancelOne(r: int)
    | GoDown(k: nat)
    | ComeUp(k: nat, probe: Option<int>)
    | Resize(max: int)

  /** What can be seen of a base. */
  datatype View = View(reqs: Reqs, waiting: seq<int>, up: seq<bool>, max: nat)

  ghost function ViewOf(b: Base): View reads b, b.ring {
    View(b.reqs, b.waiting, b.ring.up, b.max)
  }

  predicate Flying(reqs: Reqs, r: int) {
    r in reqs && reqs[r].ns >= 0
  }

  /** What an action does, as far as it is determined; one that cannot happen does
      nothing. Servers fail only when something is sent, and if no waiting request goes in
      flight nothing is. */
  ghost predicate Happened(v: View, a: Action, w: View) {
    && (w.max == v.max || a.Resize?)
    && match a
       case SubmitOne(r) =>
         if r in v.reqs then w == v
         else
           && w.reqs.Keys == v.reqs.Keys + {r} && StillFlying(v.reqs, w.reqs, {}) && NoneUp(v.up, w.up)
           && Stay(v.reqs, w.reqs, v.up, w.up, {})
           && (Flying(w.reqs, r) <==> |InFlight(v.reqs)| < v.max && v.up != [])
           && (Flying(w.reqs, r) && true in w.up ==> IsUp(w.up, w.reqs[r].ns))
           && w.waiting == if Flying(w.reqs, r) then v.waiting else v.waiting + [r]
       case ProbeServer(r, k) =>
         if r in v.reqs || k >= |v.up| || |InFlight(v.reqs)| >= NO_ID then w == v
         else
           && w.reqs.Keys == v.reqs.Keys + {r} && Flying(w.reqs, r) && StillFlying(v.reqs, w.reqs, {})
           && Stay(v.reqs, w.reqs, v.up, w.up, {}) && (w.reqs[r].ns == k || Failed(v.up, w.up, k))
           && w.waiting == v.waiting && NoneUp(v.up, w.up)
       case TimeOut(r, last) =>
         if !Flying(v.reqs, r) then w == v
         else
           && w.reqs.Keys == v.reqs.Keys - (if last then {r} else {}) && StillFlying(v.reqs, w.reqs, if last then {r} else {})
           && NoneUp(v.up, w.up) && Stay(v.reqs, w.reqs, v.up, w.up, {r})
           && (last ==> v.reqs[r].ns < |w.up| && !w.up[v.reqs[r].ns] && Pumped(v, w) && LeftOf(v.waiting, w.waiting))
           && (last && |w.waiting| == |v.waiting| ==> w.up == v.up[v.reqs[r].ns := false])
           && (!last ==> w.waiting == v.waiting && (true in v.up ==> IsUp(v.up, w.reqs[r].ns)) && (v.reqs[r].sent ==> w.reqs[r].sent))
       case BadReply(r) =>
         if !Flying(v.reqs, r) then w == v
         else
           && v.reqs.Keys - {r} <= w.reqs.Keys <= v.reqs.Keys && StillFlying(v.reqs, w.reqs, {r})
           && NoneUp(v.up, w.up) && v.reqs[r].ns < |w.up| && !w.up[v.reqs[r].ns] && Stay(v.reqs, w.reqs, v.up, w.up, {r})
           && (v.reqs[r].sent && true in w.up ==> r in w.reqs && IsUp(w.up, w.reqs[r].ns) && !w.reqs[r].sent)
           && LeftOf(v.waiting, w.waiting) && if r in w.reqs then w.waiting == v.waiting else Pumped(v, w)
       case GoodReply(r, probe) =>
         if !Flying(v.reqs, r) || probe == Some(r) then w == v
         else
           && v.reqs[r].ns < |v.up| && w.reqs.Keys == v.reqs.Keys - Ends(v, r, probe)
           && StillFlying(v.reqs, w.reqs, Ends(v, r, probe)) && NoneUp(v.up[v.reqs[r].ns := true], w.up)
           && Stay(v.reqs, w.reqs, v.up[v.reqs[r].ns := true], w.up, {})
           && WellPlaced(v.reqs, w.reqs, v.up[v.reqs[r].ns := true], GoodBut(w.up, v.reqs[r].ns)) && NoneCouldFly(w)
           && LeftOf(QueueAfter(v, v.reqs[r].ns, probe), w.waiting)
           && (|w.waiting| == |QueueAfter(v, v.reqs[r].ns, probe)| ==> w.up == v.up[v.reqs[r].ns := true])
       case CancelOne(r) =>
         if r !in v.reqs then w == v
         else
           && w.reqs.Keys == v.reqs.Keys - {r} && StillFlying(v.reqs, w.reqs, {r}) && NoneUp(v.up, w.up)
           && Stay(v.reqs, w.reqs, v.up, w.up, {}) && Pumped(v, w)
           && LeftOf(Dropped(v.reqs, v.waiting, r), w.waiting)
           && (|w.waiting| == |Dropped(v.reqs, v.waiting, r)| ==> w.up == v.up && w.reqs == v.reqs - {r})
       case GoDown(k) =>
         if k >= |v.up| then w == v
         else
           && w.up == v.up[k := false] && Kept(v.reqs, w.reqs) && w.waiting == v.waiting
           && (if v.up[k] && true in w.up then forall r :: r in v.reqs ==> r in w.reqs && Rehomed(v.reqs[r], w.reqs[r], k, w.up)
               else w.reqs == v.reqs)
       case ComeUp(k, probe) =>
         if k >= |v.up| then w == v
         else
           && k < |w.up| && w.up[k] && NoneUp(v.up[k := true], w.up)
           && w.reqs.Keys == v.reqs.Keys - ProbeOf(v, k, probe) && StillFlying(v.reqs, w.reqs, ProbeOf(v, k, probe))
           && Stay(v.reqs, w.reqs, v.up, w.up, {}) && WellPlaced(v.reqs, w.reqs, v.up[k := true], GoodBut(w.up, k))
           && LeftOf(QueueAfter(v, k, probe), w.waiting)
           && (|w.waiting| == |QueueAfter(v, k, probe)| ==> w.up == v.up[k := true])
       case Resize(max) =>
         if max > MAX_INFLIGHT then w == v else w == v.(max := if max < 1 then 1 else max)
  }

  /** No request waits while there is room and a server. */
  ghost predicate NoneCouldFly(w: View) {
    |InFlight(w.reqs)| >= w.max || w.waiting == [] || w.up == []
  }

  /** Requests that waited have gone in flight while there was room and a server, to servers
      that were up. */
  ghost predicate Pumped(v: View, w: View) {
    WellPlaced(v.reqs, w.reqs, v.up, true in w.up) && NoneCouldFly(w)
  }

  /** The probe that ends when a server comes up. */
  ghost function ProbeOf(v: View, k: nat, probe: Option<int>): set<int>
    requires k < |v.up|
  {
    if !v.up[k] && probe.Some? then {probe.value} else {}
  }

  /** The waiting queue without that probe. */
  ghost function QueueAfter(v: View, k: nat, probe: Option<int>): seq<int>
    requires k < |v.up|
  {
    if !v.up[k] && probe.Some? then Dropped(v.reqs, v.waiting, probe.value) else v.waiting
  }

  /** The requests that a good reply ends. */
  ghost function Ends(v: View, r: int, probe: Option<int>): set<int>
    requires Flying(v.reqs, r) && v.reqs[r].ns < |v.up|
  {
    {r} + ProbeOf(v, v.reqs[r].ns, probe)
  }

  method Do(b: Base, a: Action)
    requires b.Valid()
    modifies b, b.ring
    ensures b.Valid() && Happened(old(ViewOf(b)), a, ViewOf(b))
  {
    hide Books, StillFlying, Kept, NoneUp, CountUp, Rehomed, LeftOf, Dropped, Stay, WellPlaced, GoodBut;
    Counters(b);
    match a {
      case SubmitOne(r) => if r !in b.reqs { b.Submit(r); Counters(b); }
      case ProbeServer(r, k) => if r !in b.reqs && k < |b.load| && b.inflight < NO_ID { b.Probe(r, k); }
      case GoDown(_) => DoServer(b, a);
      case ComeUp(_, _) => DoServer(b, a);
      case Resize(_) => DoServer(b, a);
      case _ => DoRequest(b, a);
    }
  }

  /** The actions that end or move a request. */
  method DoRequest(b: Base, a: Action)
    requires b.Valid() && (a.TimeOut? || a.BadReply? || a.GoodReply? || a.CancelOne?)
    modifies b, b.ring
    ensures b.Valid() && Happened(old(ViewOf(b)), a, ViewOf(b))
  {
    hide Books, StillFlying, Kept, NoneUp, CountUp, Rehomed, LeftOf, Dropped, Stay, WellPlaced, GoodBut;
    Counters(b);
    match a {
      case TimeOut(r, last) => if Flying(b.reqs, r) { b.TimedOut(r, last); Counters(b); }
      case BadReply(r) => if Flying(b.reqs, r) { DoBadReply(b, r); }
      case GoodReply(r, probe) => if Flying(b.reqs, r) && probe != Some(r) { b.Replied(r, probe); Counters(b); }
      case CancelOne(r) => if r in b.reqs { b.Finish(r); Counters(b); }
    }
  }

  /** The actions that are about servers or the size. */
  method DoServer(b: Base, a: Action)
    requires b.Valid() && (a.GoDown? || a.ComeUp? || a.Resize?)
    modifies b, b.ring
    ensures b.Valid() && Happened(old(ViewOf(b)), a, ViewOf(b))
  {
    hide Books, StillFlying, Kept, NoneUp, CountUp, Rehomed, LeftOf, Dropped, Stay, WellPlaced, GoodBut;
    match a {
      case GoDown(k) =>
        if k < |b.load| {
          b.ServerFailed(k);
          Counters(b);
        }
      case ComeUp(k, probe) => if k < |b.load| { b.ServerUp(k, probe); }
      case Resize(max) => if max <= MAX_INFLIGHT { b.SetMax(max); }
    }
  }

  method DoBadReply(b: Base, r: int)
    requires b.Valid() && Flying(b.reqs, r)
    modifies b, b.ring
    ensures b.Valid() && Happened(old(ViewOf(b)), BadReply(r), ViewOf(b))
  {
    hide Books, CountUp, Stay, WellPlaced, StillFlying, Kept, Dropped;
    ghost var v := ViewOf(b);
    Counters(b);
    var pointless := b.Reissue(r);
    ghost var u := ViewOf(b);
    Counters(b);
    KeptFlying(v.reqs, u.reqs, r);
    if pointless {
      KeptPlaced(v.reqs, u.reqs, v.up, CountUp(u.up, |u.up|) > 0);
      b.Finish(r);
      Counters(b);
      GoodBefore(u.up, b.ring.up);
      FlyingOn(v.reqs, u.reqs, b.reqs, r);
      StayBut(u.reqs, b.reqs, u.up, b.ring.up, {r});
      StayStay(v.reqs, u.reqs, b.reqs, v.up, u.up, b.ring.up, {r});
      WellPlacedThen(v.reqs, u.reqs, b.reqs, v.up, u.up, b.ring.up, CountUp(u.up, |u.up|) > 0, true in b.ring.up);
    } else {
      assert LeftOf(b.waiting, b.waiting);
    }
  }

  lemma KeptFlying(a: Reqs, b: Reqs, r: int)
    requires Kept(a, b) && Flying(a, r)
    ensures StillFlying(a, b, {r}) && a.Keys == b.Keys && Flying(b, r) && Dropped(b, [], r) == []
    ensures forall q :: Dropped(b, q, r) == q
  {
  }

  lemma FlyingOn(a: Reqs, b: Reqs, c: Reqs, r: int)
    requires Kept(a, b) && StillFlying(b, c, {r}) && c.Keys == b.Keys - {r}
    ensures StillFlying(a, c, {r})
    ensures forall s :: s in a && s in c && a[s].ns >= 0 ==> s in b && b[s].ns >= 0
    ensures forall s :: s in a && s in c ==> s in b
  {
  }

  lemma Counters(b: Base)
    requires b.Valid()
    ensures b.inflight == |InFlight(b.reqs)| && b.waits == |b.waiting|
    ensures forall r :: r in b.reqs ==> b.reqs[r].ns < |b.ring.up|
    ensures b.ring.good > 0 <==> true in b.ring.up
    ensures b.ring.good == CountUp(b.ring.up, |b.ring.up|)
  {
    SomeoneUp(b.ring.up, |b.ring.up|);
    assert b.ring.up[..|b.ring.up|] == b.ring.up;
  }

  lemma {:induction false} SomeoneUp(up: seq<bool>, i: nat)
    requires i <= |up|
    ensures CountUp(up, i) > 0 <==> true in up[..i]
  {
    if i > 0 {
      SomeoneUp(up, i - 1);
      assert up[..i] == up[..i - 1] + [up[i - 1]];
    }
  }

  /** What every state shows: no two requests in flight share an id, each has a server,
      and those that wait are the ones in the queue. */
  ghost predicate GoodView(v: View) {
    IdsOk(v.reqs) && WaitingOk(v.reqs, v.waiting) && 1 <= v.max <= MAX_INFLIGHT && forall r :: r in v.reqs ==> v.reqs[r].ns < |v.up|
  }

  /** Good states that follow from one another by the actions. */
  ghost predicate Follows(trace: seq<View>, actions: seq<Action>) {
    && |trace| == |actions| + 1
    && (forall i :: 0 <= i < |actions| ==> Happened(trace[i], actions[i], trace[i + 1]))
    && (forall i :: 0 <= i < |trace| ==> GoodView(trace[i]))
  }

  lemma FollowsOne(v: View)
    requires GoodView(v)
    ensures Follows([v], [])
  {
  }

  lemma FollowsNext(trace: seq<View>, actions: seq<Action>, a: Action, v: View)
    requires Follows(trace, actions) && Happened(trace[|actions|], a, v) && GoodView(v)
    ensures Follows(trace + [v], actions + [a])
  {
    hide Happened, GoodView;
  }

  ghost function StartView(servers: nat): View {
    View(map[], [], seq(servers, i => true), 64)
  }

  /** A run goes through states that follow from one another by its actions. In each, ids
      are unique and the waiting queue is right; in the last, the counters are the sizes
      of the sets they count, each request in flight is in the bucket of its id, and a
      lookup by id finds it. */
  method Run(servers: nat, actions: seq<Action>) returns (b: Base, ghost trace: seq<View>)
    ensures fresh(b) && fresh(b.ring) && b.Valid()
    ensures Follows(trace, actions) && trace[0] == StartView(servers) && trace[|actions|] == ViewOf(b)
    ensures Books(b.reqs, b.buckets, b.waiting, b.load, b.inflight, b.waits) && b.ring.good == CountUp(b.ring.up, |b.ring.up|)
  {
    hide Books, Happened, GoodView, Follows;
    b := new Base(servers);
    ShowsGood(b);
    trace := [ViewOf(b)];
    FollowsOne(ViewOf(b));
    assert actions[..0] == [];
    for n := 0 to |actions|
      invariant fresh(b) && fresh(b.ring) && b.Valid()
      invariant Follows(trace, actions[..n]) && |trace| == n + 1 && trace[n] == ViewOf(b) && trace[0] == StartView(servers)
    {
      Do(b, actions[n]);
      ShowsGood(b);
      FollowsNext(trace, actions[..n], actions[n], ViewOf(b));
      assert actions[..n + 1] == actions[..n] + [actions[n]];
      trace := trace + [ViewOf(b)];
    }
    assert actions[..|actions|] == actions;
  }

  lemma ShowsGood(b: Base)
    requires b.Valid()
    ensures GoodView(ViewOf(b))
  {
  }
}
