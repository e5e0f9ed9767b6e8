/** The queues of outstanding requests in libevent/evdns.c: requests in flight, in
    buckets by transaction id, and requests that wait for their turn. */
module DnsQueues {
  import opened IdLists

  /** The id that no request in flight may have. */
  const NO_ID: nat := 0xffff

  /** A request: its transaction id, the server it is assigned to or -1 while it
      waits, and whether it has been sent. */
  datatype Req = Req(id: nat, ns: int, sent: bool)

  type Reqs = map<int, Req>

  function InFlight(reqs: Reqs): set<int> {
    set r | r in reqs && reqs[r].ns >= 0
  }

  function OnServer(reqs: Reqs, k: int): set<int> {
    set r | r in reqs && reqs[r].ns == k
  }

  /** A bucket holds exactly the requests in flight whose id falls to it. */
  ghost predicate Bucket(reqs: Reqs, q: seq<int>, i: nat, n: nat)
    requires n > 0
  {
    && Distinct(q)
    && (forall r :: r in q ==> r in reqs && reqs[r].ns >= 0 && reqs[r].id % n == i)
    && (forall r :: r in reqs && reqs[r].ns >= 0 && reqs[r].id % n == i ==> r in q)
  }

  ghost predicate Placed(reqs: Reqs, buckets: seq<seq<int>>) {
    && buckets != []
    && forall i :: 0 <= i < |buckets| ==> Bucket(reqs, buckets[i], i, |buckets|)
  }

  ghost predicate WaitingOk(reqs: Reqs, waiting: seq<int>) {
    && Distinct(waiting)
    && (forall r :: r in waiting ==> r in reqs && reqs[r].ns < 0)
    && (forall r :: r in reqs && reqs[r].ns < 0 ==> r in waiting)
  }

  /** No two requests in flight share an id. */
  ghost predicate IdsOk(reqs: Reqs) {
    && (forall r :: r in reqs && reqs[r].ns >= 0 ==> reqs[r].id < NO_ID)
    && (forall r, s :: r in reqs && s in reqs && r != s && reqs[r].ns >= 0 && reqs[s].ns >= 0 ==> reqs[r].id != reqs[s].id)
  }

  /** Each server's counter is the number of requests assigned to it. */
  ghost predicate LoadsOk(reqs: Reqs, load: seq<int>) {
    && (forall k :: 0 <= k < |load| ==> load[k] == |OnServer(reqs, k)|)
    && (forall r :: r in reqs ==> reqs[r].ns < |load|)
  }

  ghost predicate Books(reqs: Reqs, buckets: seq<seq<int>>, waiting: seq<int>, load: seq<int>, inflight: int, waits: int) {
    && Placed(reqs, buckets)
    && WaitingOk(reqs, waiting)
    && IdsOk(reqs)
    && LoadsOk(reqs, load)
    && inflight == |InFlight(reqs)|
    && waits == |waiting|
  }

  /** An id that no request in flight has. */
  predicate Free(reqs: Reqs, id: nat) {
    id < NO_ID && forall r :: r in reqs && reqs[r].ns >= 0 ==> reqs[r].id != id
  }

  // ----- a request comes or goes -----

  lemma PlacedIn(reqs: Reqs, buckets: seq<seq<int>>, r: int, q: Req)
    requires Placed(reqs, buckets) && r !in reqs && q.ns >= 0
    ensures var i := q.id % |buckets|; Placed(reqs[r := q], buckets[i := buckets[i] + [r]])
  {
    var j := q.id % |buckets|;
    var after := buckets[j := buckets[j] + [r]];
    forall i | 0 <= i < |after| ensures Bucket(reqs[r := q], after[i], i, |after|) {
      assert Bucket(reqs, buckets[i], i, |buckets|);
      if i == j {
        InsertedMembers(buckets[i], |buckets[i]|, r);
        assert InsertedAt(buckets[i], |buckets[i]|, r) == buckets[i] + [r];
      }
    }
  }

  lemma PlacedOut(reqs: Reqs, buckets: seq<seq<int>>, r: int)
    requires Placed(reqs, buckets) && r in reqs && reqs[r].ns >= 0
    ensures var i := reqs[r].id % |buckets|; Placed(reqs - {r}, buckets[i := Removed(buckets[i], r)])
  {
    var j := reqs[r].id % |buckets|;
    var after := buckets[j := Removed(buckets[j], r)];
    forall i | 0 <= i < |after| ensures Bucket(reqs - {r}, after[i], i, |after|) {
      assert Bucket(reqs, buckets[i], i, |buckets|);
      if i == j {
        RemovedMembers(buckets[i], r);
      }
    }
  }

  /** The buckets do not see requests that wait, nor who serves a request. */
  lemma PlacedSame(reqs: Reqs, buckets: seq<seq<int>>, after: Reqs)
    requires Placed(reqs, buckets)
    requires forall r :: (r in after && after[r].ns >= 0) <==> (r in reqs && reqs[r].ns >= 0)
    requires forall r :: r in after && r in reqs && reqs[r].ns >= 0 ==> after[r].id == reqs[r].id
    ensures Placed(after, buckets)
  {
    forall i | 0 <= i < |buckets| ensures Bucket(after, buckets[i], i, |buckets|) {
      assert Bucket(reqs, buckets[i], i, |buckets|);
    }
  }

  lemma LoadsIn(reqs: Reqs, load: seq<int>, r: int, q: Req)
    requires LoadsOk(reqs, load) && r !in reqs && 0 <= q.ns < |load|
    ensures LoadsOk(reqs[r := q], load[q.ns := load[q.ns] + 1])
    ensures |InFlight(reqs[r := q])| == |InFlight(reqs)| + 1
  {
    hide OnServer, InFlight;
    var m, after := reqs[r := q], load[q.ns := load[q.ns] + 1];
    forall k | 0 <= k < |after| ensures after[k] == |OnServer(m, k)| {
      OnServerIn(reqs, r, q, k);
    }
    InFlightIn(reqs, r, q);
  }

  lemma InFlightIn(reqs: Reqs, r: int, q: Req)
    requires r !in reqs && q.ns >= 0
    ensures |InFlight(reqs[r := q])| == |InFlight(reqs)| + 1
  {
    assert InFlight(reqs[r := q]) == InFlight(reqs) + {r};
  }

  lemma OnServerIn(reqs: Reqs, r: int, q: Req, k: int)
    requires r !in reqs
    ensures |OnServer(reqs[r := q], k)| == |OnServer(reqs, k)| + One(k == q.ns)
  {
    assert OnServer(reqs[r := q], k) == if k == q.ns then OnServer(reqs, k) + {r} else OnServer(reqs, k);
  }

  lemma LoadsOut(reqs: Reqs, load: seq<int>, r: int)
    requires LoadsOk(reqs, load) && r in reqs && reqs[r].ns >= 0
    ensures load[reqs[r].ns] > 0
    ensures LoadsOk(reqs - {r}, load[reqs[r].ns := load[reqs[r].ns] - 1])
    ensures |InFlight(reqs - {r})| == |InFlight(reqs)| - 1
  {
    var k0 := reqs[r].ns;
    var m, after := reqs - {r}, load[k0 := load[k0] - 1];
    assert r in OnServer(reqs, k0);
    forall k | 0 <= k < |after| ensures after[k] == |OnServer(m, k)| {
      assert OnServer(m, k) == if k == k0 then OnServer(reqs, k) - {r} else OnServer(reqs, k);
    }
    assert InFlight(m) == InFlight(reqs) - {r};
  }

  /** The counters do not see requests that wait. */
  lemma LoadsWaiting(reqs: Reqs, load: seq<int>, r: int, after: Reqs)
    requires LoadsOk(reqs, load) && (r in reqs ==> reqs[r].ns < 0)
    requires after == reqs - {r} || (exists q: Req :: q.ns < 0 && after == reqs[r := q])
    ensures LoadsOk(after, load) && InFlight(after) == InFlight(reqs)
  {
    forall k | 0 <= k < |load| ensures load[k] == |OnServer(after, k)| {
      assert OnServer(after, k) == OnServer(reqs, k);
    }
  }

  /** A request is put in flight: evdns_request_insert and the counters. */
  lemma EnterBooks(reqs: Reqs, buckets: seq<seq<int>>, waiting: seq<int>, load: seq<int>, inflight: int, waits: int,
                   r: int, q: Req)
    requires Books(reqs, buckets, waiting, load, inflight, waits)
    requires r !in reqs && 0 <= q.ns < |load| && Free(reqs, q.id)
    ensures var i := q.id % |buckets|;
            Books(reqs[r := q], buckets[i := buckets[i] + [r]], waiting, load[q.ns := load[q.ns] + 1], inflight + 1, waits)
  {
    hide Placed, LoadsOk;
    PlacedIn(reqs, buckets, r, q);
    LoadsIn(reqs, load, r, q);
  }

  /** A request in flight is taken out. */
  lemma LeaveBooks(reqs: Reqs, buckets: seq<seq<int>>, waiting: seq<int>, load: seq<int>, inflight: int, waits: int, r: int)
    requires Books(reqs, buckets, waiting, load, inflight, waits) && r in reqs && reqs[r].ns >= 0
    ensures reqs[r].ns < |load| && load[reqs[r].ns] > 0
    ensures var i, k := reqs[r].id % |buckets|, reqs[r].ns;
            Books(reqs - {r}, buckets[i := Removed(buckets[i], r)], waiting, load[k := load[k] - 1], inflight - 1, waits)
  {
    hide Placed, Removed;
    PlacedOut(reqs, buckets, r);
    LoadsOut(reqs, load, r);
  }

  /** A request is put on the waiting queue. */
  lemma WaitBooks(reqs: Reqs, buckets: seq<seq<int>>, waiting: seq<int>, load: seq<int>, inflight: int, waits: int,
                  r: int, q: Req)
    requires Books(reqs, buckets, waiting, load, inflight, waits) && r !in reqs && q.ns < 0
    ensures Books(reqs[r := q], buckets, waiting + [r], load, inflight, waits + 1)
  {
    hide Placed, LoadsOk;
    PlacedSame(reqs, buckets, reqs[r := q]);
    LoadsWaiting(reqs, load, r, reqs[r := q]);
    InsertedMembers(waiting, |waiting|, r);
    assert InsertedAt(waiting, |waiting|, r) == waiting + [r];
  }

  /** A waiting request is taken out. */
  lemma UnwaitBooks(reqs: Reqs, buckets: seq<seq<int>>, waiting: seq<int>, load: seq<int>, inflight: int, waits: int, r: int)
    requires Books(reqs, buckets, waiting, load, inflight, waits) && r in reqs && reqs[r].ns < 0
    ensures Books(reqs - {r}, buckets, Removed(waiting, r), load, inflight, waits - 1)
  {
    hide Placed, LoadsOk, Removed;
    PlacedSame(reqs, buckets, reqs - {r});
    LoadsWaiting(reqs, load, r, reqs - {r});
    RemovedMembers(waiting, r);
  }

  /** request_swap_ns: a request goes from one server to another. */
  lemma SwapBooks(reqs: Reqs, buckets: seq<seq<int>>, waiting: seq<int>, load: seq<int>, inflight: int, waits: int,
                  r: int, k: nat)
    requires Books(reqs, buckets, waiting, load, inflight, waits) && r in reqs && reqs[r].ns >= 0
    requires k < |load| && k != reqs[r].ns
    ensures reqs[r].ns < |load| && load[reqs[r].ns] > 0
    ensures Books(reqs[r := reqs[r].(ns := k)], buckets, waiting,
                  load[reqs[r].ns := load[reqs[r].ns] - 1][k := load[k] + 1], inflight, waits)
  {
    hide Placed;
    var m := reqs[r := reqs[r].(ns := k)];
    PlacedSame(reqs, buckets, m);
    LoadsOut(reqs, load, r);
    LoadsIn(reqs - {r}, load[reqs[r].ns := load[reqs[r].ns] - 1], r, reqs[r].(ns := k));
    assert (reqs - {r})[r := reqs[r].(ns := k)] == m;
  }

  /** A request has been sent, or is to be sent afresh. */
  lemma SentBooks(reqs: Reqs, buckets: seq<seq<int>>, waiting: seq<int>, load: seq<int>, inflight: int, waits: int, r: int, sent: bool)
    requires Books(reqs, buckets, waiting, load, inflight, waits) && r in reqs
    ensures Books(reqs[r := reqs[r].(sent := sent)], buckets, waiting, load, inflight, waits)
  {
    hide Placed;
    var m := reqs[r := reqs[r].(sent := sent)];
    PlacedSame(reqs, buckets, m);
    assert InFlight(m) == InFlight(reqs);
    forall k | 0 <= k < |load| ensures load[k] == |OnServer(m, k)| {
      assert OnServer(m, k) == OnServer(reqs, k);
    }
  }

  // ----- ids -----

  lemma {:induction false} ImageSize(s: set<int>, reqs: Reqs)
    requires s <= reqs.Keys
    ensures |set r | r in s :: reqs[r].id| <= |s|
  {
    if s != {} {
      var x := Element(s);
      ImageSize(s - {x}, reqs);
      assert (set r | r in s :: reqs[r].id) == (set r | r in s - {x} :: reqs[r].id) + {reqs[x].id};
    }
  }

  /** With fewer requests in flight than there are ids, one is free. */
  lemma SomeFree(reqs: Reqs) returns (id: nat)
    requires |InFlight(reqs)| < NO_ID
    ensures Free(reqs, id)
  {
    var used: set<int> := set r | r in InFlight(reqs) :: reqs[r].id;
    ImageSize(InFlight(reqs), reqs);
    BelowSize(NO_ID);
    var x := NotIn(Below(NO_ID), used);
    id := x;
    assert forall r :: r in reqs && reqs[r].ns >= 0 ==> r in InFlight(reqs) && reqs[r].id in used;
  }

  /** A larger set has something that a smaller one has not. */
  lemma NotIn(a: set<int>, b: set<int>) returns (x: int)
    requires |a| > |b|
    ensures x in a && x !in b
  {
    assert a == (a - b) + (a * b) && b == (b - a) + (a * b);
    assert |a - b| > 0;
    x := Element(a - b);
  }
}
