/** The circular list of nameservers of libevent/evdns.c, and how it shares out
    requests among those that are up. */
module NameserverRing {
  import opened Options
  import opened IdLists
  import opened Cycles

  function Next(i: nat, n: nat): nat
    requires i < n
  {
    if i + 1 == n then 0 else i + 1
  }

  lemma AtNext(p: nat, n: nat)
    requires n > 0
    ensures At(p + 1, n) == Next(At(p, n), n)
  {
    var q, i := p / n, p % n;
    if i + 1 == n {
      Residue(p + 1, q + 1, 0, n);
    } else {
      Residue(p + 1, q, i + 1, n);
    }
  }

  /** The servers that are up among those passed on the way from step `p` to `q`. */
  function Ups(up: seq<bool>, p: nat, q: nat): seq<int>
    requires up != [] && p <= q
    decreases q - p
  {
    if p == q then []
    else (if up[At(p, |up|)] then [At(p, |up|)] else []) + Ups(up, p + 1, q)
  }

  /** The first server that is up from a place on, going round. */
  ghost predicate FirstUpFrom(up: seq<bool>, p: nat, k: int) {
    up != [] && exists q :: p < q <= p + |up| && Ups(up, p, q) == [k]
  }

  /** How many of the first `i` are up. */
  function CountUp(up: seq<bool>, i: nat): nat
    requires i <= |up|
  {
    if i == 0 then 0 else CountUp(up, i - 1) + One(up[i - 1])
  }

  lemma {:induction false} UpsSplit(up: seq<bool>, p: nat, m: nat, q: nat)
    requires up != [] && p <= m <= q
    ensures Ups(up, p, q) == Ups(up, p, m) + Ups(up, m, q)
    decreases m - p
  {
    if p < m {
      UpsSplit(up, p + 1, m, q);
    }
  }

  /** One more step at the end. */
  lemma UpsMore(up: seq<bool>, p: nat, q: nat)
    requires up != [] && p <= q
    ensures Ups(up, p, q + 1) == Ups(up, p, q) + if up[At(q, |up|)] then [At(q, |up|)] else []
  {
    UpsSplit(up, p, q, q + 1);
  }

  lemma {:induction false} UpsFromStart(up: seq<bool>, i: nat)
    requires up != [] && i <= |up|
    ensures |Ups(up, 0, i)| == CountUp(up, i)
  {
    if i > 0 {
      UpsFromStart(up, i - 1);
      UpsMore(up, 0, i - 1);
      Residue(i - 1, 0, i - 1, |up|);
    }
  }

  /** A full turn passes every server that is up, wherever it starts. */
  lemma {:induction false} FullTurn(up: seq<bool>, p: nat)
    requires up != []
    ensures |Ups(up, p, p + |up|)| == CountUp(up, |up|)
  {
    hide Ups, At;
    if p == 0 {
      UpsFromStart(up, |up|);
    } else {
      FullTurn(up, p - 1);
      UpsFirst(up, p - 1, p - 1 + |up|);
      UpsMore(up, p, p - 1 + |up|);
      AddTurn(p - 1, |up|);
    }
  }

  lemma UpsFirst(up: seq<bool>, p: nat, q: nat)
    requires up != [] && p < q
    ensures |Ups(up, p, q)| == One(up[At(p, |up|)]) + |Ups(up, p + 1, q)|
  {
  }

  lemma {:induction false} UpsHas(up: seq<bool>, p: nat, q: nat, s: nat)
    requires up != [] && p <= s < q && up[At(s, |up|)]
    ensures At(s, |up|) in Ups(up, p, q)
  {
    UpsSplit(up, p, s, q);
    assert Ups(up, s, q)[0] == At(s, |up|);
  }

  lemma {:induction false} UpsOnly(up: seq<bool>, p: nat, q: nat, x: int) returns (s: nat)
    requires up != [] && p <= q && x in Ups(up, p, q)
    ensures p <= s < q && At(s, |up|) == x && up[At(s, |up|)]
    decreases q - p
  {
    if up[At(p, |up|)] && x == At(p, |up|) {
      s := p;
    } else {
      s := UpsOnly(up, p + 1, q, x);
    }
  }

  /** Within a turn no server is passed twice. */
  lemma {:induction false} UpsDistinct(up: seq<bool>, p: nat, q: nat)
    requires up != [] && p <= q <= p + |up|
    ensures Distinct(Ups(up, p, q))
    decreases q - p
  {
    if p < q {
      UpsDistinct(up, p + 1, q);
      var x := At(p, |up|);
      if x in Ups(up, p + 1, q) {
        var s := UpsOnly(up, p + 1, q, x);
        Apart(p, s, |up|);
      }
    }
  }

  lemma {:induction false} SomeUp(up: seq<bool>, i: nat) returns (k: nat)
    requires i <= |up| && CountUp(up, i) > 0
    ensures k < |up| && up[k]
  {
    if up[i - 1] {
      k := i - 1;
    } else {
      k := SomeUp(up, i - 1);
    }
  }

  /** A walk that passes as many servers as are up, and ends as soon as it has, takes
      at most one turn, and passes nothing more in the rest of it. */
  lemma RoundIsTurn(up: seq<bool>, p: nat, q: nat)
    requires up != [] && p < q && up[At(q - 1, |up|)] && |Ups(up, p, q)| == CountUp(up, |up|)
    ensures Ups(up, p, q) == Ups(up, p, p + |up|)
  {
    hide Ups;
    FullTurn(up, p);
    if q <= p + |up| {
      UpsSplit(up, p, q, p + |up|);
    } else {
      UpsSplit(up, p, p + |up|, q);
      UpsMore(up, p + |up|, q - 1);
    }
  }

  lemma TurnHasAll(up: seq<bool>, p: nat, i: int)
    requires up != []
    ensures i in Ups(up, p, p + |up|) <==> 0 <= i < |up| && up[i]
  {
    if 0 <= i < |up| && up[i] {
      var s := Reached(p, |up|, i);
      UpsHas(up, p, p + |up|, s);
    }
    if i in Ups(up, p, p + |up|) {
      var s := UpsOnly(up, p, p + |up|, i);
    }
  }

  lemma {:induction false} StateCounted(up: seq<bool>, i: nat, k: nat, state: bool)
    requires i <= |up| && k < |up| && up[k] != state
    ensures CountUp(up[k := state], i) == CountUp(up, i) + (if k >= i then 0 else if state then 1 else -1)
  {
    if i > 0 {
      StateCounted(up, i - 1, k, state);
    }
  }

  class Ring {
    var up: seq<bool>
    var head: nat
    var good: nat

    /** global_good_nameservers is the number of servers that are up. */
    ghost predicate Valid() reads this {
      && (up != [] ==> head < |up|)
      && good == CountUp(up, |up|)
    }

    constructor (up: seq<bool>, head: nat)
      requires up != [] ==> head < |up|
      ensures Valid() && this.up == up && this.head == head
    {
      this.up, this.head, this.good := up, head, CountUp(up, |up|);
    }

    /** A server goes down (`state` false) or comes back: the change of state in
        nameserver_failed and nameserver_up. */
    method SetState(k: nat, state: bool)
      requires Valid() && k < |up| && up[k] != state
      modifies this`up, this`good
      ensures Valid() && up == old(up)[k := state]
      ensures good == old(good) + if state then 1 else -1
    {
      StateCounted(up, |up|, k, state);
      // the source asserts that the counter stays at least zero
      assert !state ==> good > 0;
      good := if state then good + 1 else good - 1;
      up := up[k := state];
    }

    /** nameserver_pick. With a server up it takes the next one that is up; with none
        it moves on by one; with no server it has none to give. */
    method Pick(ghost p: nat) returns (picked: Option<nat>, ghost q: nat)
      requires Valid() && (up != [] ==> head == At(p, |up|))
      modifies this`head
      ensures Valid()
      ensures picked.None? <==> up == []
      ensures good == 0 && up != [] ==> picked == Some(head) && head == Next(old(head), |up|)
      ensures good > 0 ==> up != [] && p < q <= p + |up| && Ups(up, p, q) == [picked.value] && head == At(q, |up|)
                           && up[At(q - 1, |up|)] && 0 <= picked.value < |up| && head == Next(picked.value, |up|)
    {
      q := p;
      if up == [] {
        return None, q;
      }
      if good == 0 {
        head := Next(head, |up|);
        return Some(head), q;
      }
      var start := head;
      ghost var k := SomeUp(up, |up|);
      ghost var s := Reached(p, |up|, k);
      while true
        invariant p <= q <= s && head == At(q, |up|) && Ups(up, p, q) == []
        decreases s - q
      {
        AtNext(q, |up|);
        UpsMore(up, p, q);
        q := q + 1;
        if up[head] {
          picked := Some(head);
          head := Next(head, |up|);
          return;
        }
        head := Next(head, |up|);
        // back at the start the source asserts that no server is up: it is never back
        Apart(p, q, |up|);
        assert head != start;
      }
    }
  }

  /** With the states of the servers fixed and `k` of them up, any `k` picks in a row
      give each of these once. */
  method PickRound(ring: Ring) returns (picks: seq<int>)
    requires ring.Valid() && ring.good > 0
    modifies ring`head
    ensures ring.Valid() && |picks| == ring.good
    ensures Distinct(picks)
    ensures forall i :: i in picks <==> 0 <= i < |ring.up| && ring.up[i]
  {
    ghost var p := ring.head;
    ghost var q := p;
    var up := ring.up;
    picks := [];
    Residue(p, 0, p, |up|);
    FullTurn(up, p);
    for i := 0 to ring.good
      invariant ring.Valid() && ring.up == up
      invariant p <= q && ring.head == At(q, |up|)
      invariant picks == Ups(up, p, q) && |picks| == i && (i > 0 ==> up[At(q - 1, |up|)] && q > p)
    {
      ghost var q1;
      var x;
      x, q1 := ring.Pick(q);
      UpsSplit(up, p, q, q1);
      picks, q := picks + [x.value], q1;
    }
    RoundIsTurn(up, p, q);
    UpsDistinct(up, p, p + |up|);
    forall i ensures i in picks <==> 0 <= i < |up| && up[i] {
      TurnHasAll(up, p, i);
    }
  }
}
