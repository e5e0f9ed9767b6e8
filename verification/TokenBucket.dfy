/** The token bucket of libevent/bufferevent_ratelim.c, with its 64-bit limits and
    its 32-bit tick counter. */
module TokenBucket {
  import opened WordSizes

  const INT_MAX: int := 0x7fff_ffff

  /** One direction of a struct ev_token_bucket_cfg. */
  datatype Cfg = Cfg(rate: nat, max: nat) {
    /** What ev_token_bucket_cfg_new accepts. */
    predicate Valid() {
      1 <= rate <= max < TWO63
    }
  }

  /** The value of 64 bits read as a signed number. */
  function Signed64(x: int): (r: int)
    ensures -TWO63 <= r < TWO63
    ensures -TWO63 <= x < TWO63 ==> r == x
  {
    (x + TWO63) % TWO64 - TWO63
  }

  /** The ticks from one reading of the counter to another, as an unsigned number. */
  function Elapsed(tick: int, last: int): nat {
    (tick - last) % TWO32
  }

  /** One limit in ev_token_bucket_update_, in the arithmetic of the machine. */
  function Refilled(limit: int, cfg: Cfg, n: nat): int
    requires n > 0
  {
    if Room(limit, cfg) / n < cfg.rate then cfg.max
    else Signed64(limit + (n * cfg.rate) % TWO64)
  }

  /** What the comment in the source calls the naive update. */
  function Naive(limit: int, cfg: Cfg, n: nat): int {
    if limit + n * cfg.rate > cfg.max then cfg.max else limit + n * cfg.rate
  }

  lemma DivLess(x: nat, n: nat, r: nat)
    requires n > 0
    ensures x / n < r <==> x < n * r
  {
    var q := x / n;
    assert x == q * n + x % n;
    if q < r {
      assert (q + 1) * n <= r * n by { Grows(q + 1, r, n); }
      assert (q + 1) * n == q * n + n;
    } else {
      Grows(r, q, n);
    }
    assert n * r == r * n;
  }

  lemma Grows(a: nat, b: nat, n: nat)
    requires a <= b
    ensures a * n <= b * n
  {
    assert b * n == a * n + (b - a) * n;
  }

  /** The update that avoids overflow is the naive one exactly if the limit is not
      above the maximum, or so many tokens come in that it is reached all the way
      round the 64-bit numbers. */
  lemma RefilledExact(limit: int, cfg: Cfg, n: nat)
    requires cfg.Valid() && -TWO63 <= limit < TWO63 && 1 <= n <= INT_MAX
    ensures Refilled(limit, cfg, n) == Naive(limit, cfg, n) <==> limit <= cfg.max || n * cfg.rate >= TWO64 - (limit - cfg.max)
  {
    hide Refilled, Filled;
    RefilledIs(limit, cfg, n);
    Grows(1, cfg.rate, n);
    FilledIs(limit, cfg.max, n * cfg.rate);
  }

  /** The room in a bucket, as an unsigned number. */
  function Room(limit: int, cfg: Cfg): nat {
    (cfg.max - limit) % TWO64
  }

  lemma RoomIs(limit: int, cfg: Cfg)
    requires cfg.Valid() && -TWO63 <= limit < TWO63
    ensures Room(limit, cfg) == if limit <= cfg.max then cfg.max - limit else TWO64 - (limit - cfg.max)
  {
    if limit > cfg.max {
      assert (cfg.max - limit) % TWO64 == (cfg.max - limit) + TWO64;
    }
  }

  lemma FilledIs(limit: int, max: nat, p: nat)
    requires max < TWO63 && -TWO63 <= limit < TWO63 && p >= 1
    ensures Filled(limit, max, p) == (if limit + p > max then max else limit + p) <==> limit <= max || p >= TWO64 - (limit - max)
  {
    var room := if limit <= max then max - limit else TWO64 - (limit - max);
    if room >= p {
      assert p % TWO64 == p;
      if limit > max {
        WrapsToMax(limit + p, max);
      }
    }
  }

  lemma WrapsToMax(v: int, max: nat)
    requires max < TWO63 && max < v <= TWO64 + max
    ensures Signed64(v) == max <==> v == TWO64 + max
  {
    if v + TWO63 >= TWO64 {
      assert (v + TWO63) % TWO64 == v + TWO63 - TWO64;
    }
  }

  /** A limit that a refund has lifted above the maximum is not brought down. */
  lemma AboveMaximumStays()
    ensures Cfg(10, 100).Valid() && Refilled(150, Cfg(10, 100), 1) == 160 && Naive(150, Cfg(10, 100), 1) == 100
  {
  }

  /** One direction of a struct ev_token_bucket: what is left, and the tick of the last
      update. */
  datatype Level = Level(limit: int, last: nat) {
    /** What the machine can hold. */
    predicate Fits() {
      -TWO63 <= limit < TWO63 && last < TWO32
    }
  }

  /** One direction in ev_token_bucket_update_. */
  function Update(l: Level, cfg: Cfg, tick: nat): Level {
    var n := Elapsed(tick, l.last);
    if n == 0 || n > INT_MAX then l else Level(Refilled(l.limit, cfg, n), tick)
  }

  /** The ticks that an update counts. */
  function Counted(tick: nat, last: nat): (n: nat)
    ensures n <= INT_MAX
  {
    if Elapsed(tick, last) > INT_MAX then 0 else Elapsed(tick, last)
  }

  /** At or below the maximum an update adds the rate times the ticks that have passed,
      up to the maximum. Above it, it does so if and only if no tick counts or the
      tokens reach the maximum round the 64-bit numbers. */
  lemma UpdateExact(l: Level, cfg: Cfg, tick: nat)
    requires cfg.Valid() && l.Fits() && tick < TWO32
    ensures var n, u := Counted(tick, l.last), Update(l, cfg, tick);
            && u.Fits() && u.last == (if n == 0 then l.last else tick)
            && (l.limit <= cfg.max ==> u.limit == Naive(l.limit, cfg, n) && l.limit <= u.limit <= cfg.max)
            && (l.limit > cfg.max ==>
                  (u.limit == (if n == 0 then l.limit else Naive(l.limit, cfg, n))
                   <==> n == 0 || n * cfg.rate >= TWO64 - (l.limit - cfg.max)))
  {
    hide Refilled;
    var n := Counted(tick, l.last);
    if n > 0 {
      RefilledExact(l.limit, cfg, n);
      RefilledFits(l.limit, cfg, n);
      Grows(0, n, cfg.rate);
    }
  }

  lemma RefilledFits(limit: int, cfg: Cfg, n: nat)
    requires cfg.Valid() && n > 0
    ensures -TWO63 <= Refilled(limit, cfg, n) < TWO63
  {
  }

  /** Above the maximum an update still leaves tokens, unless it overflows. */
  lemma UpdateAbove(l: Level, cfg: Cfg, tick: nat)
    requires cfg.Valid() && l.Fits() && tick < TWO32 && l.limit > cfg.max
    requires l.limit + Counted(tick, l.last) * cfg.rate < TWO63
    ensures Update(l, cfg, tick).limit == l.limit + Counted(tick, l.last) * cfg.rate
  {
    hide Refilled;
    var n := Counted(tick, l.last);
    if n > 0 {
      RefilledIs(l.limit, cfg, n);
      Grows(0, n, cfg.rate);
      FilledAbove(l.limit, cfg.max, n * cfg.rate);
    }
  }

  /** The update by the sum of the tokens that come in. */
  function Filled(limit: int, max: nat, p: nat): int {
    var room := if limit <= max then max - limit else TWO64 - (limit - max);
    if room < p then max else Signed64(limit + p % TWO64)
  }

  lemma RefilledIs(limit: int, cfg: Cfg, n: nat)
    requires cfg.Valid() && -TWO63 <= limit < TWO63 && n > 0
    ensures Refilled(limit, cfg, n) == Filled(limit, cfg.max, n * cfg.rate)
  {
    hide Room, Signed64;
    RoomIs(limit, cfg);
    DivLess(Room(limit, cfg), n, cfg.rate);
  }

  lemma FilledAbove(limit: int, max: nat, p: nat)
    requires max < limit && limit + p < TWO63
    ensures Filled(limit, max, p) == limit + p
  {
    assert p % TWO64 == p;
  }

  /** An update empties a bucket that has tokens: a refund has lifted the limit above the
      maximum, and the sum of the limit and the new tokens reads as zero or less. */
  predicate Overflows(l: Level, cfg: Cfg, tick: nat) {
    l.limit > cfg.max && TWO63 <= l.limit + Counted(tick, l.last) * cfg.rate <= TWO64
  }

  /** Nothing else does. */
  lemma UpdateEmpties(l: Level, cfg: Cfg, tick: nat)
    requires cfg.Valid() && l.Fits() && tick < TWO32 && l.limit > 0
    ensures Update(l, cfg, tick).limit <= 0 <==> Overflows(l, cfg, tick)
  {
    hide Refilled;
    var n := Counted(tick, l.last);
    if l.limit <= cfg.max {
      UpdateExact(l, cfg, tick);
    } else if n > 0 {
      RefilledIs(l.limit, cfg, n);
      Grows(0, n, cfg.rate);
      FilledEmpties(l.limit, cfg.max, n * cfg.rate);
    }
  }

  lemma FilledEmpties(limit: int, max: nat, p: nat)
    requires max < limit < TWO63
    ensures Filled(limit, max, p) <= 0 <==> TWO63 <= limit + p <= TWO64 || (max == 0 && limit + p > TWO64)
  {
    hide Signed64;
    if limit + p <= TWO64 + max {
      SignOf(limit + p, max);
      assert p % TWO64 == p;
    }
  }

  /** The sign of a sum that is too large for 64 bits. */
  lemma SignOf(v: int, max: nat)
    requires 0 < v <= TWO64 + max && max < TWO63
    ensures Signed64(v) <= 0 <==> TWO63 <= v <= TWO64
  {
    if v >= TWO63 {
      assert (v + TWO63) % TWO64 == v + TWO63 - TWO64;
    }
  }

  // ----- the bound on what passes -----

  /** `anchor` is when the bucket was last filled, or when a refill was refused
      because the counter seemed to have gone back. */
  ghost predicate Anchored(last: int, anchor: nat) {
    anchor % TWO32 == last || Elapsed(anchor, last) > INT_MAX
  }

  /** No refill covers more ticks than have really passed since the anchor. */
  lemma RefillHonest(last: int, anchor: nat, now: nat)
    requires 0 <= last < TWO32 && anchor <= now && Anchored(last, anchor)
    requires Elapsed(now, last) <= INT_MAX
    ensures Elapsed(now, last) <= now - anchor
  {
    var n1, n2 := Elapsed(anchor, last), Elapsed(now, last);
    var q1, q2 := (anchor - last) / TWO32, (now - last) / TWO32;
    assert anchor - last == q1 * TWO32 + n1;
    assert now - last == q2 * TWO32 + n2;
    assert now - anchor == (q2 - q1) * TWO32 + n2 - n1;
    if anchor % TWO32 == last {
      assert anchor - last == (anchor / TWO32) * TWO32;
      assert n1 == 0;
    }
  }

  /** The burst and the rate times the ticks. */
  function Budget(cfg: Cfg, a: int, b: int): int {
    cfg.max + (b - a) * cfg.rate
  }

  lemma BudgetGrows(cfg: Cfg, a: int, b: int, c: int)
    requires b <= c
    ensures Budget(cfg, a, b) <= Budget(cfg, a, c) && Budget(cfg, a, a) == cfg.max
  {
    Grows(0, c - b, cfg.rate);
    assert (c - a) * cfg.rate == (b - a) * cfg.rate + (c - b) * cfg.rate;
  }

  /** Something wants to pass at a tick of the unbounded clock; what
      ev_token_bucket_get_tick_ returns for it is its last 32 bits. */
  datatype Wish = Wish(tick: nat, bytes: nat)

  ghost predicate InOrder(wishes: seq<Wish>, start: nat) {
    && (forall i :: 0 <= i < |wishes| ==> start <= wishes[i].tick)
    && (forall i, j :: 0 <= i < j < |wishes| ==> wishes[i].tick <= wishes[j].tick)
  }

  /** What has passed, and what is left. */
  datatype Metered = Metered(passed: nat, level: Level)

  /** Something wants to pass: after an update, as much as bufferevent_get_rlim_max_ then
      allows. */
  function Pass(m: Metered, cfg: Cfg, w: Wish): Metered {
    var l := Update(m.level, cfg, w.tick % TWO32);
    var allowed := if l.limit < 0 then 0 else l.limit;
    var bytes := if w.bytes < allowed then w.bytes else allowed;
    Metered(m.passed + bytes, l.(limit := l.limit - bytes))
  }

  function PassAll(cfg: Cfg, l: Level, wishes: seq<Wish>): Metered {
    if wishes == [] then Metered(0, l) else Pass(PassAll(cfg, l, wishes[..|wishes| - 1]), cfg, wishes[|wishes| - 1])
  }

  /** What holds of a bucket between tick `a` and now; `started` if something has wanted
      to pass. */
  ghost predicate Bounded(cfg: Cfg, m: Metered, a: nat, anchor: nat, now: nat, started: bool) {
    && m.level.Fits() && m.level.limit <= cfg.max && a <= anchor <= now
    && (started ==> Anchored(m.level.last, anchor))
    && (!started || m.level.limit < 0 ==> m.passed == 0)
    && m.passed + m.level.limit <= Budget(cfg, a, anchor)
  }

  /** What passes is taken off the bucket after an update, and no tokens go to waste: all
      that is wanted passes, or none is left. */
  lemma PassTakes(m: Metered, cfg: Cfg, w: Wish)
    ensures var u, n := Update(m.level, cfg, w.tick % TWO32), Pass(m, cfg, w);
            && m.passed <= n.passed <= m.passed + w.bytes && n.passed + n.level.limit == m.passed + u.limit
            && (n.passed == m.passed + w.bytes || n.level.limit <= 0) && n.level.last == u.last
            && (u.limit >= 0 ==> n.level.limit >= 0) && (u.limit < 0 ==> n.passed == m.passed)
  {
    hide Update;
  }

  lemma PassBounded(cfg: Cfg, m: Metered, a: nat, anchor: nat, before: nat, started: bool, w: Wish) returns (anchor2: nat)
    requires cfg.Valid() && before <= w.tick && Bounded(cfg, m, a, anchor, before, started)
    ensures Bounded(cfg, Pass(m, cfg, w), a, anchor2, w.tick, true)
    ensures m.level.limit >= 0 ==> Pass(m, cfg, w).level.limit >= 0
  {
    hide Anchored, Budget, Refilled;
    var l, now := m.level, w.tick;
    var n := Elapsed(now, l.last);
    TickSame(now, l.last);
    if n == 0 || n > INT_MAX {
      anchor2 := if started then anchor else now;
      if !started {
        AnchorNow(l.last, now);
        BudgetGrows(cfg, a, anchor, now);
      }
    } else {
      anchor2 := now;
      FillBound(cfg, l.limit, n, m.passed, a, anchor, now, started);
      AnchoredHere(now);
      if started {
        RefillHonest(l.last, anchor, now);
      }
    }
  }

  lemma AnchoredHere(now: nat)
    ensures Anchored(now % TWO32, now)
  {
  }

  /** The counter shows the clock but for multiples of 2^32. */
  lemma TickSame(now: nat, last: nat)
    ensures Elapsed(now % TWO32, last) == Elapsed(now, last)
  {
    var q := now / TWO32;
    assert now - last == (now % TWO32 - last) + q * TWO32;
    AddTurns(now % TWO32 - last, q);
  }

  lemma {:induction false} AddTurns(x: int, q: nat)
    ensures (x + q * TWO32) % TWO32 == x % TWO32
  {
    if q > 0 {
      AddTurns(x, q - 1);
      assert x + q * TWO32 == (x + (q - 1) * TWO32) + TWO32;
    }
  }

  /** From tick `a` to tick `b`, from any state of the bucket, at most the burst and the
      rate times the ticks pass, however much is wanted; and a limit that is not below
      zero never gets there. The counter may wrap any number of times. */
  lemma {:induction false} PassBound(cfg: Cfg, l: Level, wishes: seq<Wish>, a: nat, b: nat)
    requires cfg.Valid() && l.Fits() && l.limit <= cfg.max
    requires InOrder(wishes, a) && a <= b && (forall i :: 0 <= i < |wishes| ==> wishes[i].tick <= b)
    ensures PassAll(cfg, l, wishes).passed <= Budget(cfg, a, b)
    ensures l.limit >= 0 ==> PassAll(cfg, l, wishes).level.limit >= 0
  {
    var anchor := PassAnchored(cfg, l, wishes, a);
    BudgetGrows(cfg, a, anchor, b);
    BudgetGrows(cfg, a, a, b);
  }

  lemma {:induction false} PassAnchored(cfg: Cfg, l: Level, wishes: seq<Wish>, a: nat) returns (anchor: nat)
    requires cfg.Valid() && l.Fits() && l.limit <= cfg.max && InOrder(wishes, a)
    ensures Bounded(cfg, PassAll(cfg, l, wishes), a, anchor, if wishes == [] then a else wishes[|wishes| - 1].tick, wishes != [])
    ensures l.limit >= 0 ==> PassAll(cfg, l, wishes).level.limit >= 0
  {
    hide Budget;
    BudgetGrows(cfg, a, a, a);
    anchor := a;
    if wishes != [] {
      var n := |wishes| - 1;
      var front := wishes[..n];
      anchor := PassAnchored(cfg, l, front, a);
      anchor := PassBounded(cfg, PassAll(cfg, l, front), a, anchor, if front == [] then a else front[n - 1].tick, front != [], wishes[n]);
    }
  }

  /** The reads of a run in turn. */
  method Meter(cfg: Cfg, l: Level, wishes: seq<Wish>) returns (m: Metered)
    ensures m == PassAll(cfg, l, wishes)
  {
    m := Metered(0, l);
    for i := 0 to |wishes|
      invariant m == PassAll(cfg, l, wishes[..i])
    {
      assert wishes[..i + 1][..i] == wishes[..i];
      m := Pass(m, cfg, wishes[i]);
    }
    assert wishes[..|wishes|] == wishes;
  }

  lemma FillBound(cfg: Cfg, limit: int, n: nat, passed: nat, a: nat, anchor: nat, now: nat, started: bool)
    requires cfg.Valid() && -TWO63 <= limit <= cfg.max && 0 < n <= INT_MAX && a <= anchor <= now
    requires passed + limit <= Budget(cfg, a, anchor) && (!started ==> passed == 0)
    ensures limit <= Refilled(limit, cfg, n) <= cfg.max
    ensures (started ==> n <= now - anchor) ==> passed + Refilled(limit, cfg, n) <= Budget(cfg, a, now)
  {
    hide Refilled;
    RefilledExact(limit, cfg, n);
    Grows(0, cfg.rate, n);
    Grows(0, now - a, cfg.rate);
    if n <= now - anchor {
      Grows(n, now - anchor, cfg.rate);
    }
    assert (now - a) * cfg.rate == (now - anchor) * cfg.rate + (anchor - a) * cfg.rate;
  }

  lemma AnchorNow(last: nat, now: nat)
    requires last < TWO32 && (Elapsed(now, last) == 0 || Elapsed(now, last) > INT_MAX)
    ensures Anchored(last, now)
  {
    if Elapsed(now, last) == 0 {
      var q := (now - last) / TWO32;
      assert now == q * TWO32 + last;
    }
  }
}
