/** How bytes that move use up the tokens of a bufferevent, and what is left of the user's
    own settings (libevent/bufferevent_ratelim.c). */
module RateLimitUse {
  import opened WordSizes
  import opened TokenBucket
  import opened RateLimit

  /** The bucket of one direction. */
  function BucketOf(s: State, d: Direction): Level {
    Level(s.sides.Get(d).limit, s.last)
  }

  /** How many bytes an action moves in a direction: what is wanted, as far as there are
      tokens after an update. */
  function MovedBy(s: State, a: Action, d: Direction): nat {
    if a.Move? && a.d == d && s.cfg.Limits? then
      var most := Update(BucketOf(s, d), CfgOf(s.cfg, d), a.tick % TWO32).limit;
      if most <= 0 then 0 else if a.wish < most then a.wish else most
    else 0
  }

  /** What an action wants of the bucket of a direction; one that only updates it wants
      nothing. */
  function WishOf(s: State, a: Action, d: Direction): seq<Wish> {
    if s.cfg.NoLimits? then []
    else if a.Move? then [Wish(a.tick, if a.d == d then a.wish else 0)]
    else if a.TimerGoesOff? && s.timer then [Wish(a.tick, 0)]
    else []
  }

  lemma UpdateSame(s: State, d: Direction, tick: nat)
    requires s.cfg.Limits?
    ensures BucketOf(Refreshed(s, tick), d) == Update(BucketOf(s, d), CfgOf(s.cfg, d), tick)
  {
    SameLast(BucketOf(s, Reading), BucketOf(s, Writing), s.cfg.read, s.cfg.write, tick);
  }

  /** A move takes exactly what it moves off its direction's bucket, after an update, and
      nothing off the other's. */
  lemma MoveTakes(s: State, d: Direction, wish: nat, tick: nat, e: Direction)
    requires Proper(s) && s.cfg.Limits?
    ensures var t, a := Next(s, Move(d, wish, tick)), Move(d, wish, tick);
            var u := Update(BucketOf(s, e), CfgOf(s.cfg, e), tick % TWO32);
            && t.sides.Get(e).limit == u.limit - MovedBy(s, a, e) && t.last == u.last && t.cfg == s.cfg
            && (d != e ==> MovedBy(s, a, e) == 0)
  {
    hide Update, Counted;
    UpdateSame(s, e, tick % TWO32);
    UpdateSame(s, d, tick % TWO32);
    RefreshedProper(s, tick % TWO32);
  }

  /** No tokens go to waste: all that is wanted moves, or no token is left. */
  lemma MoveAll(s: State, d: Direction, wish: nat, tick: nat)
    requires Proper(s) && s.cfg.Limits?
    ensures MovedBy(s, Move(d, wish, tick), d) == wish || Next(s, Move(d, wish, tick)).sides.Get(d).limit <= 0
  {
    MoveTakes(s, d, wish, tick, d);
    hide Next, Update;
  }

  /** Nothing but a configuration or a charge by the user changes a bucket in another way. */
  predicate Plain(a: Action) {
    !a.Configure? && !a.Charge?
  }

  /** One action does to a bucket what passing does. */
  lemma NextPasses(s: State, a: Action, d: Direction, m: Metered)
    requires Proper(s) && s.cfg.Limits? && Plain(a) && m.level == BucketOf(s, d)
    ensures Next(s, a).cfg == s.cfg
    ensures var w := WishOf(s, a, d);
            if w == [] then BucketOf(Next(s, a), d) == m.level && MovedBy(s, a, d) == 0
            else Pass(m, CfgOf(s.cfg, d), w[0]) == Metered(m.passed + MovedBy(s, a, d), BucketOf(Next(s, a), d))
  {
    hide Update, Counted;
    match a {
      case Move(e, wish, tick) =>
        MoveTakes(s, e, wish, tick, d);
        hide Next;
      case TimerGoesOff(tick) => UpdateSame(s, d, tick % TWO32);
      case _ =>
    }
  }

  /** The bytes that a run moves in a direction, and its wishes, from some state. */
  function MovedIn(s: State, actions: seq<Action>, d: Direction): nat {
    if actions == [] then 0
    else MovedIn(s, actions[..|actions| - 1], d) + MovedBy(From(s, actions[..|actions| - 1]), actions[|actions| - 1], d)
  }

  function WishesIn(s: State, actions: seq<Action>, d: Direction): seq<Wish> {
    if actions == [] then []
    else WishesIn(s, actions[..|actions| - 1], d) + WishOf(From(s, actions[..|actions| - 1]), actions[|actions| - 1], d)
  }

  function From(s: State, actions: seq<Action>): State {
    if actions == [] then s else Next(From(s, actions[..|actions| - 1]), actions[|actions| - 1])
  }

  /** A run moves what passes the bucket, and leaves what passing leaves. */
  lemma {:induction false} RunPasses(s: State, actions: seq<Action>, d: Direction)
    requires Proper(s) && s.cfg.Limits? && forall i :: 0 <= i < |actions| ==> Plain(actions[i])
    ensures var t := From(s, actions);
            && Proper(t) && t.cfg == s.cfg
            && PassAll(CfgOf(s.cfg, d), BucketOf(s, d), WishesIn(s, actions, d)) == Metered(MovedIn(s, actions, d), BucketOf(t, d))
  {
    hide Proper, Next, Pass, WishOf, MovedBy;
    if actions != [] {
      var n := |actions| - 1;
      var front, a := actions[..n], actions[n];
      RunPasses(s, front, d);
      var u := From(s, front);
      NextProper(u, a);
      NextPasses(u, a, d, PassAll(CfgOf(s.cfg, d), BucketOf(s, d), WishesIn(s, front, d)));
      var w := WishOf(u, a, d);
      if w == [] {
        assert WishesIn(s, front, d) + [] == WishesIn(s, front, d);
      } else {
        WishIsOne(u, a, d, 0);
        assert (WishesIn(s, front, d) + [w[0]])[..|WishesIn(s, front, d)|] == WishesIn(s, front, d);
      }
    }
  }

  lemma WishIsOne(s: State, a: Action, d: Direction, before: nat)
    ensures WishOf(s, a, d) == [] || |WishOf(s, a, d)| == 1
    ensures WishOf(s, a, d) != [] ==> WishOf(s, a, d)[0].tick == TickOf(a, before)
  {
  }

  /** The tick that an action reads, or the one before. */
  function TickOf(a: Action, before: nat): nat {
    match a
    case Move(_, _, tick) => tick
    case TimerGoesOff(tick) => tick
    case _ => before
  }

  /** The last tick read, if the clock showed `a` at first. */
  function LastTick(actions: seq<Action>, a: nat): nat {
    if actions == [] then a else TickOf(actions[|actions| - 1], LastTick(actions[..|actions| - 1], a))
  }

  /** The clock does not go back. */
  predicate Timely(actions: seq<Action>, a: nat) {
    actions != [] ==>
      && Timely(actions[..|actions| - 1], a)
      && LastTick(actions[..|actions| - 1], a) <= LastTick(actions, a)
  }

  lemma InOrderMore(ws: seq<Wish>, w: Wish, a: nat)
    requires InOrder(ws, a) && a <= w.tick && forall i :: 0 <= i < |ws| ==> ws[i].tick <= w.tick
    ensures InOrder(ws + [w], a)
  {
  }

  lemma {:induction false} WishesInOrder(s: State, actions: seq<Action>, d: Direction, a: nat)
    requires Timely(actions, a)
    ensures a <= LastTick(actions, a) && InOrder(WishesIn(s, actions, d), a)
    ensures forall i :: 0 <= i < |WishesIn(s, actions, d)| ==> WishesIn(s, actions, d)[i].tick <= LastTick(actions, a)
  {
    hide WishOf, From, InOrder;
    if actions != [] {
      var n := |actions| - 1;
      WishesInOrder(s, actions[..n], d, a);
      WishIsOne(From(s, actions[..n]), actions[n], d, LastTick(actions[..n], a));
      var ws, w := WishesIn(s, actions[..n], d), WishOf(From(s, actions[..n]), actions[n], d);
      if w != [] {
        InOrderMore(ws, w[0], a);
        assert w == [w[0]];
      } else {
        assert ws + w == ws;
      }
    } else {
      NoneInOrder(a);
    }
  }

  lemma NoneInOrder(a: nat)
    ensures InOrder([], a)
  {
  }

  /** What a bufferevent may move: in any run without new limits or refunds, from a bucket
      that is not above its maximum, at most the burst and the rate times the ticks. */
  lemma MovedBound(s: State, actions: seq<Action>, d: Direction, a: nat, b: nat)
    requires Proper(s) && s.cfg.Limits? && s.sides.Get(d).limit <= CfgOf(s.cfg, d).max
    requires Timely(actions, a) && LastTick(actions, a) <= b && forall i :: 0 <= i < |actions| ==> Plain(actions[i])
    ensures MovedIn(s, actions, d) <= Budget(CfgOf(s.cfg, d), a, b)
  {
    hide Budget, PassAll, MovedIn, WishesIn, From, Timely, InOrder, LastTick;
    RunPasses(s, actions, d);
    WishesInOrder(s, actions, d, a);
    PassBound(CfgOf(s.cfg, d), BucketOf(s, d), WishesIn(s, actions, d), a, b);
  }

  /** New limits start with one tick's tokens; changed ones cut a bucket down to its
      maximum. */
  lemma ConfiguredTokens(s: State, cfg: Limits, tick: nat, d: Direction)
    requires cfg.Limits? && cfg.Valid()
    ensures var t, was := Next(s, Configure(cfg, tick)), s.sides.Get(d).limit;
            && t.cfg == cfg
            && t.sides.Get(d).limit == (if s.cfg.NoLimits? then CfgOf(cfg, d).rate
                                        else if was <= CfgOf(cfg, d).max then was else CfgOf(cfg, d).max)
            && t.last == (if s.cfg.NoLimits? then tick % TWO32 else s.last)
  {
  }

  /** From the first limits on, a bufferevent moves at most the burst and the rate times the
      ticks. */
  lemma FreshBound(before: seq<Action>, cfg: Limits, tick: nat, actions: seq<Action>, d: Direction, a: nat, b: nat)
    requires cfg.Limits? && cfg.Valid() && After(before).cfg.NoLimits?
    requires Timely(actions, a) && LastTick(actions, a) <= b && forall i :: 0 <= i < |actions| ==> Plain(actions[i])
    ensures MovedIn(Next(After(before), Configure(cfg, tick)), actions, d) <= Budget(CfgOf(cfg, d), a, b)
  {
    hide Next, After, Proper, MovedIn, Budget, Timely, LastTick;
    RunProper(before);
    NextProper(After(before), Configure(cfg, tick));
    ConfiguredTokens(After(before), cfg, tick, d);
    MovedBound(Next(After(before), Configure(cfg, tick)), actions, d, a, b);
  }

  /** A charge by the user takes that much, or gives it back if it is negative. */
  lemma ChargeTakes(s: State, d: Direction, decr: int)
    requires s.cfg.Limits? && -TWO63 <= s.sides.Get(d).limit - decr < TWO63
    ensures var t := Next(s, Charge(d, decr));
            && t.sides.Get(d).limit == s.sides.Get(d).limit - decr
            && t.sides.Get(Opposite(d)) == s.sides.Get(Opposite(d)) && t.last == s.last && t.cfg == s.cfg
  {
  }

  // ----- who is suspended for bandwidth, and the timer -----

  predicate Dry(s: State, d: Direction) {
    Bandwidth in s.sides.Get(d).reasons
  }

  /** After a move its direction is suspended for bandwidth exactly if no token is left; the
      other is as before. */
  lemma MoveSuspends(s: State, d: Direction, wish: nat, tick: nat)
    requires s.cfg.Limits?
    ensures var t := Next(s, Move(d, wish, tick));
            && (Dry(t, d) <==> t.sides.Get(d).limit <= 0) && (Dry(t, Opposite(d)) <==> Dry(s, Opposite(d)))
  {
    hide Update, Signed64;
  }

  /** A charge suspends a direction when it takes the last token and lets it go when it gives
      back the first. */
  lemma ChargeSuspends(s: State, d: Direction, decr: int)
    requires s.cfg.Limits?
    ensures var t, was := Next(s, Charge(d, decr)), s.sides.Get(d).limit;
            var left := t.sides.Get(d).limit;
            && (Dry(t, d) <==> if was > 0 && left <= 0 then true else if was <= 0 && left > 0 then false else Dry(s, d))
            && (Dry(t, Opposite(d)) <==> Dry(s, Opposite(d)))
  {
    hide Signed64;
  }

  /** The timer lets a direction go exactly if it has tokens then. */
  lemma TimerReleases(s: State, tick: nat, d: Direction)
    requires s.cfg.Limits? && s.timer
    ensures var t := Next(s, TimerGoesOff(tick)); Dry(t, d) <==> Dry(s, d) && t.sides.Get(d).limit <= 0
  {
    hide Update;
  }

  lemma ConfiguredSuspends(s: State, cfg: Limits, tick: nat, d: Direction)
    requires cfg.Valid()
    ensures var t := Next(s, Configure(cfg, tick)); Dry(t, d) <==> cfg.Limits? && t.sides.Get(d).limit <= 0
  {
  }

  /** The refill timer is pending exactly while a direction is suspended for bandwidth. */
  ghost predicate TimerNeeded(s: State) {
    && (s.timer <==> Dry(s, Reading) || Dry(s, Writing))
    && (s.cfg.NoLimits? ==> !s.timer)
  }

  lemma NextTimer(s: State, a: Action)
    requires TimerNeeded(s)
    ensures TimerNeeded(Next(s, a))
  {
    hide Update, Signed64, Used, Charged, RefilledState, Configured;
    match a {
      case Move(d, wish, tick) =>
        if s.cfg.Limits? {
          var u := Refreshed(s, tick % TWO32);
          var most := if u.sides.Get(d).limit < 0 then 0 else u.sides.Get(d).limit;
          UsedTimer(u, d, if wish < most then wish else most);
        }
      case Charge(d, decr) => if s.cfg.Limits? { UsedTimer(s, d, decr); }
      case TimerGoesOff(tick) => if s.timer { RefilledTimer(s, tick % TWO32); }
      case Configure(cfg, tick) => if cfg.Valid() { ConfiguredTimer(s, cfg, tick % TWO32); }
      case _ =>
    }
  }

  lemma UsedTimer(s: State, d: Direction, bytes: int)
    requires TimerNeeded(s) && s.cfg.Limits?
    ensures TimerNeeded(Used(s, d, bytes)) && TimerNeeded(Charged(s, d, bytes))
  {
    hide Signed64;
  }

  lemma RefilledTimer(s: State, tick: nat)
    ensures s.cfg.Limits? ==> TimerNeeded(RefilledState(s, tick))
  {
    hide Update;
  }

  lemma ConfiguredTimer(s: State, cfg: Limits, tick: nat)
    requires TimerNeeded(s)
    ensures TimerNeeded(Configured(s, cfg, tick))
  {
  }

  lemma {:induction false} RunTimer(actions: seq<Action>)
    ensures TimerNeeded(After(actions))
  {
    hide Next;
    if actions != [] {
      RunTimer(actions[..|actions| - 1]);
      NextTimer(After(actions[..|actions| - 1]), actions[|actions| - 1]);
    }
  }

  // ----- the user's own settings -----

  /** What the last call about a reason other than bandwidth said. */
  function HeldLast(actions: seq<Action>, d: Direction, why: Reason): bool {
    if actions == [] then false
    else
      var a := actions[|actions| - 1];
      if a.Hold? && a.d == d && a.why == why then a.on else HeldLast(actions[..|actions| - 1], d, why)
  }

  function TurnedLast(actions: seq<Action>, d: Direction): bool {
    if actions == [] then false
    else
      var a := actions[|actions| - 1];
      if a.Turn? && a.d == d then a.on else TurnedLast(actions[..|actions| - 1], d)
  }

  /** Only calls about them change what the user has turned on or holds. */
  lemma NextSettings(s: State, a: Action, d: Direction, why: Reason)
    requires why != Bandwidth
    ensures why in Next(s, a).sides.Get(d).reasons <==> if a.Hold? && a.d == d && a.why == why then a.on else why in s.sides.Get(d).reasons
    ensures Next(s, a).sides.Get(d).enabled <==> if a.Turn? && a.d == d then a.on else s.sides.Get(d).enabled
  {
    hide Update, Signed64, Used, Charged, RefilledState, Configured;
    match a {
      case Move(e, wish, tick) =>
        if s.cfg.Limits? {
          var u := Refreshed(s, tick % TWO32);
          var most := if u.sides.Get(e).limit < 0 then 0 else u.sides.Get(e).limit;
          UsedSettings(u, e, if wish < most then wish else most, d, why);
        }
      case Charge(e, decr) => if s.cfg.Limits? { UsedSettings(s, e, decr, d, why); }
      case TimerGoesOff(tick) => RefilledSettings(s, tick % TWO32, d, why);
      case Configure(cfg, tick) => ConfiguredSettings(s, cfg, tick % TWO32, d, why);
      case _ =>
    }
  }

  lemma UsedSettings(s: State, e: Direction, bytes: int, d: Direction, why: Reason)
    requires why != Bandwidth
    ensures why in Used(s, e, bytes).sides.Get(d).reasons <==> why in s.sides.Get(d).reasons
    ensures Used(s, e, bytes).sides.Get(d).enabled == s.sides.Get(d).enabled
    ensures why in Charged(s, e, bytes).sides.Get(d).reasons <==> why in s.sides.Get(d).reasons
    ensures Charged(s, e, bytes).sides.Get(d).enabled == s.sides.Get(d).enabled
  {
    hide Signed64;
  }

  lemma RefilledSettings(s: State, tick: nat, d: Direction, why: Reason)
    requires why != Bandwidth
    ensures why in RefilledState(s, tick).sides.Get(d).reasons <==> why in s.sides.Get(d).reasons
    ensures RefilledState(s, tick).sides.Get(d).enabled == s.sides.Get(d).enabled
  {
    hide Update;
  }

  lemma ConfiguredSettings(s: State, cfg: Limits, tick: nat, d: Direction, why: Reason)
    requires why != Bandwidth
    ensures why in Configured(s, cfg, tick).sides.Get(d).reasons <==> why in s.sides.Get(d).reasons
    ensures Configured(s, cfg, tick).sides.Get(d).enabled == s.sides.Get(d).enabled
  {
  }

  /** After any run a direction is held for a reason other than bandwidth exactly if the
      last call about that said so, and enabled exactly if the last call about that did. */
  lemma {:induction false} RunSettings(actions: seq<Action>, d: Direction, why: Reason)
    requires why != Bandwidth
    ensures why in After(actions).sides.Get(d).reasons <==> HeldLast(actions, d, why)
    ensures After(actions).sides.Get(d).enabled <==> TurnedLast(actions, d)
  {
    hide Next;
    if actions != [] {
      RunSettings(actions[..|actions| - 1], d, why);
      NextSettings(After(actions[..|actions| - 1]), actions[|actions| - 1], d, why);
    }
  }
}
