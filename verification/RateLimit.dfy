/** The rate limit of a single bufferevent: its bucket, the reasons why reading and
    writing are suspended, and the timer that refills the bucket
    (libevent/bufferevent_ratelim.c, libevent/bufferevent.c). */
module RateLimit {
  import opened TokenBucket
  import opened WordSizes

  datatype Direction = Reading | Writing

  function Opposite(d: Direction): Direction {
    if d == Reading then Writing else Reading
  }

  /** Reasons for suspending: the bufferevent_suspend_flags. */
  datatype Reason = Watermark | Bandwidth | GroupBandwidth | Filter | Lookup

  /** One direction of a bufferevent: what the user enabled, why it is suspended, what
      the backend was told, and the tokens that are left. */
  datatype Side = Side(enabled: bool, reasons: set<Reason>, backend: bool, limit: int)

  datatype Sides = Sides(read: Side, write: Side) {
    function Get(d: Direction): Side {
      if d == Reading then read else write
    }

    function Put(d: Direction, s: Side): Sides {
      if d == Reading then this.(read := s) else this.(write := s)
    }
  }

  datatype Limits = NoLimits | Limits(read: Cfg, write: Cfg) {
    predicate Valid() {
      Limits? ==> read.Valid() && write.Valid()
    }
  }

  class Bufferevent {
    var sides: Sides
    var cfg: Limits
    var last: nat
    /** The refill timer is pending. */
    var timer: bool

    /** What holds after any run. */
    ghost predicate Valid() reads this {
      Proper(StateOf(this))
    }

    /** A bufferevent without a rate limit and with nothing enabled. */
    constructor ()
      ensures Valid() && cfg == NoLimits && !timer && last == 0
      ensures sides.Get(Reading) == sides.Get(Writing) == Side(false, {}, false, 0)
    {
      sides := Sides(Side(false, {}, false, 0), Side(false, {}, false, 0));
      cfg, last, timer := NoLimits, 0, false;
    }

    /** bufferevent_suspend_read_ and bufferevent_suspend_write_. */
    method Suspend(d: Direction, why: Reason)
      requires BackendOk(sides.Get(d))
      modifies this`sides
      ensures sides == old(sides).Put(d, Suspended(old(sides).Get(d), why))
      ensures BackendOk(sides.Get(d))
    {
      var s := sides.Get(d);
      var on := if s.reasons == {} then false else s.backend;
      sides := sides.Put(d, s.(reasons := s.reasons + {why}, backend := on));
    }

    /** bufferevent_unsuspend_read_ and bufferevent_unsuspend_write_. */
    method Unsuspend(d: Direction, why: Reason)
      requires BackendOk(sides.Get(d))
      modifies this`sides
      ensures sides == old(sides).Put(d, Unsuspended(old(sides).Get(d), why))
      ensures BackendOk(sides.Get(d))
    {
      var s := sides.Get(d);
      var left := s.reasons - {why};
      sides := sides.Put(d, s.(reasons := left, backend := if left == {} && s.enabled then true else s.backend));
    }

    /** bufferevent_enable. */
    method Enable(d: Direction)
      requires Valid()
      modifies this`sides
      ensures Valid() && StateOf(this) == Next(old(StateOf(this)), Turn(d, true)) && sides.Get(d).enabled
      ensures sides.Get(d).backend <==> sides.Get(d).reasons == {}
    {
      var s := sides.Get(d);
      sides := sides.Put(d, s.(enabled := true, backend := if s.reasons == {} then true else s.backend));
    }

    /** bufferevent_disable. */
    method Disable(d: Direction)
      requires Valid()
      modifies this`sides
      ensures Valid() && StateOf(this) == Next(old(StateOf(this)), Turn(d, false)) && !sides.Get(d).backend
    {
      sides := sides.Put(d, sides.Get(d).(enabled := false, backend := false));
    }

    /** ev_token_bucket_update_ on the bucket of this bufferevent. */
    method UpdateBucket(tick: nat)
      requires cfg.Limits?
      modifies this`sides, this`last
      ensures StateOf(this) == Refreshed(old(StateOf(this)), tick)
    {
      var r, w := Level(sides.read.limit, last), Level(sides.write.limit, last);
      SameLast(r, w, cfg.read, cfg.write, tick);
      sides := Sides(sides.read.(limit := Update(r, cfg.read, tick).limit), sides.write.(limit := Update(w, cfg.write, tick).limit));
      last := Update(r, cfg.read, tick).last;
    }

    /** bufferevent_get_rlim_max_, without a group: how much may be moved now. From a sound
        state that is something, unless the direction is suspended for bandwidth or the
        update overflows. */
    method Allowance(d: Direction, single: nat, tick: nat) returns (most: nat)
      requires Valid() && tick < TWO32
      modifies this`sides, this`last
      ensures Valid()
      ensures cfg.NoLimits? ==> most == single && sides == old(sides) && last == old(last)
      ensures cfg.Limits? ==> most == if sides.Get(d).limit < 0 then 0 else sides.Get(d).limit
      ensures cfg.Limits? ==> StateOf(this) == Refreshed(old(StateOf(this)), tick)
      ensures cfg.Limits? && old(Sound(StateOf(this))) && Bandwidth !in sides.Get(d).reasons ==>
                (most > 0 <==> !Spoils(old(StateOf(this)), d, tick))
    {
      hide Update, Counted, Overflows;
      if cfg.NoLimits? {
        return single;
      }
      RefreshedProper(StateOf(this), tick);
      if Sound(StateOf(this)) {
        RefreshedSide(StateOf(this), d, tick);
      }
      if tick != last {
        UpdateBucket(tick);
      } else {
        NoTick(StateOf(this));
      }
      return if sides.Get(d).limit < 0 then 0 else sides.Get(d).limit;
    }

    /** The bufferevent's part of bufferevent_decrement_read_buckets_ and its twin; a
        negative count is a refund. Limits wrap at 64 bits. */
    method DecrementBuckets(d: Direction, bytes: int)
      requires Valid()
      modifies this`sides, this`timer
      ensures Valid()
      ensures StateOf(this) == if cfg.NoLimits? then old(StateOf(this)) else Used(old(StateOf(this)), d, bytes)
      ensures cfg.Limits? ==> (Bandwidth in sides.Get(d).reasons <==> sides.Get(d).limit <= 0)
    {
      hide Signed64;
      if cfg.NoLimits? {
        return;
      }
      sides := sides.Put(d, sides.Get(d).(limit := Signed64(sides.Get(d).limit - bytes)));
      if sides.Get(d).limit <= 0 {
        Suspend(d, Bandwidth);
        timer := true;
      } else if Bandwidth in sides.Get(d).reasons {
        if Bandwidth !in sides.Get(Opposite(d)).reasons {
          timer := false;
        }
        Unsuspend(d, Bandwidth);
      }
    }

    /** bufferevent_decrement_read_limit and its twin, called by the user. */
    method DecrementLimit(d: Direction, decr: int)
      requires Valid() && cfg.Limits?
      modifies this`sides, this`timer
      ensures Valid() && StateOf(this) == Charged(old(StateOf(this)), d, decr)
    {
      hide Signed64;
      var was := sides.Get(d).limit;
      sides := sides.Put(d, sides.Get(d).(limit := Signed64(was - decr)));
      if was > 0 && sides.Get(d).limit <= 0 {
        Suspend(d, Bandwidth);
        timer := true;
      } else if was <= 0 && sides.Get(d).limit > 0 {
        if Bandwidth !in sides.Get(Opposite(d)).reasons {
          timer := false;
        }
        Unsuspend(d, Bandwidth);
      }
    }

    /** bev_refill_callback_: the timer has gone off. */
    method RefillCallback(tick: nat)
      requires Valid() && timer && tick < TWO32
      modifies this
      ensures Valid() && StateOf(this) == RefilledState(old(StateOf(this)), tick)
      ensures cfg.Limits? ==> forall d: Direction ::
                Bandwidth in sides.Get(d).reasons <==> Bandwidth in old(sides).Get(d).reasons && sides.Get(d).limit <= 0
      ensures timer <==> cfg.Limits? && exists d: Direction :: Bandwidth in sides.Get(d).reasons
    {
      hide Update, Counted;
      timer := false;
      if cfg.NoLimits? {
        return;
      }
      RefreshedProper(old(StateOf(this)), tick);
      UpdateBucket(tick);
      var again := false;
      again := LetGo(Reading, again);
      again := LetGo(Writing, again);
      assert again <==> Bandwidth in sides.Get(Reading).reasons || Bandwidth in sides.Get(Writing).reasons;
      if again {
        timer := true;
      }
    }

    /** One direction in bev_refill_callback_. */
    method LetGo(d: Direction, again0: bool) returns (again: bool)
      requires BackendOk(sides.Get(d))
      modifies this`sides
      ensures sides == old(sides).Put(d, if sides.Get(d).limit > 0 && Bandwidth in old(sides).Get(d).reasons
                                       then Unsuspended(old(sides).Get(d), Bandwidth) else old(sides).Get(d))
      ensures sides.Get(d).limit == old(sides).Get(d).limit && BackendOk(sides.Get(d))
      ensures again <==> again0 || (Bandwidth in old(sides).Get(d).reasons && sides.Get(d).limit <= 0)
    {
      again := again0;
      if Bandwidth in sides.Get(d).reasons {
        if sides.Get(d).limit > 0 {
          Unsuspend(d, Bandwidth);
        } else {
          again := true;
        }
      }
    }

    /** bufferevent_set_rate_limit. */
    method SetRateLimit(wanted: Limits, tick: nat, samePointer: bool)
      requires Valid() && wanted.Valid() && tick < TWO32 && (samePointer ==> cfg == wanted)
      modifies this
      ensures Valid() && StateOf(this) == if samePointer && wanted.Limits? then old(StateOf(this)) else Configured(old(StateOf(this)), wanted, tick)
    {
      if wanted.NoLimits? {
        cfg := NoLimits;
        Unsuspend(Reading, Bandwidth);
        Unsuspend(Writing, Bandwidth);
        timer := false;
        return;
      }
      if samePointer {
        return;
      }
      if cfg.Limits? {
        timer := false;
        Clip(Reading, wanted.read.max);
        Clip(Writing, wanted.write.max);
      } else {
        sides := sides.Put(Reading, sides.Get(Reading).(limit := wanted.read.rate)).Put(Writing, sides.Get(Writing).(limit := wanted.write.rate));
        last := tick;
      }
      cfg := wanted;
      var suspended := Judge(Reading, false);
      suspended := Judge(Writing, suspended);
      if suspended {
        timer := true;
      }
    }

    /** ev_token_bucket_init_, reinitializing. */
    method Clip(d: Direction, max: nat)
      modifies this`sides
      ensures sides == old(sides).Put(d, old(sides).Get(d).(limit := if old(sides).Get(d).limit > max then max else old(sides).Get(d).limit))
    {
      if sides.Get(d).limit > max {
        sides := sides.Put(d, sides.Get(d).(limit := max));
      }
    }

    /** One direction at the end of bufferevent_set_rate_limit. */
    method Judge(d: Direction, before: bool) returns (suspended: bool)
      requires BackendOk(sides.Get(d))
      modifies this`sides
      ensures sides == old(sides).Put(d, if old(sides).Get(d).limit > 0 then Unsuspended(old(sides).Get(d), Bandwidth)
                                       else Suspended(old(sides).Get(d), Bandwidth))
      ensures BackendOk(sides.Get(d))
      ensures suspended <==> before || sides.Get(d).limit <= 0
    {
      if sides.Get(d).limit > 0 {
        Unsuspend(d, Bandwidth);
        suspended := before;
      } else {
        Suspend(d, Bandwidth);
        suspended := true;
      }
    }

    /** Any other reason comes or goes. */
    method Other(d: Direction, why: Reason, suspend: bool)
      requires Valid() && why != Bandwidth
      modifies this`sides
      ensures Valid()
      ensures sides == old(sides).Put(d, if suspend then Suspended(old(sides).Get(d), why) else Unsuspended(old(sides).Get(d), why))
    {
      if suspend {
        Suspend(d, why);
      } else {
        Unsuspend(d, why);
      }
    }
  }

  ghost predicate BackendOk(s: Side) {
    s.backend <==> s.enabled && s.reasons == {}
  }

  ghost predicate SideProper(s: Side, cfg: Limits, timer: bool) {
    && BackendOk(s)
    && (Bandwidth in s.reasons ==> cfg.Limits? && timer)
    && -TWO63 <= s.limit < TWO63
  }

  lemma NoTick(s: State)
    requires s.cfg.Limits?
    ensures Refreshed(s, s.last) == s
  {
  }

  lemma SameLast(r: Level, w: Level, rc: Cfg, wc: Cfg, tick: nat)
    requires r.last == w.last
    ensures Update(r, rc, tick).last == Update(w, wc, tick).last
  {
  }

  function Suspended(s: Side, why: Reason): Side {
    s.(reasons := s.reasons + {why}, backend := false)
  }

  function Unsuspended(s: Side, why: Reason): Side {
    s.(reasons := s.reasons - {why}, backend := s.enabled && s.reasons - {why} == {})
  }

  /** A direction that is suspended for bandwidth is let go once the timer has gone off
      often enough, one tick at a time; also when a limit above its maximum overflows on
      the way. */
  method Recover(b: Bufferevent, d: Direction)
    requires b.Valid()
    modifies b
    ensures b.Valid() && Bandwidth !in b.sides.Get(d).reasons
  {
    while Bandwidth in b.sides.Get(d).reasons
      invariant b.Valid()
      decreases Bandwidth in b.sides.Get(d).reasons, b.sides.Get(d).limit > 0, -b.sides.Get(d).limit
    {
      var tick := (b.last + 1) % TWO32;
      NextTick(b.last);
      // the timer is pending, so it will go off
      assert b.timer;
      OneTick(StateOf(b), d, tick);
      hide Counted, Update;
      b.RefillCallback(tick);
    }
  }

  /** An empty bucket gains something in one tick. */
  lemma OneTick(s: State, d: Direction, tick: nat)
    requires Proper(s) && s.cfg.Limits? && tick < TWO32 && Counted(tick, s.last) == 1
    ensures s.sides.Get(d).limit <= 0 ==> RefilledState(s, tick).sides.Get(d).limit > s.sides.Get(d).limit
  {
    UpdateExact(Level(s.sides.read.limit, s.last), s.cfg.read, tick);
    UpdateExact(Level(s.sides.write.limit, s.last), s.cfg.write, tick);
    hide Update;
  }

  lemma NextTick(last: nat)
    requires last < TWO32
    ensures Elapsed((last + 1) % TWO32, last) == 1 && Counted((last + 1) % TWO32, last) == 1
  {
    if last + 1 == TWO32 {
      assert (0 - last) % TWO32 == 1;
    }
  }

  // ----- runs -----

  datatype Action =
    | Turn(d: Direction, on: bool)
    | Hold(d: Direction, why: Reason, on: bool)
    | Move(d: Direction, wish: nat, tick: nat)
    | Charge(d: Direction, decr: int)
    | TimerGoesOff(tick: nat)
    | Configure(cfg: Limits, tick: nat)

  /** All there is to a bufferevent here. */
  datatype State = State(sides: Sides, cfg: Limits, last: nat, timer: bool)

  const START: State := State(Sides(Side(false, {}, false, 0), Side(false, {}, false, 0)), NoLimits, 0, false)

  /** The limits after an update. */
  function Refreshed(s: State, tick: nat): State
    requires s.cfg.Limits?
  {
    var r, w := Update(Level(s.sides.read.limit, s.last), s.cfg.read, tick), Update(Level(s.sides.write.limit, s.last), s.cfg.write, tick);
    s.(sides := Sides(s.sides.read.(limit := r.limit), s.sides.write.(limit := w.limit)), last := r.last)
  }

  /** A direction with another limit is suspended for bandwidth, with the timer, or let
      go; the timer then stays only for the other direction. */
  function EmptyFor(s: State, d: Direction, limit: int): State {
    s.(sides := s.sides.Put(d, Suspended(s.sides.Get(d).(limit := limit), Bandwidth)), timer := true)
  }

  function TokensFor(s: State, d: Direction, limit: int): State {
    s.(sides := s.sides.Put(d, Unsuspended(s.sides.Get(d).(limit := limit), Bandwidth)),
       timer := s.timer && Bandwidth in s.sides.Get(Opposite(d)).reasons)
  }

  /** Bytes have moved. */
  function Used(s: State, d: Direction, bytes: int): State {
    var limit := Signed64(s.sides.Get(d).limit - bytes);
    if limit <= 0 then EmptyFor(s, d, limit)
    else if Bandwidth in s.sides.Get(d).reasons then TokensFor(s, d, limit)
    else s.(sides := s.sides.Put(d, s.sides.Get(d).(limit := limit)))
  }

  /** The user takes tokens, or gives some back. */
  function Charged(s: State, d: Direction, decr: int): State {
    var was := s.sides.Get(d).limit;
    var limit := Signed64(was - decr);
    if was > 0 && limit <= 0 then EmptyFor(s, d, limit)
    else if was <= 0 && limit > 0 then TokensFor(s, d, limit)
    else s.(sides := s.sides.Put(d, s.sides.Get(d).(limit := limit)))
  }

  /** A direction when the timer has gone off. */
  function Released(side: Side): Side {
    if Bandwidth in side.reasons && side.limit > 0 then Unsuspended(side, Bandwidth) else side
  }

  /** The timer has gone off. */
  function RefilledState(s: State, tick: nat): State {
    if s.cfg.NoLimits? then s.(timer := false)
    else
      var u := Refreshed(s, tick);
      var r, w := Released(u.sides.read), Released(u.sides.write);
      State(Sides(r, w), s.cfg, u.last, Bandwidth in r.reasons || Bandwidth in w.reasons)
  }

  function Clipped(side: Side, max: nat): Side {
    if side.limit > max then side.(limit := max) else side
  }

  /** A direction under new limits. */
  function Judged(side: Side): Side {
    if side.limit > 0 then Unsuspended(side, Bandwidth) else Suspended(side, Bandwidth)
  }

  function Configured(s: State, cfg: Limits, tick: nat): State {
    if cfg.NoLimits? then
      State(Sides(Unsuspended(s.sides.read, Bandwidth), Unsuspended(s.sides.write, Bandwidth)), cfg, s.last, false)
    else
      var r, w := if s.cfg.Limits? then Clipped(s.sides.read, cfg.read.max) else s.sides.read.(limit := cfg.read.rate),
                  if s.cfg.Limits? then Clipped(s.sides.write, cfg.write.max) else s.sides.write.(limit := cfg.write.rate);
      State(Sides(Judged(r), Judged(w)), cfg, if s.cfg.Limits? then s.last else tick,
            r.limit <= 0 || w.limit <= 0 || (s.timer && s.cfg.NoLimits?))
  }

  /** What an action does; one that cannot happen does nothing. */
  function Next(s: State, a: Action): State {
    match a
    case Turn(d, on) =>
      s.(sides := s.sides.Put(d, s.sides.Get(d).(enabled := on, backend := on && s.sides.Get(d).reasons == {})))
    case Hold(d, why, on) =>
      if why == Bandwidth then s
      else s.(sides := s.sides.Put(d, if on then Suspended(s.sides.Get(d), why) else Unsuspended(s.sides.Get(d), why)))
    case Move(d, wish, tick) =>
      if s.cfg.NoLimits? then s
      else
        var u := Refreshed(s, tick % TWO32);
        var most := if u.sides.Get(d).limit < 0 then 0 else u.sides.Get(d).limit;
        Used(u, d, if wish < most then wish else most)
    case Charge(d, decr) => if s.cfg.Limits? then Charged(s, d, decr) else s
    case TimerGoesOff(tick) => if s.timer then RefilledState(s, tick % TWO32) else s
    case Configure(cfg, tick) => if cfg.Valid() then Configured(s, cfg, tick % TWO32) else s
  }

  function After(actions: seq<Action>): State {
    if actions == [] then START else Next(After(actions[..|actions| - 1]), actions[|actions| - 1])
  }

  /** What no action can break: the backend is on exactly while the user wants it and
      nothing is in the way, and while a direction is suspended for bandwidth the timer is
      pending, so that it does not stay so for ever. */
  ghost predicate Proper(s: State) {
    && s.cfg.Valid() && s.last < TWO32
    && SideProper(s.sides.read, s.cfg, s.timer) && SideProper(s.sides.write, s.cfg, s.timer)
  }

  /** And a bucket without tokens means that suspension. */
  ghost predicate Sound(s: State) {
    && Proper(s)
    && (s.cfg.Limits? ==> Held(s.sides.read) && Held(s.sides.write))
  }

  predicate Held(side: Side) {
    side.limit <= 0 ==> Bandwidth in side.reasons
  }

  /** The configuration of one direction. */
  function CfgOf(cfg: Limits, d: Direction): Cfg
    requires cfg.Limits?
  {
    if d == Reading then cfg.read else cfg.write
  }

  /** An update at a tick empties the bucket of a direction that is not suspended. */
  predicate Spoils(s: State, d: Direction, tick: nat) {
    && s.cfg.Limits? && Bandwidth !in s.sides.Get(d).reasons
    && Overflows(Level(s.sides.Get(d).limit, s.last), CfgOf(s.cfg, d), tick)
  }

  lemma RefreshedProper(s: State, tick: nat)
    requires Proper(s) && s.cfg.Limits? && tick < TWO32
    ensures Proper(Refreshed(s, tick)) && Refreshed(s, tick).timer == s.timer && Refreshed(s, tick).cfg == s.cfg
  {
    UpdateExact(Level(s.sides.read.limit, s.last), s.cfg.read, tick);
    UpdateExact(Level(s.sides.write.limit, s.last), s.cfg.write, tick);
    hide Update, Counted;
  }

  /** One direction after an update. */
  lemma RefreshedSide(s: State, d: Direction, tick: nat)
    requires Sound(s) && s.cfg.Limits? && tick < TWO32
    ensures var side := Refreshed(s, tick).sides.Get(d);
            && side.reasons == s.sides.Get(d).reasons
            && (!Held(side) <==> Spoils(s, d, tick))
  {
    var l := Level(s.sides.Get(d).limit, s.last);
    if l.limit > 0 {
      UpdateEmpties(l, CfgOf(s.cfg, d), tick);
    }
    hide Update, Counted;
  }

  /** An update keeps the state sound if and only if it spoils no direction. */
  lemma RefreshedSound(s: State, tick: nat)
    requires Sound(s) && s.cfg.Limits? && tick < TWO32
    ensures Sound(Refreshed(s, tick)) <==> !Spoils(s, Reading, tick) && !Spoils(s, Writing, tick)
  {
    RefreshedProper(s, tick);
    RefreshedSide(s, Reading, tick);
    RefreshedSide(s, Writing, tick);
    hide Refreshed, Spoils, Proper, Held;
  }

  /** The actions that leave an empty bucket behind that nobody was suspended for. Moving
      bytes in a direction looks at its bucket afterwards, so only the other can be. */
  predicate Harms(s: State, a: Action) {
    match a
    case Move(d, _, tick) => Spoils(s, Opposite(d), tick % TWO32)
    case TimerGoesOff(tick) => s.timer && (Spoils(s, Reading, tick % TWO32) || Spoils(s, Writing, tick % TWO32))
    case _ => false
  }

  lemma UsedProper(s: State, d: Direction, bytes: int)
    requires Proper(s) && s.cfg.Limits?
    ensures Proper(Used(s, d, bytes)) && Proper(Charged(s, d, bytes))
  {
    hide Signed64;
  }

  /** Bytes that move leave their own direction in order. */
  lemma UsedSides(s: State, d: Direction, bytes: int)
    requires s.cfg.Limits?
    ensures Held(Used(s, d, bytes).sides.Get(d))
    ensures Used(s, d, bytes).sides.Get(Opposite(d)) == s.sides.Get(Opposite(d)) && Used(s, d, bytes).cfg == s.cfg
  {
    hide Signed64;
  }

  lemma ChargedSound(s: State, d: Direction, bytes: int)
    requires Sound(s) && s.cfg.Limits?
    ensures Sound(Charged(s, d, bytes))
  {
    UsedProper(s, d, bytes);
    hide Signed64, Proper;
  }

  lemma RefilledProper(s: State, tick: nat)
    requires Proper(s) && tick < TWO32
    ensures Proper(RefilledState(s, tick))
  {
    if s.cfg.Limits? {
      RefreshedProper(s, tick);
    }
    hide Refreshed;
  }

  lemma ConfiguredSound(s: State, cfg: Limits, tick: nat)
    requires Proper(s) && cfg.Valid() && tick < TWO32
    ensures Sound(Configured(s, cfg, tick))
  {
  }

  /** Every action keeps what no action can break. */
  lemma NextProper(s: State, a: Action)
    requires Proper(s)
    ensures Proper(Next(s, a))
  {
    match a {
      case Move(d, wish, tick) =>
        if s.cfg.Limits? {
          RefreshedProper(s, tick % TWO32);
          var u := Refreshed(s, tick % TWO32);
          var most := if u.sides.Get(d).limit < 0 then 0 else u.sides.Get(d).limit;
          UsedProper(u, d, if wish < most then wish else most);
          hide Refreshed, Used, Proper;
        }
      case Charge(d, decr) =>
        if s.cfg.Limits? {
          UsedProper(s, d, decr);
          hide Charged, Proper;
        }
      case TimerGoesOff(tick) =>
        RefilledProper(s, tick % TWO32);
        hide RefilledState, Proper;
      case Configure(cfg, tick) =>
        if cfg.Valid() {
          ConfiguredSound(s, cfg, tick % TWO32);
          hide Configured, Proper;
        }
      case _ =>
    }
  }

  lemma MoveSound(s: State, d: Direction, wish: nat, tick: nat)
    requires Sound(s) && s.cfg.Limits?
    ensures Sound(Next(s, Move(d, wish, tick))) <==> !Spoils(s, Opposite(d), tick % TWO32)
  {
    var t := tick % TWO32;
    NextProper(s, Move(d, wish, tick));
    RefreshedProper(s, t);
    RefreshedSide(s, Opposite(d), t);
    var u := Refreshed(s, t);
    var most := if u.sides.Get(d).limit < 0 then 0 else u.sides.Get(d).limit;
    UsedSides(u, d, if wish < most then wish else most);
    hide Refreshed, Used, Proper, Spoils, Held;
  }

  lemma TimerSound(s: State, tick: nat)
    requires Sound(s) && s.cfg.Limits? && s.timer && tick < TWO32
    ensures Sound(RefilledState(s, tick)) <==> !Spoils(s, Reading, tick) && !Spoils(s, Writing, tick)
  {
    RefilledProper(s, tick);
    RefreshedSide(s, Reading, tick);
    RefreshedSide(s, Writing, tick);
    var t, u := RefilledState(s, tick), Refreshed(s, tick);
    hide Refreshed, Proper, Spoils;
    assert t.sides.Get(Reading) == Released(u.sides.Get(Reading)) && t.sides.Get(Writing) == Released(u.sides.Get(Writing));
  }

  /** From a sound state an action leads to a sound one if and only if it does no harm. */
  lemma NextSound(s: State, a: Action)
    requires Sound(s)
    ensures Sound(Next(s, a)) <==> !Harms(s, a)
  {
    NextProper(s, a);
    match a {
      case Move(d, wish, tick) =>
        if s.cfg.Limits? {
          MoveSound(s, d, wish, tick);
        }
      case Charge(d, decr) =>
        if s.cfg.Limits? {
          ChargedSound(s, d, decr);
          hide Charged, Proper;
        }
      case TimerGoesOff(tick) =>
        if s.timer && s.cfg.Limits? {
          TimerSound(s, tick % TWO32);
          hide RefilledState, Proper;
        }
      case Configure(cfg, tick) =>
        if cfg.Valid() {
          ConfiguredSound(s, cfg, tick % TWO32);
          hide Configured, Proper;
        }
      case Turn(d, on) => hide Proper;
      case Hold(d, why, on) => hide Proper;
    }
  }

  /** After any run at all, a direction is on in the backend exactly if it is enabled and
      not suspended, and one that is suspended for bandwidth has its timer pending. */
  lemma {:induction false} RunProper(actions: seq<Action>)
    ensures Proper(After(actions))
    ensures var s := After(actions);
            forall d: Direction ::
              && (s.sides.Get(d).backend <==> s.sides.Get(d).enabled && s.sides.Get(d).reasons == {})
              && (Bandwidth in s.sides.Get(d).reasons ==> s.cfg.Limits? && s.timer)
  {
    if actions != [] {
      RunProper(actions[..|actions| - 1]);
      NextProper(After(actions[..|actions| - 1]), actions[|actions| - 1]);
    }
  }

  /** No action of a run does harm. */
  ghost predicate Harmless(actions: seq<Action>) {
    forall i :: 0 <= i < |actions| ==> !Harms(After(actions[..i]), actions[i])
  }

  /** In every state of a run an empty bucket means that its direction is suspended, if
      and only if no action does harm. */
  lemma {:induction false} RunSound(actions: seq<Action>)
    ensures AllSound(actions) <==> Harmless(actions)
    ensures Harmless(actions) ==> Sound(After(actions))
  {
    hide Next, Harms, Sound;
    if actions == [] {
      StartSound();
    } else {
      var n := |actions| - 1;
      var front := actions[..n];
      RunSound(front);
      if Harmless(front) {
        NextSound(After(front), actions[n]);
      }
      HarmlessStep(actions);
    }
  }

  /** Every state of a run is sound. */
  ghost predicate AllSound(actions: seq<Action>) {
    Sound(After(actions)) && (actions != [] ==> AllSound(actions[..|actions| - 1]))
  }

  lemma StartSound()
    ensures Sound(After([]))
  {
  }

  lemma HarmlessStep(actions: seq<Action>)
    requires actions != []
    ensures var n := |actions| - 1;
            Harmless(actions) <==> Harmless(actions[..n]) && !Harms(After(actions[..n]), actions[n])
  {
    hide Harms, After;
    var n := |actions| - 1;
    assert forall i :: 0 <= i < n ==> actions[..n][..i] == actions[..i] && actions[..n][i] == actions[i];
  }

  /** A run that does harm: a refund lifts the limit for reading to the top of the range,
      and a write one tick later makes it overflow. Then nothing may be read, and reading
      is not suspended. */
  lemma OverflowRun()
    ensures var cfg := Cfg(1, 1);
            var actions := [Configure(Limits(cfg, cfg), 0), Charge(Reading, 2 - TWO63), Move(Writing, 0, 1)];
            && Harms(After(actions[..2]), actions[2])
            && After(actions).sides.read.limit == -TWO63 && After(actions).sides.read.reasons == {}
            && !Sound(After(actions))
  {
    var cfg := Cfg(1, 1);
    var actions := [Configure(Limits(cfg, cfg), 0), Charge(Reading, 2 - TWO63), Move(Writing, 0, 1)];
    var one := After([actions[0]]);
    assert [actions[0]][..0] == [] && actions[..1] == [actions[0]] && actions[..2][..1] == actions[..1] && actions[..3] == actions;
    assert After([]) == START;
    assert one == Next(START, actions[0]);
    assert one.sides.read == Side(false, {}, false, 1) == one.sides.write && one.last == 0;
    var two := After(actions[..2]);
    assert two == Next(one, actions[1]);
    assert two.sides.read == Side(false, {}, false, TWO63 - 1) && two.last == 0;
    assert Counted(1, 0) == 1;
    RoomIs(TWO63 - 1, cfg);
    assert Update(Level(TWO63 - 1, 0), cfg, 1).limit == -TWO63;
  }

  ghost function StateOf(b: Bufferevent): State reads b {
    State(b.sides, b.cfg, b.last, b.timer)
  }

  method Do(b: Bufferevent, a: Action)
    requires b.Valid()
    modifies b
    ensures b.Valid() && StateOf(b) == Next(old(StateOf(b)), a)
  {
    hide Refreshed, Used, Charged, Configured, RefilledState, Update, Counted, Proper;
    match a {
      case Turn(d, on) => if on { b.Enable(d); } else { b.Disable(d); }
      case Hold(d, why, on) => if why != Bandwidth { b.Other(d, why, on); }
      case Move(d, wish, tick) =>
        var most := b.Allowance(d, wish, tick % TWO32);
        b.DecrementBuckets(d, if wish < most then wish else most);
      case Charge(d, decr) => if b.cfg.Limits? { b.DecrementLimit(d, decr); }
      case TimerGoesOff(tick) => if b.timer { b.RefillCallback(tick % TWO32); }
      case Configure(cfg, tick) => if cfg.Valid() { b.SetRateLimit(cfg, tick % TWO32, false); }
    }
  }

  /** A run on a bufferevent goes through the states of the run. */
  method Run(actions: seq<Action>) returns (b: Bufferevent)
    ensures fresh(b) && b.Valid() && StateOf(b) == After(actions)
  {
    hide Next;
    b := new Bufferevent();
    for i := 0 to |actions|
      invariant fresh(b) && b.Valid() && StateOf(b) == After(actions[..i])
    {
      assert actions[..i + 1][..i] == actions[..i];
      Do(b, actions[i]);
    }
    assert actions[..|actions|] == actions;
  }
}
