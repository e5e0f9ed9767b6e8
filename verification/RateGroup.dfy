/** One direction of a rate-limit group of bufferevents
    (libevent/bufferevent_ratelim.c, which has the same code for reading and for
    writing). A member asks for its share and is charged for what it used later: the
    lock of the group is free in between. */
module RateGroup {
  import opened TokenBucket
  import opened IdLists
  import opened WordSizes

  /** bufferevent_rate_limit_group_set_min_share: at steady state at least one member
      can go per tick. */
  function MinShare(configured: nat, readRate: nat, writeRate: nat): (share: nat)
    ensures share <= readRate && share <= writeRate && share <= configured
    ensures configured >= 1 && readRate >= 1 && writeRate >= 1 ==> share >= 1
    ensures share in {configured, readRate, writeRate}
  {
    var s := if configured > readRate then readRate else configured;
    if s > writeRate then writeRate else s
  }

  /** The configuration: the bucket's, and the least share of a member. */
  datatype Plan = Plan(cfg: Cfg, minShare: nat) {
    predicate Valid() {
      cfg.Valid() && 1 <= minShare <= cfg.rate
    }
  }

  /** A share that a member was told and has not been charged for. */
  datatype Grant = Grant(member: int, share: nat)

  /** A group. `held` are the members suspended on its behalf; `granted` is what was
      outstanding in all when a share was last told. */
  datatype State = State(level: Level, suspended: bool, pending: bool, members: seq<int>, held: set<int>,
                         grants: seq<Grant>, granted: nat)

  function Sum(grants: seq<Grant>): nat {
    if grants == [] then 0 else grants[0].share + Sum(grants[1..])
  }

  /** What may happen to a group. `free` are the members whose lock can be had. */
  datatype Action =
    | Ask(m: int)
    | Charge(k: nat, wish: nat, free: set<int>)
    | Refill(tick: nat, free: set<int>)
    | Join(m: int)
    | Quit(m: int)

  /** bev_group_suspend_reading_: every member whose lock can be had is held. */
  function Suspended(s: State, free: set<int>): State {
    s.(suspended := true, pending := false, held := s.held + Members(s.members) * free)
  }

  /** bev_group_unsuspend_reading_: every member whose lock can be had is let go; if a
      lock cannot be had the group is pending. */
  function Unsuspended(s: State, free: set<int>): State {
    s.(suspended := false, pending := !(Members(s.members) <= free), held := s.held - Members(s.members) * free)
  }

  /** The share in bufferevent_get_rlim_max_. */
  function ShareOf(plan: Plan, s: State): nat
    requires s.members != []
  {
    var part := s.level.limit / |s.members|;
    if part < plan.minShare then plan.minShare else part
  }

  /** A member looks at its limit; one that was missed when the group was suspended is
      held now. */
  function Asked(plan: Plan, s: State, m: int): State
    requires s.members != []
  {
    if s.suspended then s.(held := s.held + {m})
    else
      var grants := s.grants + [Grant(m, ShareOf(plan, s))];
      s.(grants := grants, granted := Sum(grants))
  }

  /** The group's part of bufferevent_decrement_read_buckets_. The limit wraps at 64
      bits. */
  function Decremented(s: State, bytes: nat, free: set<int>): State {
    var t := s.(level := s.level.(limit := Signed64(s.level.limit - bytes)));
    if t.level.limit <= 0 then Suspended(t, free) else if t.suspended then Unsuspended(t, free) else t
  }

  /** What is used of a share. */
  function UsedOf(s: State, k: nat, wish: nat): nat
    requires k < |s.grants|
  {
    if wish < s.grants[k].share then wish else s.grants[k].share
  }

  /** A member is charged for what it used of its share. */
  function Charged(s: State, k: nat, wish: nat, free: set<int>): State
    requires k < |s.grants|
  {
    Decremented(s.(grants := s.grants[..k] + s.grants[k + 1..]), UsedOf(s, k, wish), free)
  }

  /** bev_group_refill_callback_. */
  function Refilled(plan: Plan, s: State, tick: nat, free: set<int>): State {
    var t := s.(level := Update(s.level, plan.cfg, tick));
    if t.pending || (t.suspended && t.level.limit >= plan.minShare) then Unsuspended(t, free) else t
  }

  /** bufferevent_add_to_rate_limit_group. */
  function Joined(s: State, m: int): State {
    s.(members := [m] + s.members, held := if s.suspended then s.held + {m} else s.held)
  }

  /** bufferevent_remove_from_rate_limit_group: what the member uses later is not charged
      to the group. */
  function Left(s: State, m: int): State {
    s.(members := Removed(s.members, m), held := s.held - {m}, grants := Without(s.grants, m))
  }

  function Without(grants: seq<Grant>, m: int): seq<Grant> {
    if grants == [] then []
    else if grants[0].member == m then Without(grants[1..], m)
    else [grants[0]] + Without(grants[1..], m)
  }

  /** What an action does; one that cannot happen does nothing. */
  function Next(plan: Plan, s: State, a: Action): State {
    match a
    case Ask(m) => if m in s.members then Asked(plan, s, m) else s
    case Charge(k, wish, free) => if k < |s.grants| then Charged(s, k, wish, free) else s
    case Refill(tick, free) => Refilled(plan, s, tick % TWO32, free)
    case Join(m) => if m in s.members then s else Joined(s, m)
    case Quit(m) => if m in s.members then Left(s, m) else s
  }

  /** bufferevent_rate_limit_group_new. */
  function Start(plan: Plan, tick: nat): State {
    State(Level(plan.cfg.rate, tick % TWO32), false, false, [], {}, [], 0)
  }

  function After(plan: Plan, tick: nat, actions: seq<Action>): State {
    if actions == [] then Start(plan, tick)
    else Next(plan, After(plan, tick, actions[..|actions| - 1]), actions[|actions| - 1])
  }

  /** What every run keeps: a group that is not suspended has tokens; the bucket has never
      been overdrawn by more than what was outstanding when a share was last told; a
      pending group is not suspended; and a member that is held is not forgotten. */
  ghost predicate Sound(plan: Plan, s: State) {
    && s.level.Fits() && s.level.limit <= plan.cfg.max
    && (!s.suspended ==> s.level.limit > 0)
    && s.level.limit + s.granted > Sum(s.grants)
    && (forall i :: 0 <= i < |s.grants| ==> s.grants[i].share <= plan.cfg.max)
    && (s.pending ==> !s.suspended)
    && Distinct(s.members)
    && (forall m :: m in s.held ==> m in s.members && (s.suspended || s.pending))
  }

  lemma {:induction false} SumWithout(grants: seq<Grant>, m: int)
    ensures Sum(Without(grants, m)) <= Sum(grants)
    ensures forall g :: g in Without(grants, m) ==> g in grants
  {
    if grants != [] {
      SumWithout(grants[1..], m);
      if grants[0].member != m {
        assert ([grants[0]] + Without(grants[1..], m))[1..] == Without(grants[1..], m);
      }
    }
  }

  lemma {:induction false} SumCut(grants: seq<Grant>, k: nat)
    requires k < |grants|
    ensures Sum(grants[..k] + grants[k + 1..]) == Sum(grants) - grants[k].share
  {
    if k == 0 {
      assert grants[..0] + grants[1..] == grants[1..];
    } else {
      SumCut(grants[1..], k - 1);
      assert (grants[..k] + grants[k + 1..])[1..] == grants[1..][..k - 1] + grants[1..][k..];
    }
  }

  lemma {:induction false} SumMore(grants: seq<Grant>, g: Grant)
    ensures Sum(grants + [g]) == Sum(grants) + g.share
  {
    if grants == [] {
      assert [g][1..] == [];
    } else {
      SumMore(grants[1..], g);
      assert (grants + [g])[1..] == grants[1..] + [g];
    }
  }

  /** A charge takes the limit below the 64-bit numbers, and round to above the maximum. */
  predicate Wraps(plan: Plan, s: State, a: Action) {
    && a.Charge? && a.k < |s.grants|
    && var left := s.level.limit - UsedOf(s, a.k, a.wish); left < -TWO63 && left + TWO64 > plan.cfg.max
  }

  lemma ChargedSound(plan: Plan, s: State, k: nat, wish: nat, free: set<int>)
    requires plan.Valid() && Sound(plan, s) && k < |s.grants|
    ensures Sound(plan, Charged(s, k, wish, free)) <==> !Wraps(plan, s, Charge(k, wish, free))
  {
    SumCut(s.grants, k);
    var left := s.level.limit - UsedOf(s, k, wish);
    if left < -TWO63 {
      assert (left + TWO63) % TWO64 == left + TWO63 + TWO64;
    }
    hide Signed64, Sum;
  }

  lemma RefilledSound(plan: Plan, s: State, tick: nat, free: set<int>)
    requires plan.Valid() && Sound(plan, s) && tick < TWO32
    ensures Sound(plan, Refilled(plan, s, tick, free))
    ensures Refilled(plan, s, tick, free).level.limit >= s.level.limit
  {
    UpdateExact(s.level, plan.cfg, tick);
  }

  lemma LeftSound(plan: Plan, s: State, m: int)
    requires plan.Valid() && Sound(plan, s) && m in s.members
    ensures Sound(plan, Left(s, m))
  {
    SumWithout(s.grants, m);
    RemovedMembers(s.members, m);
    var t := Left(s, m);
    forall i | 0 <= i < |t.grants| ensures t.grants[i].share <= plan.cfg.max {
      assert t.grants[i] in s.grants;
    }
  }

  lemma Part(limit: int, n: nat)
    requires limit > 0 && n > 0
    ensures 0 <= limit / n <= limit
  {
    Grows(1, n, limit / n);
  }

  /** Every action keeps it, but for a charge that wraps. */
  lemma NextSound(plan: Plan, s: State, a: Action)
    requires plan.Valid() && Sound(plan, s)
    ensures Sound(plan, Next(plan, s, a)) <==> !Wraps(plan, s, a)
  {
    hide Update, Removed, Sum, Charged;
    match a {
      case Ask(m) =>
        if m in s.members && !s.suspended {
          Part(s.level.limit, |s.members|);
          SumMore(s.grants, Grant(m, ShareOf(plan, s)));
        }
      case Charge(k, wish, free) =>
        if k < |s.grants| {
          ChargedSound(plan, s, k, wish, free);
        }
      case Refill(tick, free) => RefilledSound(plan, s, tick % TWO32, free);
      case Join(m) =>
      case Quit(m) => if m in s.members { LeftSound(plan, s, m); }
    }
  }

  /** Every state of a run is sound. */
  ghost predicate AllSound(plan: Plan, tick: nat, actions: seq<Action>) {
    && Sound(plan, After(plan, tick, actions))
    && (actions != [] ==> AllSound(plan, tick, actions[..|actions| - 1]))
  }

  /** No charge of a run wraps. */
  ghost predicate NoneWraps(plan: Plan, tick: nat, actions: seq<Action>) {
    forall i :: 0 <= i < |actions| ==> !Wraps(plan, After(plan, tick, actions[..i]), actions[i])
  }

  lemma NoneWrapsStep(plan: Plan, tick: nat, actions: seq<Action>)
    requires actions != []
    ensures var n := |actions| - 1;
            NoneWraps(plan, tick, actions) <==>
            NoneWraps(plan, tick, actions[..n]) && !Wraps(plan, After(plan, tick, actions[..n]), actions[n])
  {
    hide Wraps, After;
    var n := |actions| - 1;
    assert forall i :: 0 <= i < n ==> actions[..n][..i] == actions[..i] && actions[..n][i] == actions[i];
  }

  /** In all states of a run, with shares asked for and charged in any order: an
      unsuspended group has tokens; the bucket is overdrawn by less than what was
      outstanding when a share was last told; a pending group is not suspended; a member is
      held only while the group is suspended or pending. This is so if and only if no
      charge wraps. */
  lemma {:induction false} RunSound(plan: Plan, tick: nat, actions: seq<Action>)
    requires plan.Valid()
    ensures AllSound(plan, tick, actions) <==> NoneWraps(plan, tick, actions)
    ensures NoneWraps(plan, tick, actions) ==>
              After(plan, tick, actions).level.limit + After(plan, tick, actions).granted > 0
  {
    hide Next, Wraps;
    if actions != [] {
      var front := actions[..|actions| - 1];
      RunSound(plan, tick, front);
      if NoneWraps(plan, tick, front) {
        NextSound(plan, After(plan, tick, front), actions[|actions| - 1]);
      }
      NoneWrapsStep(plan, tick, actions);
    }
  }

  // ----- what each step is for -----

  /** The shares that a member was told and not charged for, in order. */
  function SharesOf(grants: seq<Grant>, m: int): seq<nat> {
    if grants == [] then []
    else (if grants[0].member == m then [grants[0].share] else []) + SharesOf(grants[1..], m)
  }

  /** Asking: a member of a suspended group is held and told nothing. Else it is told an equal
      part of what is left, rounded down, but at least the least share. */
  lemma AskLaw(plan: Plan, s: State, m: int)
    requires plan.Valid() && Sound(plan, s) && m in s.members
    ensures var t := Next(plan, s, Ask(m));
            && t.level == s.level && t.members == s.members && t.suspended == s.suspended && t.pending == s.pending
            && (s.suspended ==> m in t.held && t.grants == s.grants && t.held == s.held + {m})
            && (!s.suspended ==>
                  && t.held == s.held && |t.grants| == |s.grants| + 1 && t.grants[..|s.grants|] == s.grants
                  && var g, n := t.grants[|s.grants|], |s.members|;
                     && g.member == m && g.share >= plan.minShare && (g.share + 1) * n > s.level.limit
                     && (g.share == plan.minShare || g.share * n <= s.level.limit))
  {
    if !s.suspended {
      Quotient(s.level.limit, |s.members|);
      var part := s.level.limit / |s.members|;
      if part < plan.minShare {
        Grows(part + 1, plan.minShare + 1, |s.members|);
      }
    }
  }

  lemma Quotient(x: nat, n: nat)
    requires n > 0
    ensures x / n * n <= x < (x / n + 1) * n
  {
  }

  /** A charge is for no more than the share, takes that off the bucket and uses the share up.
      An empty bucket suspends the group: every member whose lock can be had is held. A bucket
      with tokens lets a suspended group go: every one whose lock can be had is let go, and the
      group is pending if there are others. */
  lemma ChargeLaw(plan: Plan, s: State, k: nat, wish: nat, free: set<int>)
    requires k < |s.grants| && s.level.Fits() && s.level.limit - s.grants[k].share >= -TWO63
    ensures var t, used := Next(plan, s, Charge(k, wish, free)), UsedOf(s, k, wish);
            && used <= wish && used <= s.grants[k].share && (used == wish || used == s.grants[k].share)
            && t.level.limit == s.level.limit - used && t.level.last == s.level.last && t.members == s.members
            && t.grants == s.grants[..k] + s.grants[k + 1..]
            && (t.level.limit <= 0 ==>
                  t.suspended && !t.pending && s.held <= t.held && forall m :: m in s.members && m in free ==> m in t.held)
            && (t.level.limit > 0 ==> !t.suspended && t.held <= s.held)
            && (t.level.limit > 0 && s.suspended ==>
                  (forall m :: m in s.members && m in free ==> m !in t.held) && (t.pending <==> exists m :: m in s.members && m !in free))
            && (t.level.limit > 0 && !s.suspended ==> t.held == s.held && t.pending == s.pending)
  {
    MembersAre(s.members, free);
    assert Signed64(s.level.limit - UsedOf(s, k, wish)) == s.level.limit - UsedOf(s, k, wish);
    hide Signed64, Members;
  }

  lemma MembersAre(q: seq<int>, free: set<int>)
    ensures forall m :: m in Members(q) <==> m in q
    ensures Members(q) <= free <==> !exists m :: m in q && m !in free
  {
    if forall m :: m in q ==> m in free {
      assert forall m :: m in Members(q) ==> m in free;
    } else {
      var m :| m in q && m !in free;
      assert m in Members(q);
    }
  }

  /** A refill updates the bucket, and lets the group go if it was pending or now has a
      share. */
  lemma RefillLaw(plan: Plan, s: State, tick: nat, free: set<int>)
    ensures var t := Next(plan, s, Refill(tick, free));
            && t.level == Update(s.level, plan.cfg, tick % TWO32) && t.members == s.members && t.grants == s.grants
            && (if s.pending || (s.suspended && t.level.limit >= plan.minShare)
                then !t.suspended && t.held <= s.held && (forall m :: m in s.members && m in free ==> m !in t.held)
                     && (t.pending <==> exists m :: m in s.members && m !in free)
                else t.held == s.held && t.suspended == s.suspended && t.pending == s.pending)
  {
    MembersAre(s.members, free);
    hide Update, Members;
  }

  /** A member comes, held if the group is suspended, or goes with what it was told; others
      are not concerned. */
  lemma JoinQuitLaw(plan: Plan, s: State, m: int, x: int)
    requires Distinct(s.members)
    ensures var t := Next(plan, s, Join(m));
            && (x in t.members <==> x in s.members || x == m) && t.grants == s.grants && t.level == s.level
            && (x in t.held <==> x in s.held || (x == m && s.suspended && m !in s.members))
    ensures var t := Next(plan, s, Quit(m));
            && (x in t.members <==> x in s.members && x != m) && t.level == s.level
            && (m in s.members ==> (x in t.held <==> x in s.held && x != m)
                                   && SharesOf(t.grants, x) == if x == m then [] else SharesOf(s.grants, x))
  {
    if m in s.members { RemovedMembers(s.members, m); }
    SharesWithout(s.grants, m, x);
  }

  lemma {:induction false} SharesWithout(grants: seq<Grant>, m: int, x: int)
    ensures SharesOf(Without(grants, m), x) == if x == m then [] else SharesOf(grants, x)
  {
    if grants != [] {
      SharesWithout(grants[1..], m, x);
      if grants[0].member != m {
        assert ([grants[0]] + Without(grants[1..], m))[1..] == Without(grants[1..], m);
      }
    }
  }

  /** Whether the last call about a member let it in. */
  function JoinedLast(actions: seq<Action>, m: int): bool {
    if actions == [] then false
    else
      var a := actions[|actions| - 1];
      if a == Join(m) then true else if a == Quit(m) then false else JoinedLast(actions[..|actions| - 1], m)
  }

  /** The members after a run are those that came and did not go. */
  lemma {:induction false} RunMembers(plan: Plan, tick: nat, actions: seq<Action>, m: int)
    ensures Distinct(After(plan, tick, actions).members)
    ensures m in After(plan, tick, actions).members <==> JoinedLast(actions, m)
  {
    if actions != [] {
      var n := |actions| - 1;
      RunMembers(plan, tick, actions[..n], m);
      MembersNext(plan, After(plan, tick, actions[..n]), actions[n], m);
    }
  }

  lemma MembersNext(plan: Plan, s: State, a: Action, m: int)
    requires Distinct(s.members)
    ensures Distinct(Next(plan, s, a).members)
    ensures m in Next(plan, s, a).members <==> a == Join(m) || (a != Quit(m) && m in s.members)
  {
    hide Update, Signed64, Without;
    if a.Quit? && a.m in s.members {
      RemovedMembers(s.members, a.m);
    }
  }

  // ----- not below minus a share -----

  /** Even after what is outstanding, the bucket is above minus a share. */
  ghost predicate Tight(plan: Plan, s: State) {
    s.level.limit + plan.minShare > Sum(s.grants)
  }

  /** A share can be told: with what is outstanding it does not take the bucket down to
      minus a share. */
  predicate Roomy(plan: Plan, s: State, a: Action) {
    a.Ask? && a.m in s.members && !s.suspended ==> Sum(s.grants) + ShareOf(plan, s) < s.level.limit + plan.minShare
  }

  lemma {:induction false} ShareInSum(grants: seq<Grant>, k: nat)
    requires k < |grants|
    ensures grants[k].share <= Sum(grants)
  {
    if k > 0 {
      ShareInSum(grants[1..], k - 1);
    }
  }

  /** Being charged keeps a bucket tight, and does not wrap. */
  lemma ChargedTight(plan: Plan, s: State, k: nat, wish: nat, free: set<int>)
    requires plan.Valid() && s.level.Fits() && Tight(plan, s) && k < |s.grants|
    ensures Tight(plan, Charged(s, k, wish, free)) && Charged(s, k, wish, free).level.Fits()
    ensures !Wraps(plan, s, Charge(k, wish, free))
  {
    SumCut(s.grants, k);
    ShareInSum(s.grants, k);
    hide Sum;
    assert Signed64(s.level.limit - UsedOf(s, k, wish)) == s.level.limit - UsedOf(s, k, wish);
  }

  /** An action keeps a bucket tight if and only if it is not asking for a share that
      there is no room for. */
  lemma NextTight(plan: Plan, s: State, a: Action)
    requires plan.Valid() && Sound(plan, s) && Tight(plan, s)
    ensures Tight(plan, Next(plan, s, a)) <==> Roomy(plan, s, a)
    ensures Sound(plan, Next(plan, s, a))
  {
    NextSound(plan, s, a);
    hide Update, Removed, Sum, Charged;
    match a {
      case Ask(m) => if m in s.members { SumMore(s.grants, Grant(m, ShareOf(plan, s))); }
      case Charge(k, wish, free) => if k < |s.grants| { ChargedTight(plan, s, k, wish, free); }
      case Refill(tick, free) => RefilledSound(plan, s, tick % TWO32, free);
      case Join(m) =>
      case Quit(m) => SumWithout(s.grants, m);
    }
  }

  /** Every state of a run is tight. */
  ghost predicate AllTight(plan: Plan, tick: nat, actions: seq<Action>) {
    && Tight(plan, After(plan, tick, actions))
    && (actions != [] ==> AllTight(plan, tick, actions[..|actions| - 1]))
  }

  /** Shares are only told when there is room. */
  ghost predicate AllRoomy(plan: Plan, tick: nat, actions: seq<Action>) {
    forall i :: 0 <= i < |actions| ==> Roomy(plan, After(plan, tick, actions[..i]), actions[i])
  }

  lemma AllRoomyStep(plan: Plan, tick: nat, actions: seq<Action>)
    requires actions != []
    ensures var n := |actions| - 1;
            AllRoomy(plan, tick, actions) <==>
            AllRoomy(plan, tick, actions[..n]) && Roomy(plan, After(plan, tick, actions[..n]), actions[n])
  {
    hide Roomy, After;
    var n := |actions| - 1;
    assert forall i :: 0 <= i < n ==> actions[..n][..i] == actions[..i] && actions[..n][i] == actions[i];
  }

  /** All states of a run are tight if and only if shares are only told when there is
      room. Then the bucket is above minus a share, and no charge wraps. */
  lemma {:induction false} RunTight(plan: Plan, tick: nat, actions: seq<Action>)
    requires plan.Valid()
    ensures AllTight(plan, tick, actions) <==> AllRoomy(plan, tick, actions)
    ensures AllRoomy(plan, tick, actions) ==>
              && Sound(plan, After(plan, tick, actions))
              && After(plan, tick, actions).level.limit + plan.minShare > 0
  {
    hide Next, Roomy;
    if actions != [] {
      var front := actions[..|actions| - 1];
      RunTight(plan, tick, front);
      if AllRoomy(plan, tick, front) {
        NextTight(plan, After(plan, tick, front), actions[|actions| - 1]);
      }
      AllRoomyStep(plan, tick, actions);
    }
  }

  /** The state after some more charges, each a share and how much of it was used. */
  function Paid(s: State, charges: seq<(nat, nat)>): State
    decreases |charges|
  {
    if charges == [] then s
    else
      var (k, wish) := charges[0];
      Paid(if k < |s.grants| then Charged(s, k, wish, {}) else s, charges[1..])
  }

  /** However what is outstanding is used, the bucket stays above minus a share. */
  ghost predicate StaysAbove(plan: Plan, s: State) {
    forall charges: seq<(nat, nat)> :: Paid(s, charges).level.limit + plan.minShare > 0
  }

  lemma {:induction false} TightPaid(plan: Plan, s: State, charges: seq<(nat, nat)>)
    requires plan.Valid() && s.level.Fits() && Tight(plan, s)
    ensures Paid(s, charges).level.limit + plan.minShare > 0
    decreases |charges|
  {
    hide Charged, Sum;
    if charges != [] {
      var (k, wish) := charges[0];
      if k < |s.grants| {
        ChargedTight(plan, s, k, wish, {});
      }
      TightPaid(plan, if k < |s.grants| then Charged(s, k, wish, {}) else s, charges[1..]);
    }
  }

  /** How the members of a bucket that is not tight take it down to minus a share: each
      uses its share, until one can do so alone. */
  function Overdraft(plan: Plan, s: State): seq<(nat, nat)>
    decreases |s.grants|
  {
    if s.grants == [] || s.level.limit + plan.minShare <= 0 then []
    else if s.grants[0].share >= s.level.limit + plan.minShare then [(0, s.level.limit + plan.minShare)]
    else [(0, s.grants[0].share)] + Overdraft(plan, Charged(s, 0, s.grants[0].share, {}))
  }

  lemma {:induction false} Overdrawn(plan: Plan, s: State)
    requires plan.Valid() && s.level.Fits() && !Tight(plan, s)
    ensures Paid(s, Overdraft(plan, s)).level.limit + plan.minShare <= 0
    decreases |s.grants|
  {
    if s.grants != [] && s.level.limit + plan.minShare > 0 {
      var share := s.grants[0].share;
      if share >= s.level.limit + plan.minShare {
        var low: int := 0 - plan.minShare;
        assert Signed64(low) == low;
      } else {
        var t := Charged(s, 0, share, {});
        assert Signed64(s.level.limit - share) == s.level.limit - share;
        SumCut(s.grants, 0);
        Overdrawn(plan, t);
        assert ([(0, share)] + Overdraft(plan, t))[1..] == Overdraft(plan, t);
      }
    }
  }

  /** The bucket stays above minus a share, however what is outstanding is used, if and
      only if it is tight. */
  lemma TightExact(plan: Plan, s: State)
    requires plan.Valid() && s.level.Fits()
    ensures StaysAbove(plan, s) <==> Tight(plan, s)
  {
    if Tight(plan, s) {
      forall charges: seq<(nat, nat)> ensures Paid(s, charges).level.limit + plan.minShare > 0 {
        TightPaid(plan, s, charges);
      }
    } else {
      Overdrawn(plan, s);
    }
  }

  lemma {:induction false} RunFits(plan: Plan, tick: nat, actions: seq<Action>)
    requires plan.Valid()
    ensures After(plan, tick, actions).level.Fits()
  {
    hide Removed;
    if actions != [] {
      var n := |actions| - 1;
      RunFits(plan, tick, actions[..n]);
      if actions[n].Refill? {
        UpdateExact(After(plan, tick, actions[..n]).level, plan.cfg, actions[n].tick % TWO32);
      }
      hide Update, Signed64;
    }
  }

  /** From every state of a run the bucket stays above minus a share, however what is
      outstanding is used. */
  ghost predicate AllAbove(plan: Plan, tick: nat, actions: seq<Action>) {
    && StaysAbove(plan, After(plan, tick, actions))
    && (actions != [] ==> AllAbove(plan, tick, actions[..|actions| - 1]))
  }

  /** That is so if and only if shares are only told when there is room. */
  lemma RunStaysAbove(plan: Plan, tick: nat, actions: seq<Action>)
    requires plan.Valid()
    ensures AllAbove(plan, tick, actions) <==> AllRoomy(plan, tick, actions)
  {
    RunTight(plan, tick, actions);
    AboveIsTight(plan, tick, actions);
  }

  lemma {:induction false} AboveIsTight(plan: Plan, tick: nat, actions: seq<Action>)
    requires plan.Valid()
    ensures AllAbove(plan, tick, actions) <==> AllTight(plan, tick, actions)
  {
    hide StaysAbove, Tight, After;
    RunFits(plan, tick, actions);
    TightExact(plan, After(plan, tick, actions));
    if actions != [] {
      AboveIsTight(plan, tick, actions[..|actions| - 1]);
    }
  }

  /** No member asks while another still has a share that it was not charged for. */
  ghost predicate OneAtATime(plan: Plan, tick: nat, actions: seq<Action>) {
    forall i :: 0 <= i < |actions| && actions[i].Ask? ==> After(plan, tick, actions[..i]).grants == []
  }

  /** Then there is always room. */
  lemma {:induction false} OneHasRoom(plan: Plan, tick: nat, actions: seq<Action>)
    requires plan.Valid() && OneAtATime(plan, tick, actions)
    ensures AllRoomy(plan, tick, actions)
  {
    if actions != [] {
      var n := |actions| - 1;
      var front := actions[..n];
      forall i | 0 <= i < n && front[i].Ask? ensures After(plan, tick, front[..i]).grants == [] {
        assert front[..i] == actions[..i] && front[i] == actions[i];
      }
      OneHasRoom(plan, tick, front);
      RunTight(plan, tick, front);
      var s := After(plan, tick, front);
      if actions[n].Ask? && actions[n].m in s.members && !s.suspended {
        Part(s.level.limit, |s.members|);
      }
      AllRoomyStep(plan, tick, actions);
    }
  }

  /** A run without room: with a share as large as the rate, two members ask before
      either is charged, and both use all of it. */
  lemma TwoAtOnce(plan: Plan, tick: nat)
    requires plan.Valid() && plan.minShare == plan.cfg.rate
    ensures var pay := Charge(0, plan.minShare, {});
            var asked := [Join(1), Join(2), Ask(1), Ask(2)];
            && !Roomy(plan, After(plan, tick, asked[..3]), asked[3])
            && After(plan, tick, asked + [pay] + [pay]).level.limit + plan.minShare == 0
  {
    hide Next, After, Roomy, ShareOf;
    var m := plan.minShare;
    var pay := Charge(0, m, {});
    var asked := [Join(1), Join(2), Ask(1), Ask(2)];
    var g, h := Grant(1, m), Grant(2, m);
    BothJoined(plan, tick);
    var two := After(plan, tick, asked[..2]);
    assert asked[..2] == [Join(1), Join(2)];
    OneAsks(plan, two, 1);
    OneMoreAction(plan, tick, asked[..2], Ask(1));
    assert asked[..2] + [Ask(1)] == asked[..3] && [] + [g] == [g];
    var three := After(plan, tick, asked[..3]);
    OneAsks(plan, three, 2);
    SumMore([], g);
    NoRoom(plan, three, 2);
    OneMoreAction(plan, tick, asked[..3], Ask(2));
    assert asked[..3] + [Ask(2)] == asked && [g] + [h] == [g, h];
    OnePays(plan, After(plan, tick, asked));
    OneMoreAction(plan, tick, asked, pay);
    OnePays(plan, After(plan, tick, asked + [pay]));
    OneMoreAction(plan, tick, asked + [pay], pay);
  }

  lemma NoRoom(plan: Plan, s: State, m: int)
    requires m in s.members && !s.suspended && Sum(s.grants) + ShareOf(plan, s) >= s.level.limit + plan.minShare
    ensures !Roomy(plan, s, Ask(m))
  {
  }

  lemma OneMoreAction(plan: Plan, tick: nat, actions: seq<Action>, a: Action)
    ensures After(plan, tick, actions + [a]) == Next(plan, After(plan, tick, actions), a)
  {
    assert (actions + [a])[..|actions|] == actions;
  }

  lemma BothJoined(plan: Plan, tick: nat)
    ensures After(plan, tick, [Join(1), Join(2)]) == State(Level(plan.cfg.rate, tick % TWO32), false, false, [2, 1], {}, [], 0)
  {
    OneMoreAction(plan, tick, [], Join(1));
    OneMoreAction(plan, tick, [Join(1)], Join(2));
    assert [] + [Join(1)] == [Join(1)] && [Join(1)] + [Join(2)] == [Join(1), Join(2)];
  }

  lemma OneAsks(plan: Plan, s: State, m: int)
    requires plan.Valid() && s.members == [2, 1] && m in s.members && !s.suspended && s.level.limit == plan.minShare
    ensures ShareOf(plan, s) == plan.minShare
    ensures Next(plan, s, Ask(m)) == s.(grants := s.grants + [Grant(m, plan.minShare)], granted := Sum(s.grants) + plan.minShare)
  {
    Part(s.level.limit, 2);
    SumMore(s.grants, Grant(m, plan.minShare));
  }

  lemma OnePays(plan: Plan, s: State)
    requires s.grants != [] && s.grants[0].share == plan.minShare
    requires -TWO63 <= s.level.limit - plan.minShare < TWO63
    ensures var t := Next(plan, s, Charge(0, plan.minShare, {}));
            t.level.limit == s.level.limit - plan.minShare && t.grants == s.grants[1..]
  {
    assert s.grants[..0] + s.grants[1..] == s.grants[1..];
  }

  /** A run in which a charge wraps: shares of 2^62 are told four times before the first is
      charged, three are used, and one byte of the fourth makes the limit 2^63 - 1. */
  lemma WrapRun(tick: nat)
    ensures var m := 0x4000_0000_0000_0000;
            var plan, pay, ask := Plan(Cfg(m, m), m), Charge(0, m, {}), Ask(1);
            var run := [Join(1), Join(2)] + [ask] + [ask] + [ask] + [ask] + [pay] + [pay] + [pay];
            && plan.Valid() && Wraps(plan, After(plan, tick, run), Charge(0, 1, {}))
            && !AllSound(plan, tick, run + [Charge(0, 1, {})])
  {
    hide After, ShareOf, Sum, Next, Wraps, Sound;
    var m := 0x4000_0000_0000_0000;
    var plan, pay, ask := Plan(Cfg(m, m), m), Charge(0, m, {}), Ask(1);
    var r0: seq<Action> := [Join(1), Join(2)];
    BothJoined(plan, tick);
    var r1 := r0 + [ask];
    OneAsks(plan, After(plan, tick, r0), 1);
    OneMoreAction(plan, tick, r0, ask);
    var r2 := r1 + [ask];
    OneAsks(plan, After(plan, tick, r1), 1);
    OneMoreAction(plan, tick, r1, ask);
    var r3 := r2 + [ask];
    OneAsks(plan, After(plan, tick, r2), 1);
    OneMoreAction(plan, tick, r2, ask);
    var r4 := r3 + [ask];
    OneAsks(plan, After(plan, tick, r3), 1);
    OneMoreAction(plan, tick, r3, ask);
    var r5 := r4 + [pay];
    OnePays(plan, After(plan, tick, r4));
    OneMoreAction(plan, tick, r4, pay);
    var r6 := r5 + [pay];
    OnePays(plan, After(plan, tick, r5));
    OneMoreAction(plan, tick, r5, pay);
    var r7 := r6 + [pay];
    OnePays(plan, After(plan, tick, r6));
    OneMoreAction(plan, tick, r6, pay);
    LastByteWraps(plan, After(plan, tick, r7));
    RunSound(plan, tick, r7 + [Charge(0, 1, {})]);
    NoneWrapsStep(plan, tick, r7 + [Charge(0, 1, {})]);
    assert (r7 + [Charge(0, 1, {})])[..|r7|] == r7;
  }

  lemma LastByteWraps(plan: Plan, s: State)
    requires s.grants != [] && s.grants[0].share > 0 && s.level.limit == -TWO63 && plan.cfg.max < TWO63 - 1
    ensures Wraps(plan, s, Charge(0, 1, {}))
  {
  }

  // ----- refills -----

  /** Refills that cover enough ticks bring any bucket back to a share. */
  lemma TicksSuffice(limit: int, plan: Plan, n1: nat, n2: nat)
    requires plan.Valid() && limit <= plan.cfg.max && limit + (n1 + n2) * plan.cfg.rate >= plan.minShare
    ensures Naive(Naive(limit, plan.cfg, n1), plan.cfg, n2) >= plan.minShare
  {
    assert (n1 + n2) * plan.cfg.rate == n1 * plan.cfg.rate + n2 * plan.cfg.rate;
    Grows(0, n2, plan.cfg.rate);
  }

  /** Two refills lift a suspension if together they cover enough ticks; two ticks are
      enough for a bucket that is above minus a share. */
  lemma RefillsLift(plan: Plan, s: State, t1: nat, t2: nat, free: set<int>)
    requires plan.Valid() && Sound(plan, s) && t1 < TWO32 && t2 < TWO32
    requires var n1, n2 := Counted(t1, s.level.last), Counted(t2, Update(s.level, plan.cfg, t1).last);
             || s.level.limit + (n1 + n2) * plan.cfg.rate >= plan.minShare
             || (s.level.limit + plan.minShare > 0 && n1 + n2 >= 2)
    ensures !Refilled(plan, Refilled(plan, s, t1, free), t2, free).suspended
  {
    hide Update, Counted;
    var n1, n2 := Counted(t1, s.level.last), Counted(t2, Update(s.level, plan.cfg, t1).last);
    UpdateExact(s.level, plan.cfg, t1);
    RefilledSound(plan, s, t1, free);
    UpdateExact(Update(s.level, plan.cfg, t1), plan.cfg, t2);
    if n1 + n2 >= 2 {
      Grows(2, n1 + n2, plan.cfg.rate);
    }
    TicksSuffice(s.level.limit, plan, n1, n2);
  }

  // ----- in place -----

  /** Member by member from a random one on: those whose lock can be had are let go. */
  method LetGo(ms: seq<int>, held0: set<int>, free: set<int>, first: nat) returns (held: set<int>, again: bool)
    requires first <= |ms|
    ensures held == held0 - Members(ms) * free && (again <==> !(Members(ms) <= free))
  {
    held, again := held0, false;
    for i := first to |ms|
      invariant held == held0 - Members(ms[first..i]) * free
      invariant again <==> !(Members(ms[first..i]) <= free)
    {
      OneMore(ms, first, i);
      if ms[i] in free { held := held - {ms[i]}; } else { again := true; }
    }
    assert ms[first..|ms|] == ms[first..];
    for i := 0 to first
      invariant held == held0 - (Members(ms[first..]) + Members(ms[0..i])) * free
      invariant again <==> !(Members(ms[first..]) + Members(ms[0..i]) <= free)
    {
      OneMore(ms, 0, i);
      if ms[i] in free { held := held - {ms[i]}; } else { again := true; }
    }
    assert ms == ms[0..first] + ms[first..];
    assert Members(ms) == Members(ms[first..]) + Members(ms[0..first]);
  }

  lemma OneMore(ms: seq<int>, lo: nat, i: nat)
    requires lo <= i < |ms|
    ensures Members(ms[lo..i + 1]) == Members(ms[lo..i]) + {ms[i]}
  {
    assert ms[lo..i + 1] == ms[lo..i] + [ms[i]];
  }

  class Group {
    const plan: Plan
    var state: State

    /** bufferevent_rate_limit_group_new. */
    constructor (plan: Plan, tick: nat)
      ensures this.plan == plan && state == Start(plan, tick)
    {
      this.plan, this.state := plan, Start(plan, tick);
    }

    /** bev_group_suspend_reading_, member by member. */
    method SuspendAll(free: set<int>)
      modifies this`state
      ensures state == Suspended(old(state), free)
    {
      var held := state.held;
      for i := 0 to |state.members|
        invariant state == old(state) && held == state.held + Members(state.members[..i]) * free
      {
        assert Members(state.members[..i + 1]) == Members(state.members[..i]) + {state.members[i]};
        if state.members[i] in free {
          held := held + {state.members[i]};
        }
      }
      assert state.members[..|state.members|] == state.members;
      state := state.(suspended := true, pending := false, held := held);
    }

    /** bev_group_unsuspend_reading_. */
    method UnsuspendAll(free: set<int>, first: nat)
      requires first <= |state.members|
      modifies this`state
      ensures state == Unsuspended(old(state), free)
    {
      var held, again := LetGo(state.members, state.held, free, first);
      state := state.(suspended := false, pending := again, held := held);
    }

    /** One action, with a random member to start at. */
    method Do(a: Action, random: nat)
      modifies this`state
      ensures state == Next(plan, old(state), a)
    {
      match a {
        case Ask(m) => if m in state.members { state := Asked(plan, state, m); }
        case Charge(k, wish, free) =>
          if k < |state.grants| {
            var bytes := UsedOf(state, k, wish);
            state := state.(grants := state.grants[..k] + state.grants[k + 1..],
                            level := state.level.(limit := Signed64(state.level.limit - bytes)));
            if state.level.limit <= 0 {
              SuspendAll(free);
            } else if state.suspended {
              UnsuspendAll(free, random % (|state.members| + 1));
            }
          }
        case Refill(tick, free) =>
          state := state.(level := Update(state.level, plan.cfg, tick % TWO32));
          if state.pending || (state.suspended && state.level.limit >= plan.minShare) {
            UnsuspendAll(free, random % (|state.members| + 1));
          }
        case Join(m) => if m !in state.members { state := Joined(state, m); }
        case Quit(m) => if m in state.members { state := Left(state, m); }
      }
    }
  }

  /** A run on a group goes through the states of the run. */
  method Run(plan: Plan, tick: nat, actions: seq<Action>, randoms: seq<nat>) returns (g: Group)
    requires |randoms| == |actions|
    ensures fresh(g) && g.plan == plan && g.state == After(plan, tick, actions)
  {
    hide Next;
    g := new Group(plan, tick);
    for i := 0 to |actions|
      invariant fresh(g) && g.plan == plan && g.state == After(plan, tick, actions[..i])
    {
      assert actions[..i + 1][..i] == actions[..i];
      g.Do(actions[i], randoms[i]);
    }
    assert actions[..|actions|] == actions;
  }
}
