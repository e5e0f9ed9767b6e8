/** The epoll backend of libevent: the table that turns a pending change of
    interest into one epoll_ctl call, and how that call is carried out
    (libevent/epolltable-internal.h, libevent/epoll.c). */
module Epoll {
  import EpollTable

  datatype Kind = Read | Write | Close

  type Interest = set<Kind>

  /** The kernel's registrations. */
  type Kernel = map<int, Interest>

  /** EV_CHANGE_ADD, EV_CHANGE_DEL. */
  const CHANGE_ADD: nat := 1
  const CHANGE_DEL: nat := 2

  const CTL_NONE: nat := 0
  const CTL_ADD: nat := 1
  const CTL_DEL: nat := 2
  const CTL_MOD: nat := 3
  const CTL_INVALID: nat := 255

  /** A bit pair: EV_CHANGE_ADD and EV_CHANGE_DEL. */
  type Bits = n: nat | n < 4

  /** A struct event_change, without the edge-triggered flag. */
  datatype Change = Change(fd: int, before: Interest, read: Bits, write: Bits, close: Bits) {
    function Get(k: Kind): Bits {
      match k
      case Read => read
      case Write => write
      case Close => close
    }

    predicate Sets(b: Bits) {
      read == b || write == b || close == b
    }

    /** No kind is to be added and deleted at once. */
    predicate Sane() {
      read < 3 && write < 3 && close < 3
    }

    /** The interest the change asks for. */
    function Target(): Interest {
      set k: Kind | Get(k) == CHANGE_ADD || (Get(k) == 0 && k in before)
    }
  }

  datatype Row = Row(events: Interest, op: nat)

  /** EPOLL_OP_TABLE_INDEX. */
  function TableIndex(c: Change): nat {
    c.close + 4 * c.read + 16 * c.write
    + (if Read in c.before then 64 else 0) + (if Write in c.before then 128 else 0) + (if Close in c.before then 256 else 0)
  }

  /** A row of epoll_op_table, from the number it is kept as. */
  function RowOf(n: nat): Row {
    Row(Kinds(n % 10), if n / 10 == 7 then CTL_INVALID else n / 10)
  }

  /** The kinds in three bits. */
  function Kinds(bits: nat): Interest {
    (if bits % 2 == 1 then {Read} else {}) + (if bits / 2 % 2 == 1 then {Write} else {}) + (if bits / 4 == 1 then {Close} else {})
  }

  /** The bits of some kinds. */
  function BitsOf(kinds: Interest): nat {
    Bit(Read in kinds) + 2 * Bit(Write in kinds) + 4 * Bit(Close in kinds)
  }

  function Bit(b: bool): nat {
    if b then 1 else 0
  }

  /** epoll_op_table. */
  function OpTable(idx: nat): Row
    requires idx < 512
  {
    RowOf(EpollTable.Entry(idx / 64, idx / 16 % 4, idx / 4 % 4, idx % 4))
  }

  /** The rule of the table: what to tell the kernel about a change. */
  function Decide(c: Change): Row
  {
    if c.Sets(3) then Row({}, CTL_INVALID)
    else if c.Sets(CHANGE_ADD) then
      Row(c.Target(), if c.before == {} then CTL_ADD else CTL_MOD)
    else if c.Sets(CHANGE_DEL) then
      var remaining := set k: Kind | k in c.before && c.Get(k) != CHANGE_DEL;
      if remaining != {} then Row(remaining, CTL_MOD)
      else Row((set k: Kind | c.Get(k) == CHANGE_DEL), CTL_DEL)
    else Row({}, CTL_NONE)
  }

  /** The index tells all changes apart: its digits are the old events and the three
      changes. */
  lemma IndexDecodes(c: Change)
    ensures TableIndex(c) < 512
    ensures TableIndex(c) / 64 == BitsOf(c.before) && TableIndex(c) / 16 % 4 == c.write
    ensures TableIndex(c) / 4 % 4 == c.read && TableIndex(c) % 4 == c.close
  {
    Digits(BitsOf(c.before), c.write, c.read, c.close);
    assert TableIndex(c) == c.close + 4 * (c.read + 4 * (c.write + 4 * BitsOf(c.before)));
  }

  lemma Digits(b: nat, w: nat, r: nat, x: nat)
    requires b < 8 && w < 4 && r < 4 && x < 4
    ensures var i := x + 4 * (r + 4 * (w + 4 * b)); i < 512 && i / 64 == b && i / 16 % 4 == w && i / 4 % 4 == r && i % 4 == x
  {
  }

  /** The row that the table has for a change is the one that the rule gives. */
  lemma TableDecides(c: Change)
    ensures TableIndex(c) < 512 && OpTable(TableIndex(c)) == Decide(c)
  {
    IndexDecodes(c);
    BitsBack(c.before);
    EpollTable.EntryIsRule(BitsOf(c.before), c.write, c.read, c.close);
    RuleDecides(c);
  }

  lemma BitsBack(kinds: Interest)
    ensures BitsOf(kinds) < 8 && Kinds(BitsOf(kinds)) == kinds
    ensures BitsOf(kinds) % 2 == Bit(Read in kinds) && BitsOf(kinds) / 2 % 2 == Bit(Write in kinds)
    ensures BitsOf(kinds) / 4 == Bit(Close in kinds)
    ensures BitsOf(kinds) == 0 <==> kinds == {}
  {
    var m := Kinds(BitsOf(kinds));
    forall k: Kind ensures k in m <==> k in kinds {
      match k case Read => case Write => case Close =>
    }
    if BitsOf(kinds) == 0 {
      assert forall k: Kind :: k !in kinds;
    }
  }

  lemma RowOfParts(op: nat, kinds: Interest)
    requires op < 4
    ensures RowOf(10 * op + BitsOf(kinds)) == Row(kinds, op)
  {
    BitsBack(kinds);
    hide Kinds, BitsOf;
    assert (10 * op + BitsOf(kinds)) % 10 == BitsOf(kinds) && (10 * op + BitsOf(kinds)) / 10 == op;
  }

  /** The rule in bits is the rule in sets. */
  lemma RuleDecides(c: Change)
    ensures RowOf(EpollTable.Rule(BitsOf(c.before), c.write, c.read, c.close)) == Decide(c)
  {
    if c.Sets(3) {
      assert RowOf(70) == Row({}, CTL_INVALID);
    } else if c.Sets(CHANGE_ADD) {
      RuleAdds(c);
      hide EpollTable.Rule, BitsOf, RowOf;
      RowOfParts(if c.before == {} then CTL_ADD else CTL_MOD, c.Target());
    } else if c.Sets(CHANGE_DEL) {
      var left := set k: Kind | k in c.before && c.Get(k) != CHANGE_DEL;
      var gone := set k: Kind | c.Get(k) == CHANGE_DEL;
      RuleDeletes(c, left, gone);
      hide EpollTable.Rule, BitsOf, RowOf;
      RowOfParts(CTL_MOD, left);
      RowOfParts(CTL_DEL, gone);
    } else {
      RowOfParts(CTL_NONE, {});
    }
  }

  lemma RuleAdds(c: Change)
    requires c.Sane() && c.Sets(CHANGE_ADD)
    ensures EpollTable.Rule(BitsOf(c.before), c.write, c.read, c.close)
            == 10 * (if c.before == {} then CTL_ADD else CTL_MOD) + BitsOf(c.Target())
  {
    BitsBack(c.before);
    NoKinds(c.before);
    TargetBits(c);
    hide Change.Target, Kinds;
  }

  lemma TargetBits(c: Change)
    requires c.Sane()
    ensures Read in c.Target() <==> c.read == 1 || (c.read == 0 && Read in c.before)
    ensures Write in c.Target() <==> c.write == 1 || (c.write == 0 && Write in c.before)
    ensures Close in c.Target() <==> c.close == 1 || (c.close == 0 && Close in c.before)
  {
  }

  lemma NoKinds(kinds: Interest)
    ensures kinds == {} <==> Read !in kinds && Write !in kinds && Close !in kinds
  {
    if Read !in kinds && Write !in kinds && Close !in kinds {
      forall k: Kind ensures k !in kinds {
        match k case Read => case Write => case Close =>
      }
      assert kinds == {};
    }
  }

  lemma RuleDeletes(c: Change, left: Interest, gone: Interest)
    requires c.Sane() && !c.Sets(CHANGE_ADD) && c.Sets(CHANGE_DEL)
    requires left == (set k: Kind | k in c.before && c.Get(k) != CHANGE_DEL) && gone == (set k: Kind | c.Get(k) == CHANGE_DEL)
    ensures EpollTable.Rule(BitsOf(c.before), c.write, c.read, c.close)
            == if left != {} then 10 * CTL_MOD + BitsOf(left) else 10 * CTL_DEL + BitsOf(gone)
  {
    BitsBack(c.before);
    LeftBits(c, left, gone);
    NoKinds(left);
    RuleDeletesBits(c, left, gone);
  }

  lemma LeftBits(c: Change, left: Interest, gone: Interest)
    requires left == (set k: Kind | k in c.before && c.Get(k) != CHANGE_DEL) && gone == (set k: Kind | c.Get(k) == CHANGE_DEL)
    ensures (Read in left <==> Read in c.before && c.read != 2) && (Read in gone <==> c.read == 2)
    ensures (Write in left <==> Write in c.before && c.write != 2) && (Write in gone <==> c.write == 2)
    ensures (Close in left <==> Close in c.before && c.close != 2) && (Close in gone <==> c.close == 2)
  {
    assert c.Get(Read) == c.read && c.Get(Write) == c.write && c.Get(Close) == c.close;
  }

  lemma RuleDeletesBits(c: Change, left: Interest, gone: Interest)
    requires c.Sane() && !c.Sets(CHANGE_ADD) && c.Sets(CHANGE_DEL)
    requires (Read in left <==> Read in c.before && c.read != 2) && (Read in gone <==> c.read == 2)
    requires (Write in left <==> Write in c.before && c.write != 2) && (Write in gone <==> c.write == 2)
    requires (Close in left <==> Close in c.before && c.close != 2) && (Close in gone <==> c.close == 2)
    ensures EpollTable.RuleOf(Bit(Read in c.before), Bit(Write in c.before), Bit(Close in c.before), c.write, c.read, c.close)
            == if Read in left || Write in left || Close in left then 10 * CTL_MOD + BitsOf(left) else 10 * CTL_DEL + BitsOf(gone)
  {
  }

  function InterestIn(kernel: Kernel, fd: int): Interest {
    if fd in kernel then kernel[fd] else {}
  }

  datatype Errno = Success | EExist | ENoEnt

  /** epoll_ctl. */
  function Ctl(kernel: Kernel, op: nat, fd: int, events: Interest): (Kernel, Errno) {
    if op == CTL_ADD then (if fd in kernel then (kernel, EExist) else (kernel[fd := events], Success))
    else if fd !in kernel then (kernel, ENoEnt)
    else if op == CTL_MOD then (kernel[fd := events], Success)
    else (kernel - {fd}, Success)
  }

  /** epoll_apply_one_change. A failed MOD is retried as ADD and a failed ADD as
      MOD; a DEL of something unknown is fine. */
  method ApplyOneChange(kernel: Kernel, ch: Change) returns (after: Kernel, r: int)
    requires ch.Sane()
    ensures after == Applied(kernel, ch) && r == 0
  {
    TableDecides(ch);
    DecideEvents(ch);
    if ch.Sets(CHANGE_ADD) || ch.Sets(CHANGE_DEL) { DecideTarget(ch); }
    var row := OpTable(TableIndex(ch));
    assert row == Decide(ch);
    if row.events == {} {
      assert row.op == CTL_NONE;
      return kernel, 0;
    }
    var result := Ctl(kernel, row.op, ch.fd, row.events);
    if result.1 == Success {
      return result.0, 0;
    }
    if row.op == CTL_MOD && result.1 == ENoEnt {
      var again := Ctl(kernel, CTL_ADD, ch.fd, row.events);
      return again.0, if again.1 == Success then 0 else -1;
    } else if row.op == CTL_ADD && result.1 == EExist {
      var again := Ctl(kernel, CTL_MOD, ch.fd, row.events);
      return again.0, if again.1 == Success then 0 else -1;
    } else if row.op == CTL_DEL && result.1 == ENoEnt {
      return kernel, 0;
    }
    return kernel, -1;
  }

  /** What one change leaves in the kernel: the interest it asks for, whatever was
      registered before; nothing happens if it asks for no change. */
  ghost function Applied(kernel: Kernel, ch: Change): Kernel {
    if !ch.Sets(CHANGE_ADD) && !ch.Sets(CHANGE_DEL) then kernel
    else if ch.Target() == {} then kernel - {ch.fd}
    else kernel[ch.fd := ch.Target()]
  }

  /** A row has no events exactly when there is nothing to do or the change is
      insane. */
  lemma DecideEvents(c: Change)
    ensures Decide(c).events == {} <==> Decide(c).op == CTL_NONE || Decide(c).op == CTL_INVALID
    ensures Decide(c).op == CTL_INVALID <==> !c.Sane()
    ensures Decide(c).op == CTL_NONE <==> c.Sane() && !c.Sets(CHANGE_ADD) && !c.Sets(CHANGE_DEL)
  {
    assert forall k: Kind :: c.Get(k) == c.read || c.Get(k) == c.write || c.Get(k) == c.close;
    assert c.Get(Read) == c.read && c.Get(Write) == c.write && c.Get(Close) == c.close;
    if c.Sane() && c.Sets(CHANGE_ADD) {
      var k :| c.Get(k) == CHANGE_ADD;
      assert k in c.Target();
    } else if c.Sane() && c.Sets(CHANGE_DEL) {
      var deleted := set k: Kind | c.Get(k) == CHANGE_DEL;
      var k :| c.Get(k) == CHANGE_DEL;
      assert k in deleted;
    }
  }

  /** The events of a row are the interest asked for, and the row deletes exactly
      when there is none left. */
  lemma DecideTarget(c: Change)
    requires c.Sane() && (c.Sets(CHANGE_ADD) || c.Sets(CHANGE_DEL))
    ensures if Decide(c).op == CTL_DEL then c.Target() == {} else c.Target() == Decide(c).events != {}
    ensures Decide(c).op in {CTL_ADD, CTL_MOD, CTL_DEL}
  {
    assert c.Get(Read) == c.read && c.Get(Write) == c.write && c.Get(Close) == c.close;
    DecideEvents(c);
    if !c.Sets(CHANGE_ADD) {
      var remaining := set k: Kind | k in c.before && c.Get(k) != CHANGE_DEL;
      assert remaining == c.Target();
    }
  }
}
