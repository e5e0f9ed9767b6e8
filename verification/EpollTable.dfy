/** The 512 rows of epoll_op_table (libevent/epolltable-internal.h), in its order, one
    number each: the tens are the operation (1 add, 2 delete, 3 modify, 7 the row that is
    never to be used), the units the events (1 read, 2 write, 4 close). */
module EpollTable {

  /** One of four numbers. */
  function Of4(i: nat, a: nat, b: nat, c: nat, d: nat): nat {
    if i == 0 then a else if i == 1 then b else if i == 2 then c else d
  }

  /** One of sixteen rows, four for each change of reading. */
  function Of16(read: nat, close: nat, a0: nat, a1: nat, a2: nat, a3: nat, b0: nat, b1: nat, b2: nat, b3: nat,
                c0: nat, c1: nat, c2: nat, c3: nat, d0: nat, d1: nat, d2: nat, d3: nat): nat {
    Of4(read, Of4(close, a0, a1, a2, a3), Of4(close, b0, b1, b2, b3), Of4(close, c0, c1, c2, c3), Of4(close, d0, d1, d2, d3))
  }

  /** The rows for old events: nothing. */
  function Rows0(write: nat, read: nat, close: nat): nat {
    Of4(write,
        Of16(read, close, 0, 14, 24, 70, 11, 15, 11, 70, 21, 14, 25, 70, 70, 70, 70, 70),
        Of16(read, close, 12, 16, 12, 70, 13, 17, 13, 70, 12, 16, 12, 70, 70, 70, 70, 70),
        Of16(read, close, 22, 14, 26, 70, 11, 15, 11, 70, 23, 14, 27, 70, 70, 70, 70, 70),
        Of16(read, close, 70, 70, 70, 70, 70, 70, 70, 70, 70, 70, 70, 70, 70, 70, 70, 70))
  }

  /** The rows for old events: read. */
  function Rows1(write: nat, read: nat, close: nat): nat {
    Of4(write,
        Of16(read, close, 0, 35, 31, 70, 31, 35, 31, 70, 21, 34, 25, 70, 70, 70, 70, 70),
        Of16(read, close, 33, 37, 33, 70, 33, 37, 33, 70, 32, 36, 32, 70, 70, 70, 70, 70),
        Of16(read, close, 31, 35, 31, 70, 31, 35, 31, 70, 23, 34, 27, 70, 70, 70, 70, 70),
        Of16(read, close, 70, 70, 70, 70, 70, 70, 70, 70, 70, 70, 70, 70, 70, 70, 70, 70))
  }

  /** The rows for old events: write. */
  function Rows2(write: nat, read: nat, close: nat): nat {
    Of4(write,
        Of16(read, close, 0, 36, 32, 70, 33, 37, 33, 70, 32, 36, 32, 70, 70, 70, 70, 70),
        Of16(read, close, 32, 36, 32, 70, 33, 37, 33, 70, 32, 36, 32, 70, 70, 70, 70, 70),
        Of16(read, close, 22, 34, 26, 70, 31, 35, 31, 70, 23, 34, 27, 70, 70, 70, 70, 70),
        Of16(read, close, 70, 70, 70, 70, 70, 70, 70, 70, 70, 70, 70, 70, 70, 70, 70, 70))
  }

  /** The rows for old events: read and write. */
  function Rows3(write: nat, read: nat, close: nat): nat {
    Of4(write,
        Of16(read, close, 0, 37, 33, 70, 33, 37, 33, 70, 32, 36, 32, 70, 70, 70, 70, 70),
        Of16(read, close, 33, 37, 33, 70, 33, 37, 33, 70, 32, 36, 32, 70, 70, 70, 70, 70),
        Of16(read, close, 31, 35, 31, 70, 31, 35, 31, 70, 23, 34, 27, 70, 70, 70, 70, 70),
        Of16(read, close, 70, 70, 70, 70, 70, 70, 70, 70, 70, 70, 70, 70, 70, 70, 70, 70))
  }

  /** The rows for old events: close. */
  function Rows4(write: nat, read: nat, close: nat): nat {
    Of4(write,
        Of16(read, close, 0, 34, 24, 70, 35, 35, 31, 70, 34, 34, 25, 70, 70, 70, 70, 70),
        Of16(read, close, 36, 36, 32, 70, 37, 37, 33, 70, 36, 36, 32, 70, 70, 70, 70, 70),
        Of16(read, close, 34, 34, 26, 70, 35, 35, 31, 70, 34, 34, 27, 70, 70, 70, 70, 70),
        Of16(read, close, 70, 70, 70, 70, 70, 70, 70, 70, 70, 70, 70, 70, 70, 70, 70, 70))
  }

  /** The rows for old events: read and close. */
  function Rows5(write: nat, read: nat, close: nat): nat {
    Of4(write,
        Of16(read, close, 0, 35, 31, 70, 35, 35, 31, 70, 34, 34, 25, 70, 70, 70, 70, 70),
        Of16(read, close, 37, 37, 33, 70, 37, 37, 33, 70, 36, 36, 32, 70, 70, 70, 70, 70),
        Of16(read, close, 35, 35, 31, 70, 35, 35, 31, 70, 34, 34, 27, 70, 70, 70, 70, 70),
        Of16(read, close, 70, 70, 70, 70, 70, 70, 70, 70, 70, 70, 70, 70, 70, 70, 70, 70))
  }

  /** The rows for old events: write and close. */
  function Rows6(write: nat, read: nat, close: nat): nat {
    Of4(write,
        Of16(read, close, 0, 36, 32, 70, 37, 37, 33, 70, 36, 36, 32, 70, 70, 70, 70, 70),
        Of16(read, close, 36, 36, 32, 70, 37, 37, 33, 70, 36, 36, 32, 70, 70, 70, 70, 70),
        Of16(read, close, 34, 34, 26, 70, 35, 35, 31, 70, 34, 34, 27, 70, 70, 70, 70, 70),
        Of16(read, close, 70, 70, 70, 70, 70, 70, 70, 70, 70, 70, 70, 70, 70, 70, 70, 70))
  }

  /** The rows for old events: all three. */
  function Rows7(write: nat, read: nat, close: nat): nat {
    Of4(write,
        Of16(read, close, 0, 37, 33, 70, 37, 37, 33, 70, 36, 36, 32, 70, 70, 70, 70, 70),
        Of16(read, close, 37, 37, 33, 70, 37, 37, 33, 70, 36, 36, 32, 70, 70, 70, 70, 70),
        Of16(read, close, 35, 35, 31, 70, 35, 35, 31, 70, 34, 34, 27, 70, 70, 70, 70, 70),
        Of16(read, close, 70, 70, 70, 70, 70, 70, 70, 70, 70, 70, 70, 70, 70, 70, 70, 70))
  }

  /** A row by the old events, one bit for each kind, and the three changes. */
  function Entry(before: nat, write: nat, read: nat, close: nat): nat {
    if before == 0 then Rows0(write, read, close)
    else if before == 1 then Rows1(write, read, close)
    else if before == 2 then Rows2(write, read, close)
    else if before == 3 then Rows3(write, read, close)
    else if before == 4 then Rows4(write, read, close)
    else if before == 5 then Rows5(write, read, close)
    else if before == 6 then Rows6(write, read, close)
    else Rows7(write, read, close)
  }

  /** What the rule says of a row. A change is 0 for none, 1 for add, 2 for delete, 3 for
      both. */
  function Rule(before: nat, write: nat, read: nat, close: nat): nat {
    RuleOf(before % 2, before / 2 % 2, before / 4, write, read, close)
  }

  /** The same, with the old events one by one. */
  function RuleOf(r: nat, w: nat, c: nat, write: nat, read: nat, close: nat): nat {
    if read == 3 || write == 3 || close == 3 then 70
    else if read == 1 || write == 1 || close == 1 then
      (if r == 0 && w == 0 && c == 0 then 10 else 30) + After(r, read) + 2 * After(w, write) + 4 * After(c, close)
    else if read == 2 || write == 2 || close == 2 then
      var left := Left(r, read) + 2 * Left(w, write) + 4 * Left(c, close);
      if left != 0 then 30 + left else 20 + Deletes(read) + 2 * Deletes(write) + 4 * Deletes(close)
    else 0
  }

  /** Whether a kind is wanted after a change. */
  function After(was: nat, change: nat): nat {
    if change == 1 then 1 else if change == 0 then was else 0
  }

  /** Whether a kind is left by a change without adds. */
  function Left(was: nat, change: nat): nat {
    if change == 2 then 0 else was
  }

  function Deletes(change: nat): nat {
    if change == 2 then 1 else 0
  }

  lemma Right0(write: nat, read: nat, close: nat)
    requires write < 4 && read < 4 && close < 4
    ensures Rows0(write, read, close) == RuleOf(0, 0, 0, write, read, close)
  {
  }

  lemma Right1(write: nat, read: nat, close: nat)
    requires write < 4 && read < 4 && close < 4
    ensures Rows1(write, read, close) == RuleOf(1, 0, 0, write, read, close)
  {
  }

  lemma Right2(write: nat, read: nat, close: nat)
    requires write < 4 && read < 4 && close < 4
    ensures Rows2(write, read, close) == RuleOf(0, 1, 0, write, read, close)
  {
  }

  lemma Right3(write: nat, read: nat, close: nat)
    requires write < 4 && read < 4 && close < 4
    ensures Rows3(write, read, close) == RuleOf(1, 1, 0, write, read, close)
  {
  }

  lemma Right4(write: nat, read: nat, close: nat)
    requires write < 4 && read < 4 && close < 4
    ensures Rows4(write, read, close) == RuleOf(0, 0, 1, write, read, close)
  {
  }

  lemma Right5(write: nat, read: nat, close: nat)
    requires write < 4 && read < 4 && close < 4
    ensures Rows5(write, read, close) == RuleOf(1, 0, 1, write, read, close)
  {
  }

  lemma Right6(write: nat, read: nat, close: nat)
    requires write < 4 && read < 4 && close < 4
    ensures Rows6(write, read, close) == RuleOf(0, 1, 1, write, read, close)
  {
  }

  lemma Right7(write: nat, read: nat, close: nat)
    requires write < 4 && read < 4 && close < 4
    ensures Rows7(write, read, close) == RuleOf(1, 1, 1, write, read, close)
  {
  }

  /** Every one of the 512 rows is as the rule says. */
  lemma EntryIsRule(before: nat, write: nat, read: nat, close: nat)
    requires before < 8 && write < 4 && read < 4 && close < 4
    ensures Entry(before, write, read, close) == Rule(before, write, read, close)
  {
    hide RuleOf, Rows0, Rows1, Rows2, Rows3, Rows4, Rows5, Rows6, Rows7;
    Right0(write, read, close);
    Right1(write, read, close);
    Right2(write, read, close);
    Right3(write, read, close);
    Right4(write, read, close);
    Right5(write, read, close);
    Right6(write, read, close);
    Right7(write, read, close);
  }
}
