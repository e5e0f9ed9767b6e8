/** arc4random_uniform of libevent/arc4random.c: a 32-bit word is taken if it is not
    below a bound, so that every remainder has equally many words. */
module Uniform {
  import opened Options
  import opened Cycles
  import opened WordSizes

  /** A number in 32 bits. */
  function Wrap32(x: int): (r: nat)
    ensures 0 <= x < TWO32 ==> r == x
    ensures x == TWO32 ==> r == 0
  {
    x % TWO32
  }

  /** `min`, without 64-bit arithmetic. */
  function Least(bound: nat): nat
    requires 2 <= bound < TWO32
  {
    if bound > 0x8000_0000 then Wrap32(1 + (TWO32 - 1 - bound))
    else Wrap32(Wrap32(TWO32 - 1 - Wrap32(bound * 2)) + 1) % bound
  }

  /** It is the remainder of 2^32. */
  lemma LeastExact(bound: nat)
    requires 2 <= bound < TWO32
    ensures Least(bound) == TWO32 % bound
    ensures Least(bound) < bound && 2 * Least(bound) < TWO32
  {
    hide Least;
    LeastIs(bound);
    if bound > 0x8000_0000 {
      Residue(TWO32, 1, TWO32 - bound, bound);
    } else if bound == 0x8000_0000 {
      Residue(TWO32, 2, 0, bound);
    } else {
      AddTurn(TWO32 - 2 * bound, bound);
      AddTurn(TWO32 - bound, bound);
    }
    assert At(TWO32, bound) == Least(bound);
  }

  /** Without the wrapping. */
  lemma LeastIs(bound: nat)
    requires 2 <= bound < TWO32
    ensures Least(bound) == if bound > 0x8000_0000 then TWO32 - bound
                            else if bound == 0x8000_0000 then 0 else At(TWO32 - 2 * bound, bound)
  {
    hide Wrap32;
    if bound < 0x8000_0000 {
      assert Wrap32(Wrap32(TWO32 - 1 - Wrap32(bound * 2)) + 1) == TWO32 - 2 * bound;
    } else if bound == 0x8000_0000 {
      assert Wrap32(Wrap32(TWO32 - 1 - Wrap32(bound * 2)) + 1) == 0;
    }
  }

  /** How many words from `lo` to below `hi` leave the remainder `r`. */
  function Words(lo: nat, hi: nat, bound: nat, r: nat): nat
    requires lo <= hi && bound > 0
    decreases hi - lo
  {
    if lo == hi then 0 else Words(lo, hi - 1, bound, r) + if At(hi - 1, bound) == r then 1 else 0
  }

  /** Part of a turn has the remainder once or not at all. */
  lemma {:induction false} PartTurn(lo: nat, hi: nat, bound: nat, r: nat, w: nat)
    requires r < bound && lo <= hi <= lo + bound && lo <= w < lo + bound && At(w, bound) == r
    ensures Words(lo, hi, bound, r) == if w < hi then 1 else 0
    decreases hi
  {
    if lo < hi {
      PartTurn(lo, hi - 1, bound, r, w);
      if hi - 1 < w {
        Apart(hi - 1, w, bound);
      } else if w < hi - 1 {
        Apart(w, hi - 1, bound);
      }
    }
  }

  lemma {:induction false} WordsSplit(lo: nat, mid: nat, hi: nat, bound: nat, r: nat)
    requires lo <= mid <= hi && bound > 0
    ensures Words(lo, hi, bound, r) == Words(lo, mid, bound, r) + Words(mid, hi, bound, r)
    decreases hi
  {
    if mid < hi {
      WordsSplit(lo, mid, hi - 1, bound, r);
    }
  }

  lemma {:induction false} WholeTurns(lo: nat, k: nat, bound: nat, r: nat)
    requires r < bound
    ensures Words(lo, lo + k * bound, bound, r) == k
  {
    if k > 0 {
      WholeTurns(lo, k - 1, bound, r);
      var mid := lo + (k - 1) * bound;
      assert lo + k * bound == mid + bound;
      var w := Reached(mid, bound, r);
      PartTurn(mid, mid + bound, bound, r, w);
      WordsSplit(lo, mid, mid + bound, bound, r);
    }
  }

  /** Every remainder has exactly the same number of words that are taken. */
  lemma EveryRemainder(bound: nat, r: nat)
    requires 2 <= bound < TWO32 && r < bound
    ensures Least(bound) <= TWO32
    ensures Words(Least(bound), TWO32, bound, r) == (TWO32 - Least(bound)) / bound
  {
    hide Words, Least;
    LeastExact(bound);
    var k := TWO32 / bound;
    assert TWO32 - Least(bound) == k * bound;
    WholeTurns(Least(bound), k, bound, r);
    Quotient(k, bound);
  }

  lemma Quotient(k: nat, n: nat)
    requires n > 0
    ensures k * n / n == k
  {
    var q := k * n / n;
    assert q * n + (k * n) % n == k * n;
    Residue(k * n, k, 0, n);
    Scale(q - k, n);
    assert (q - k) * n == 0;
  }

  /** arc4random_uniform on the words that the generator gives: the first that is not
      too small decides. */
  method Choose(bound: nat, words: seq<nat>) returns (chosen: Option<nat>, used: nat)
    requires bound < TWO32 && forall i :: 0 <= i < |words| ==> words[i] < TWO32
    ensures bound < 2 ==> chosen == Some(0)
    ensures chosen.Some? && bound >= 2 ==> used < |words| && chosen.value == words[used] % bound < bound
    ensures bound >= 2 ==> forall i :: 0 <= i < used && i < |words| ==> words[i] < TWO32 % bound
    ensures chosen.Some? && bound >= 2 ==> words[used] >= TWO32 % bound
    ensures chosen.None? ==> used == |words|
  {
    used := 0;
    if bound < 2 {
      return Some(0), used;
    }
    LeastExact(bound);
    var min := Least(bound);
    while used < |words|
      invariant 0 <= used <= |words|
      invariant forall i :: 0 <= i < used && i < |words| ==> words[i] < TWO32 % bound
    {
      if words[used] >= min {
        return Some(words[used] % bound), used;
      }
      used := used + 1;
    }
    return None, used;
  }
}
