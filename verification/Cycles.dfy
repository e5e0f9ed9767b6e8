/** Going round: places on a ring, or remainders. */
module Cycles {

  /** The place `p` steps along a ring of `n`. */
  function At(p: nat, n: nat): (i: nat)
    requires n > 0
    ensures i < n
  {
    p % n
  }

  /** Division with remainder is unique. */
  lemma Residue(p: nat, q: int, i: nat, n: nat)
    requires p == q * n + i && i < n
    ensures At(p, n) == i
  {
    var d := p / n - q;
    assert d * n == i - p % n;
    Scale(d, n);
  }

  lemma Scale(k: int, n: nat)
    ensures k >= 1 ==> k * n >= n
    ensures k <= -1 ==> k * n + n <= 0
  {
    if k >= 1 {
      assert k * n == (k - 1) * n + n;
    } else if k <= -1 {
      assert k * n == (k + 1) * n - n;
    }
  }

  lemma AddTurn(p: nat, n: nat)
    requires n > 0
    ensures At(p + n, n) == At(p, n)
  {
    Residue(p + n, p / n + 1, p % n, n);
  }

  /** Two steps less than a turn apart are at different places. */
  lemma Apart(s: nat, t: nat, n: nat)
    requires s < t < s + n
    ensures At(s, n) != At(t, n)
  {
    var a, b := s / n, t / n;
    assert s == a * n + s % n && t == b * n + t % n;
    if s % n == t % n {
      assert t - s == (b - a) * n;
      Scale(b - a, n);
    }
  }

  /** Every place is passed within a turn. */
  lemma Reached(p: nat, n: nat, i: nat) returns (s: nat)
    requires i < n
    ensures p <= s < p + n && At(s, n) == i
  {
    var r, q := At(p, n), p / n;
    if i >= r {
      s := p + (i - r);
      Residue(s, q, i, n);
    } else {
      s := p + (n - r) + i;
      Residue(s, q + 1, i, n);
    }
  }
}
