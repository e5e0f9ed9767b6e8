/** The generator of libevent/arc4random.c against the cipher RC4 as textbooks give it, and
    when it mixes in new entropy. */
module Rc4 {
  import opened ByteStrings
  import opened Arc4

  function Swapped(s: Bytes, a: Byte, b: Byte): (r: Bytes)
    requires |s| == 256
    ensures |r| == 256
  {
    s[a := s[b]][b := s[a]]
  }

  function KeyAt(key: Bytes, n: nat): Byte
    requires key != []
  {
    key[n % |key|]
  }

  /** The key schedule of RC4 after `n` rounds: the table and the second index. */
  function Schedule(key: Bytes, n: nat): (r: (Bytes, Byte))
    requires key != [] && n <= 256
    ensures |r.0| == 256
  {
    if n == 0 then (seq(256, k => k), 0)
    else
      var (s, j) := Schedule(key, n - 1);
      var j2 := (j + s[n - 1] + KeyAt(key, n - 1)) % 256;
      (Swapped(s, n - 1, j2), j2)
  }

  /** A round of RC4's generator: the table, both indices and the key stream byte. */
  function Round(s: Bytes, i: Byte, j: Byte): (r: (Bytes, Byte, Byte, Byte))
    requires |s| == 256
  {
    var i2 := (i + 1) % 256;
    var j2 := (j + s[i2]) % 256;
    var t := Swapped(s, i2, j2);
    (t, i2, j2, t[(t[i2] as int + t[j2]) % 256])
  }

  /** A step as an exchange of two places, in the round after `n - 1` others. */
  lemma MixedRound(st: State, n: nat, d: Byte)
    requires st.Sized() && 0 < n <= 256 && st.i == (n + 254) % 256
    ensures var j := (st.j + st.s[n - 1] + d) % 256;
            Mixed(st, d) == State(Swapped(st.s, n - 1, j), n - 1, j)
  {
    assert (st.i + 1) % 256 == n - 1;
  }

  lemma KeyIs(key: Bytes, n: nat)
    requires key != []
    ensures KeyAt(key, n) == key[n % |key|]
  {
  }

  lemma ScheduleNext(key: Bytes, n: nat)
    requires key != [] && 0 < n <= 256
    ensures var k := Schedule(key, n - 1);
            var j := (k.1 + k.0[n - 1] + KeyAt(key, n - 1)) % 256;
            Schedule(key, n) == (Swapped(k.0, n - 1, j), j)
  {
    hide KeyAt, Swapped;
  }

  lemma ScheduleNone(key: Bytes)
    requires key != []
    ensures Schedule(key, 0) == (Start().s, 0)
  {
    assert Schedule(key, 0).0 == Start().s;
  }

  lemma {:induction false} ScheduleRounds(key: Bytes, n: nat)
    requires key != [] && n <= 256
    ensures var m, k := MixedBy(Start().(i := 255), key, n), Schedule(key, n);
            m.s == k.0 && m.j == k.1 && m.i == (n + 255) % 256
  {
    hide Mixed, Swapped, MixedBy, Schedule, KeyAt;
    if n > 0 {
      ScheduleRounds(key, n - 1);
      KeyIs(key, n - 1);
      MixedByNext(Start().(i := 255), key, n - 1);
      MixedRound(MixedBy(Start().(i := 255), key, n - 1), n, KeyAt(key, n - 1));
      ScheduleNext(key, n);
    } else {
      MixedByNone(Start().(i := 255), key);
      ScheduleNone(key);
    }
  }

  /** Mixing a key into a fresh table is RC4's key schedule. */
  lemma KeySchedule(key: Bytes)
    requires key != []
    ensures Stirred(Start(), key).s == Schedule(key, 256).0
  {
    ScheduleRounds(key, 256);
    hide MixedBy, Schedule;
    assert (Start().i + 255) % 256 == 255;
  }

  /** A byte of output is a round of RC4's generator. */
  lemma OutputIsRound(st: State)
    requires st.Sized()
    ensures var m := Mixed(st, 0); (m.s, m.i, m.j, Output(m)) == Round(st.s, st.i, st.j)
  {
  }

  /** A word holds four bytes of the key stream, the first one highest. */
  lemma WordLaw(st: State)
    requires st.Sized()
    ensures var a, b, c, d := Output(Stepped(st, 1)), Output(Stepped(st, 2)), Output(Stepped(st, 3)), Output(Stepped(st, 4));
            WordOf(st) == 0x100 * (0x100 * (0x100 * a + b) + c) + d
  {
    hide Output, Stepped;
  }

  // ----- entropy -----

  /** Pieces of entropy are mixed in one after the other, and each one that is not empty. */
  lemma {:induction false} SeededAppend(st: State, a: seq<Bytes>, b: seq<Bytes>)
    requires st.Sized()
    ensures Seeded(st, a + b, |a + b|) == Seeded(Seeded(st, a, |a|), b, |b|)
    decreases |b|
  {
    hide Seeded, Stirred;
    SeededNone(Seeded(st, a, |a|), b);
    if b == [] {
      assert a + b == a;
    } else {
      var n := |b| - 1;
      SeededAppend(st, a, b[..n]);
      SeededFront(st, a + b, a + b[..n], |a| + n);
      SeededFront(Seeded(st, a, |a|), b, b[..n], n);
      SeededNext(st, a + b, |a| + n);
      SeededNext(Seeded(st, a, |a|), b, n);
    }
  }

  lemma {:induction false} SeededFront(st: State, a: seq<Bytes>, b: seq<Bytes>, n: nat)
    requires st.Sized() && n <= |a| && n <= |b| && a[..n] == b[..n]
    ensures Seeded(st, a, n) == Seeded(st, b, n)
  {
    if n > 0 {
      assert a[n - 1] == a[..n][n - 1] == b[..n][n - 1] == b[n - 1];
      assert a[..n - 1] == a[..n][..n - 1] == b[..n][..n - 1] == b[..n - 1];
      SeededFront(st, a, b, n - 1);
    }
  }

  lemma SeededOne(st: State, x: Bytes)
    requires st.Sized()
    ensures Seeded(st, [x], 1) == if x == [] then st else Stirred(st, x)
  {
    assert Seeded(st, [x], 0) == st;
  }

  /** A stir mixes entropy into the table there is, or into a fresh one, and discards 3072
      bytes if the generator was seeded now or before. */
  lemma StirLaw(g: Full, seeds: seq<Bytes>, good: bool)
    requires g.Sized()
    ensures var h, from := StirredAll(g, seeds, good), if g.initialized then g.st else Start();
            && h.initialized && (h.seeded <==> g.seeded || good)
            && h.st == Stepped(Seeded(from, seeds, |seeds|), if h.seeded then 3072 else 0)
            && h.count == if h.seeded then 1600000 else g.count
  {
    hide Stepped, Seeded;
    NoStep(Seeded(if g.initialized then g.st else Start(), seeds, |seeds|));
  }

  lemma NoStep(st: State)
    requires st.Sized()
    ensures Stepped(st, 0) == st
  {
  }

  /** A word is taken from the table as it is while there are bytes left from the last stir
      and the process is the same; else after a stir. */
  lemma DrawLaw(g: Full, seeds: seq<Bytes>, good: bool, forked: bool)
    requires g.Sized()
    ensures var t := Drawn(g, seeds, good, forked);
            && (g.count > 4 && g.initialized && !forked ==>
                  t.st == Stepped(g.st, 4) && t.count == g.count - 4 && WordOf(Ready(g, seeds, good, forked).st) == WordOf(g.st))
            && (g.count <= 4 || !g.initialized || forked ==>
                  var h := StirredAll(g, seeds, good);
                  t.st == Stepped(h.st, 4) && t.seeded == h.seeded && WordOf(Ready(g, seeds, good, forked).st) == WordOf(h.st)
                  && t.count == if h.seeded then h.count else g.count - 4)
  {
    hide Stepped, Seeded, WordOf, Stirred;
  }

  /** A byte of a buffer likewise. */
  lemma ByteLaw(g: Full, supply: Supply)
    requires g.Sized() && g.initialized
    ensures var t := Byted(g, supply);
            && (g.count > 1 ==> t.st == Mixed(g.st, 0) && t.count == g.count - 1)
            && (g.count <= 1 ==>
                  var h := StirredAll(g, supply.seeds, supply.good);
                  t.st == Mixed(h.st, 0) && t.count == if h.seeded then h.count else g.count - 1)
  {
    SteppedOnce(g.st);
    SteppedOnce(StirredAll(g, supply.seeds, supply.good).st);
    hide Stepped, Seeded, Mixed;
  }

  /** Before a buffer is filled the generator is stirred if it has to be. */
  lemma CheckLaw(g: Full, supply: Supply, forked: bool)
    requires g.Sized()
    ensures Checked(g, supply, forked) ==
            if g.count > 0 && g.initialized && !forked then g else StirredAll(g, supply.seeds, supply.good)
  {
  }

  /** A buffer holds the bytes as they came, the first one at its end. */
  lemma {:induction false} BufferLaw(g: Full, each: seq<Supply>, n: nat, k: nat)
    requires g.Sized() && g.initialized && k < n <= |each|
    ensures Buffer(g, each, n)[n - 1 - k] == Output(Filled(g, each, k + 1).st)
  {
    hide Output, Filled;
    if k < n - 1 {
      BufferLaw(g, each, n - 1, k);
    }
  }

  // ----- data from the user -----

  lemma {:induction false} MixedBySame(st: State, a: Bytes, b: Bytes, n: nat)
    requires st.Sized() && a != [] && b != [] && forall k :: 0 <= k < n ==> a[k % |a|] == b[k % |b|]
    ensures MixedBy(st, a, n) == MixedBy(st, b, n)
  {
    if n > 0 {
      MixedBySame(st, a, b, n - 1);
    }
  }

  /** The user's data is mixed in 256 bytes at a time. */
  lemma FeedChunks(st: State, a: Bytes, b: Bytes)
    requires st.Sized() && |a| == 256
    ensures Fed(st, a + b, (|a + b| + 255) / 256) == Fed(Stirred(st, a), b, (|b| + 255) / 256)
  {
    hide Fed, Stirred;
    FeedRest(st, a, b, (|b| + 255) / 256);
    assert (|a + b| + 255) / 256 == (|b| + 255) / 256 + 1;
  }

  lemma {:induction false} FeedRest(st: State, a: Bytes, b: Bytes, n: nat)
    requires st.Sized() && |a| == 256
    ensures Fed(st, a + b, n + 1) == Fed(Stirred(st, a), b, n)
  {
    hide Stirred;
    if n == 0 {
      assert (a + b)[0..] == a + b;
      assert Fed(st, a + b, 0) == st;
      StirredSame(st, a + b, a);
    } else {
      FeedRest(st, a, b, n - 1);
      if 256 * (n - 1) < |b| {
        assert (a + b)[256 * n..] == b[256 * (n - 1)..];
      }
    }
  }

  lemma StirredSame(st: State, a: Bytes, b: Bytes)
    requires st.Sized() && |a| >= 256 && |b| >= 256 && a[..256] == b[..256]
    ensures Stirred(st, a) == Stirred(st, b)
  {
    hide MixedBy;
    forall k | 0 <= k < 256 ensures a[k % |a|] == b[k % |b|] {
      SmallMod(k, |a|);
      SmallMod(k, |b|);
      assert a[k] == a[..256][k] == b[..256][k] == b[k];
    }
    MixedBySame(st.(i := (st.i + 255) % 256), a, b, 256);
  }

  lemma SmallMod(k: nat, n: nat)
    requires k < n
    ensures k % n == k
  {
  }

  lemma FeedLittle(st: State, a: Bytes)
    requires st.Sized() && 0 < |a| <= 256
    ensures Fed(st, a, (|a| + 255) / 256) == Stirred(st, a)
  {
    hide Stirred;
    assert a[0..] == a && Fed(st, a, 0) == st;
  }
}
