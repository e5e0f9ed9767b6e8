/** The generator of libevent/arc4random.c: a table of 256 bytes that is swapped
    around, and never loses a value. */
module Arc4 {
  import opened ByteStrings
  import opened WordSizes
  import opened IdLists

  const BYTES_BEFORE_RESEED: int := 1600000

  datatype State = State(s: Bytes, i: Byte, j: Byte) {
    predicate Sized() {
      |s| == 256
    }
  }

  /** The table holds every byte once. */
  ghost predicate Permutation(s: Bytes) {
    |s| == 256 && Distinct(s)
  }

  /** One step of arc4_addrandom with the byte `d`; with 0 it is that of arc4_getbyte. */
  function Mixed(st: State, d: Byte): (r: State)
    requires st.Sized()
    ensures r.Sized()
  {
    var i := (st.i + 1) % 256;
    var si := st.s[i];
    var j := (st.j + si + d) % 256;
    State(st.s[i := st.s[j]][j := si], i, j)
  }

  /** The byte that goes with a step. */
  function Output(st: State): Byte
    requires st.Sized()
  {
    var si: int, sj: int := st.s[st.i], st.s[st.j];
    st.s[(si + sj) % 256]
  }

  /** A step exchanges two places, so the table stays a permutation. */
  lemma MixedPermutes(st: State, d: Byte)
    requires Permutation(st.s)
    ensures Permutation(Mixed(st, d).s)
  {
  }

  /** A step can be undone: no two states step to the same one. */
  function Unmixed(st: State, d: Byte): State
    requires st.Sized()
  {
    var s := st.s[st.i := st.s[st.j]][st.j := st.s[st.i]];
    State(s, (st.i + 255) % 256, (st.j + 512 - s[st.i] - d) % 256)
  }

  lemma StepUndone(st: State, d: Byte)
    requires st.Sized()
    ensures Unmixed(Mixed(st, d), d) == st
  {
    var m := Mixed(st, d);
    var s := m.s[m.i := m.s[m.j]][m.j := m.s[m.i]];
    assert s == st.s;
  }

  /** Every byte is in the table. */
  lemma PermutationHasAll(s: Bytes, b: Byte)
    requires Permutation(s)
    ensures b in s
  {
    DistinctSize(s);
    BelowSize(256);
    var all := Below(256);
    if b !in s {
      assert Members(s) <= all - {b};
      Smaller(Members(s), all - {b});
    }
  }

  lemma Smaller(a: set<int>, b: set<int>)
    requires a <= b
    ensures |a| <= |b|
  {
    assert b == a + (b - a);
  }

  /** The state after `n` steps with the bytes of `dat`, over and over. */
  function MixedBy(st: State, dat: Bytes, n: nat): (r: State)
    requires st.Sized() && dat != []
    ensures r.Sized()
  {
    if n == 0 then st else Mixed(MixedBy(st, dat, n - 1), dat[(n - 1) % |dat|])
  }

  /** arc4_addrandom. */
  function Stirred(st: State, dat: Bytes): (r: State)
    requires st.Sized() && dat != []
    ensures r.Sized()
  {
    var m := MixedBy(st.(i := (st.i + 255) % 256), dat, 256);
    m.(j := m.i)
  }

  lemma {:induction false} MixedByPermutes(st: State, dat: Bytes, n: nat)
    requires Permutation(st.s) && dat != []
    ensures Permutation(MixedBy(st, dat, n).s)
  {
    if n > 0 {
      MixedByPermutes(st, dat, n - 1);
      MixedPermutes(MixedBy(st, dat, n - 1), dat[(n - 1) % |dat|]);
    }
  }

  /** The table before anything is mixed in. */
  function Start(): (r: State)
    ensures r.Sized()
  {
    State(seq(256, n => n), 0, 0)
  }

  /** `n` steps of arc4_getbyte. */
  function Stepped(st: State, n: nat): (r: State)
    requires st.Sized()
    ensures r.Sized()
  {
    if n == 0 then st else Mixed(Stepped(st, n - 1), 0)
  }

  /** The first `n` pieces of entropy mixed in; an empty one is no piece. */
  function Seeded(st: State, seeds: seq<Bytes>, n: nat): (r: State)
    requires st.Sized() && n <= |seeds|
    ensures r.Sized()
  {
    if n == 0 then st
    else if seeds[n - 1] == [] then Seeded(st, seeds, n - 1)
    else Stirred(Seeded(st, seeds, n - 1), seeds[n - 1])
  }

  /** The data from every 256th byte on mixed in, `n` times. */
  function Fed(st: State, dat: Bytes, n: nat): (r: State)
    requires st.Sized()
    ensures r.Sized()
  {
    if n == 0 then st
    else if 256 * (n - 1) >= |dat| then Fed(st, dat, n - 1)
    else Stirred(Fed(st, dat, n - 1), dat[256 * (n - 1)..])
  }

  /** All there is to the generator. */
  datatype Full = Full(st: State, count: int, initialized: bool, seeded: bool) {
    predicate Sized() {
      st.Sized()
    }
  }

  /** Before anything is done. */
  function Zero(): (r: Full)
    ensures r.Sized()
  {
    Full(State(seq(256, n => 0), 0, 0), 0, false, false)
  }

  /** arc4_stir. */
  function StirredAll(g: Full, seeds: seq<Bytes>, good: bool): (r: Full)
    requires g.Sized()
    ensures r.Sized() && r.initialized
  {
    var mixed := Seeded(if g.initialized then g.st else Start(), seeds, |seeds|);
    if g.seeded || good then Full(Stepped(mixed, 12 * 256), BYTES_BEFORE_RESEED, true, true)
    else Full(mixed, g.count, true, false)
  }

  /** The state that arc4random takes its word from. */
  function Ready(g: Full, seeds: seq<Bytes>, good: bool, forked: bool): (r: Full)
    requires g.Sized()
    ensures r.Sized() && r.initialized
  {
    if g.count - 4 <= 0 || !g.initialized || forked then StirredAll(g.(count := g.count - 4), seeds, good)
    else g.(count := g.count - 4)
  }

  function WordOf(st: State): nat
    requires st.Sized()
  {
    Word(Output(Stepped(st, 1)), Output(Stepped(st, 2)), Output(Stepped(st, 3)), Output(Stepped(st, 4)))
  }

  function Drawn(g: Full, seeds: seq<Bytes>, good: bool, forked: bool): (r: Full)
    requires g.Sized()
    ensures r.Sized() && r.initialized
  {
    var g1 := Ready(g, seeds, good, forked);
    g1.(st := Stepped(g1.st, 4))
  }

  /** arc4random_addrandom. */
  function FedAll(g: Full, dat: Bytes, seeds: seq<Bytes>, good: bool): (r: Full)
    requires g.Sized()
    ensures r.Sized() && r.initialized
  {
    var g1 := if g.initialized then g else StirredAll(g, seeds, good);
    g1.(st := Fed(g1.st, dat, (|dat| + 255) / 256))
  }

  /** What a stir gets from the sources of entropy. */
  datatype Supply = Supply(seeds: seq<Bytes>, good: bool)

  /** arc4_stir_if_needed in arc4random_buf. */
  function Checked(g: Full, supply: Supply, forked: bool): (r: Full)
    requires g.Sized()
    ensures r.Sized() && r.initialized
  {
    if g.count <= 0 || !g.initialized || forked then StirredAll(g, supply.seeds, supply.good) else g
  }

  /** The state that a byte of arc4random_buf leaves behind. */
  function Byted(g: Full, supply: Supply): (r: Full)
    requires g.Sized() && g.initialized
    ensures r.Sized() && r.initialized
  {
    var g1 := if g.count - 1 <= 0 then StirredAll(g.(count := g.count - 1), supply.seeds, supply.good) else g.(count := g.count - 1);
    g1.(st := Stepped(g1.st, 1))
  }

  /** After the first `n` bytes, with what each would get if it had to stir. */
  function Filled(g: Full, each: seq<Supply>, n: nat): (r: Full)
    requires g.Sized() && g.initialized && n <= |each|
    ensures r.Sized() && r.initialized
  {
    if n == 0 then g else Byted(Filled(g, each, n - 1), each[n - 1])
  }

  /** The buffer, which is filled from its end. */
  function Buffer(g: Full, each: seq<Supply>, n: nat): (r: seq<nat>)
    requires g.Sized() && g.initialized && n <= |each|
    ensures |r| == n
  {
    if n == 0 then [] else [Output(Filled(g, each, n).st)] + Buffer(g, each, n - 1)
  }

  class Generator {
    const s: array<Byte>
    var i: Byte
    var j: Byte
    var count: int
    var initialized: bool
    var seeded: bool

    constructor ()
      ensures Valid() && fresh(s) && Whole() == Zero()
    {
      s := new Byte[256](i => 0);
      i, j, count, initialized, seeded := 0, 0, 0, false, false;
      new;
      assert s[..] == Zero().st.s;
    }

    ghost function Whole(): Full reads this, s {
      Full(View(), count, initialized, seeded)
    }

    ghost predicate Valid() reads this, s {
      s.Length == 256 && (initialized ==> Permutation(s[..]))
    }

    ghost function View(): State reads this, s {
      State(s[..], i, j)
    }

    /** arc4_init. */
    method Init()
      requires s.Length == 256
      modifies this`i, this`j, s
      ensures Permutation(s[..]) && i == 0 && j == 0
      ensures forall n :: 0 <= n < 256 ==> s[n] == n
    {
      for n := 0 to 256
        invariant forall k :: 0 <= k < n ==> s[k] == k
      {
        s[n] := n;
      }
      i, j := 0, 0;
    }

    /** The swap that arc4_addrandom and arc4_getbyte share. */
    method Step(d: Byte)
      requires s.Length == 256
      modifies this`i, this`j, s
      ensures View() == Mixed(old(View()), d)
    {
      i := (i + 1) % 256;
      var si := s[i];
      j := (j + si + d) % 256;
      s[i] := s[j];
      s[j] := si;
    }

    /** arc4_addrandom. */
    method AddRandom(dat: Bytes)
      requires Valid() && initialized && dat != []
      modifies this`i, this`j, s
      ensures Valid() && View() == Stirred(old(View()), dat)
    {
      hide MixedBy, Mixed, Permutation;
      ghost var start := State(s[..], (i + 255) % 256, j);
      i := (i + 255) % 256;
      MixedByNone(start, dat);
      for n := 0 to 256
        invariant View() == MixedBy(start, dat, n)
      {
        MixedByNext(start, dat, n);
        Step(dat[n % |dat|]);
      }
      j := i;
      MixedByPermutes(start, dat, 256);
    }

    /** arc4_getbyte. */
    method GetByte() returns (b: Byte)
      requires Valid() && initialized
      modifies this`i, this`j, s
      ensures Valid() && View() == Mixed(old(View()), 0) && b == Output(View())
    {
      hide Mixed, Permutation;
      MixedPermutes(View(), 0);
      Step(0);
      var si: int, sj: int := s[i], s[j];
      b := s[(si + sj) % 256];
    }

    /** arc4_stir, with what the sources of entropy gave and whether one was good. */
    method Stir(seeds: seq<Bytes>, good: bool) returns (r: int)
      requires Valid()
      modifies this, s
      ensures Valid() && r == (if old(seeded) || good then 0 else -1)
      ensures Whole() == StirredAll(old(Whole()), seeds, good)
    {
      hide Mixed, Stirred, Stepped, Seeded, Permutation;
      if !initialized {
        Init();
        initialized := true;
        assert s[..] == Start().s;
      }
      ghost var from := View();
      SeededNone(from, seeds);
      for k := 0 to |seeds|
        invariant Valid() && initialized && seeded == old(seeded) && count == old(count) && View() == Seeded(from, seeds, k)
      {
        SeededNext(from, seeds, k);
        if seeds[k] != [] {
          AddRandom(seeds[k]);
        }
      }
      seeded := seeded || good;
      if !seeded {
        return -1;
      }
      ghost var mixed := View();
      SteppedNone(mixed);
      for k := 0 to 12 * 256
        invariant Valid() && initialized && seeded && View() == Stepped(mixed, k)
      {
        SteppedNext(mixed, k);
        var b := GetByte();
      }
      count := BYTES_BEFORE_RESEED;
      return 0;
    }

    /** arc4_getword. */
    method GetWord() returns (w: nat)
      requires Valid() && initialized
      modifies this`i, this`j, s
      ensures Valid() && View() == Stepped(old(View()), 4)
      ensures w == WordOf(old(View()))
    {
      ghost var st := View();
      SteppedFour(st);
      hide Stepped;
      hide Permutation, Mixed, Output;
      var b1 := GetByte();
      var b2 := GetByte();
      var b3 := GetByte();
      var b4 := GetByte();
      w := Word(b1, b2, b3, b4);
    }

    /** arc4random_addrandom: all of the data is used, 256 bytes at a time. */
    method Feed(dat: Bytes, seeds: seq<Bytes>, good: bool)
      requires Valid()
      modifies this, s
      ensures Valid() && Whole() == FedAll(old(Whole()), dat, seeds, good)
    {
      hide Permutation, Stirred, Fed, Mixed, StirredAll;
      if !initialized {
        var r := Stir(seeds, good);
      }
      ghost var st, n, c, d := View(), 0, count, seeded;
      FedNone(st, dat);
      var k := 0;
      while k < |dat|
        invariant Valid() && initialized && k == 256 * n && 0 <= n <= (|dat| + 255) / 256 && View() == Fed(st, dat, n)
        invariant n > 0 ==> 256 * (n - 1) < |dat|
        invariant count == c && seeded == d
      {
        FedNext(st, dat, n);
        AddRandom(dat[k..]);
        k := k + 256;
        n := n + 1;
      }
      assert n == (|dat| + 255) / 256;
    }

    /** One byte of arc4random_buf. */
    method NextByte(supply: Supply) returns (b: Byte)
      requires Valid() && initialized
      modifies this, s
      ensures Valid() && Whole() == Byted(old(Whole()), supply) && b == Output(View())
    {
      hide Permutation, StirredAll, Stepped, Mixed, Output;
      count := count - 1;
      if count <= 0 {
        var r := Stir(supply.seeds, supply.good);
      }
      SteppedOnce(View());
      b := GetByte();
    }

    /** arc4random_buf, into a buffer of as many bytes. */
    method Fill(first: Supply, forked: bool, each: seq<Supply>) returns (buf: seq<nat>)
      requires Valid()
      modifies this, s
      ensures Valid() && Whole() == Filled(Checked(old(Whole()), first, forked), each, |each|)
      ensures buf == Buffer(Checked(old(Whole()), first, forked), each, |each|)
    {
      hide Permutation, StirredAll, Filled, Buffer, Byted, Output;
      if count <= 0 || !initialized || forked {
        var r := Stir(first.seeds, first.good);
      }
      ghost var g := Whole();
      FilledNone(g, each);
      buf := [];
      for n := 0 to |each|
        invariant Valid() && initialized && Whole() == Filled(g, each, n) && buf == Buffer(g, each, n)
      {
        FilledNext(g, each, n);
        var b := NextByte(each[n]);
        buf := [b] + buf;
      }
    }

    /** arc4random; `forked` says that the process is another than at the last stir. */
    method Random(seeds: seq<Bytes>, good: bool, forked: bool) returns (w: nat)
      requires Valid()
      modifies this, s
      ensures Valid() && Whole() == Drawn(old(Whole()), seeds, good, forked)
      ensures w == WordOf(Ready(old(Whole()), seeds, good, forked).st)
    {
      hide Permutation, StirredAll, Stepped;
      count := count - 4;
      if count <= 0 || !initialized || forked {
        var r := Stir(seeds, good);
      }
      w := GetWord();
    }
  }

  lemma FilledNone(g: Full, each: seq<Supply>)
    requires g.Sized() && g.initialized
    ensures Filled(g, each, 0) == g && Buffer(g, each, 0) == []
  {
  }

  lemma FilledNext(g: Full, each: seq<Supply>, n: nat)
    requires g.Sized() && g.initialized && n < |each|
    ensures Filled(g, each, n + 1) == Byted(Filled(g, each, n), each[n])
    ensures Buffer(g, each, n + 1) == [Output(Filled(g, each, n + 1).st)] + Buffer(g, each, n)
  {
  }

  lemma SteppedOnce(st: State)
    requires st.Sized()
    ensures Stepped(st, 1) == Mixed(st, 0)
  {
    assert Stepped(st, 0) == st;
  }

  function Word(b1: int, b2: int, b3: int, b4: int): (w: nat)
    requires 0 <= b1 < 256 && 0 <= b2 < 256 && 0 <= b3 < 256 && 0 <= b4 < 256
    ensures w < TWO32
  {
    0x100_0000 * b1 + 0x1_0000 * b2 + 0x100 * b3 + b4
  }

  lemma MixedByNone(st: State, dat: Bytes)
    requires st.Sized() && dat != []
    ensures MixedBy(st, dat, 0) == st
  {
  }

  lemma MixedByNext(st: State, dat: Bytes, n: nat)
    requires st.Sized() && dat != []
    ensures MixedBy(st, dat, n + 1) == Mixed(MixedBy(st, dat, n), dat[n % |dat|])
  {
  }

  lemma SteppedNone(st: State)
    requires st.Sized()
    ensures Stepped(st, 0) == st
  {
  }

  lemma SteppedNext(st: State, n: nat)
    requires st.Sized()
    ensures Stepped(st, n + 1) == Mixed(Stepped(st, n), 0)
  {
  }

  lemma SteppedFour(st: State)
    requires st.Sized()
    ensures Stepped(st, 1) == Mixed(st, 0) && Stepped(st, 2) == Mixed(Stepped(st, 1), 0)
    ensures Stepped(st, 3) == Mixed(Stepped(st, 2), 0) && Stepped(st, 4) == Mixed(Stepped(st, 3), 0)
  {
    hide Mixed;
  }

  lemma SeededNone(st: State, seeds: seq<Bytes>)
    requires st.Sized()
    ensures Seeded(st, seeds, 0) == st
  {
  }

  lemma SeededNext(st: State, seeds: seq<Bytes>, n: nat)
    requires st.Sized() && n < |seeds|
    ensures Seeded(st, seeds, n + 1)
            == if seeds[n] == [] then Seeded(st, seeds, n) else Stirred(Seeded(st, seeds, n), seeds[n])
  {
  }

  lemma FedNone(st: State, dat: Bytes)
    requires st.Sized()
    ensures Fed(st, dat, 0) == st
  {
  }

  lemma FedNext(st: State, dat: Bytes, n: nat)
    requires st.Sized() && 256 * n < |dat|
    ensures Fed(st, dat, n + 1) == Stirred(Fed(st, dat, n), dat[256 * n..])
  {
  }

  datatype Action = Draw(seeds: seq<Bytes>, good: bool, forked: bool)
                  | Reseed(seeds: seq<Bytes>, good: bool)
                  | Mix(dat: Bytes, seeds: seq<Bytes>, good: bool)
                  | FillBuffer(first: Supply, forked: bool, each: seq<Supply>)

  function Next(g: Full, a: Action): (r: Full)
    requires g.Sized()
    ensures r.Sized() && r.initialized
  {
    match a
    case Draw(seeds, good, forked) => Drawn(g, seeds, good, forked)
    case Reseed(seeds, good) => StirredAll(g, seeds, good)
    case Mix(dat, seeds, good) => FedAll(g, dat, seeds, good)
    case FillBuffer(first, forked, each) => Filled(Checked(g, first, forked), each, |each|)
  }

  function After(actions: seq<Action>): (r: Full)
    ensures r.Sized() && (actions != [] ==> r.initialized)
  {
    if actions == [] then Zero() else Next(After(actions[..|actions| - 1]), actions[|actions| - 1])
  }

  lemma {:induction false} SteppedPermutes(st: State, n: nat)
    requires Permutation(st.s)
    ensures Permutation(Stepped(st, n).s)
  {
    if n > 0 {
      SteppedPermutes(st, n - 1);
      MixedPermutes(Stepped(st, n - 1), 0);
    }
  }

  lemma {:induction false} SeededPermutes(st: State, seeds: seq<Bytes>, n: nat)
    requires Permutation(st.s) && n <= |seeds|
    ensures Permutation(Seeded(st, seeds, n).s)
  {
    if n > 0 {
      SeededPermutes(st, seeds, n - 1);
      if seeds[n - 1] != [] {
        StirredPermutes(Seeded(st, seeds, n - 1), seeds[n - 1]);
      }
    }
  }

  lemma StirredPermutes(st: State, dat: Bytes)
    requires Permutation(st.s) && dat != []
    ensures Permutation(Stirred(st, dat).s)
  {
    MixedByPermutes(st.(i := (st.i + 255) % 256), dat, 256);
  }

  lemma {:induction false} FedPermutes(st: State, dat: Bytes, n: nat)
    requires Permutation(st.s)
    ensures Permutation(Fed(st, dat, n).s)
  {
    if n > 0 {
      FedPermutes(st, dat, n - 1);
      if 256 * (n - 1) < |dat| {
        StirredPermutes(Fed(st, dat, n - 1), dat[256 * (n - 1)..]);
      }
    }
  }

  ghost predicate Sound(g: Full) {
    g.Sized() && (g.initialized ==> Permutation(g.st.s))
  }

  lemma StirredAllSound(g: Full, seeds: seq<Bytes>, good: bool)
    requires Sound(g)
    ensures Sound(StirredAll(g, seeds, good))
  {
    hide Mixed, Stepped, Seeded;
    var from := if g.initialized then g.st else Start();
    assert Permutation(Start().s);
    SeededPermutes(from, seeds, |seeds|);
    SteppedPermutes(Seeded(from, seeds, |seeds|), 12 * 256);
  }

  lemma {:induction false} FilledSound(g: Full, each: seq<Supply>, n: nat)
    requires Sound(g) && g.initialized && n <= |each|
    ensures Sound(Filled(g, each, n))
  {
    hide Permutation, StirredAll, Stepped;
    if n > 0 {
      FilledSound(g, each, n - 1);
      var f, e := Filled(g, each, n - 1), each[n - 1];
      StirredAllSound(f.(count := f.count - 1), e.seeds, e.good);
      SteppedPermutes(if f.count - 1 <= 0 then StirredAll(f.(count := f.count - 1), e.seeds, e.good).st else f.st, 1);
    }
  }

  lemma NextSound(g: Full, a: Action)
    requires Sound(g)
    ensures Sound(Next(g, a))
  {
    hide Permutation, StirredAll, Stepped, Fed, Filled;
    match a {
      case Draw(seeds, good, forked) =>
        StirredAllSound(g.(count := g.count - 4), seeds, good);
        SteppedPermutes(Ready(g, seeds, good, forked).st, 4);
      case Reseed(seeds, good) => StirredAllSound(g, seeds, good);
      case Mix(dat, seeds, good) =>
        StirredAllSound(g, seeds, good);
        FedPermutes((if g.initialized then g else StirredAll(g, seeds, good)).st, dat, (|dat| + 255) / 256);
      case FillBuffer(first, forked, each) =>
        StirredAllSound(g, first.seeds, first.good);
        FilledSound(Checked(g, first, forked), each, |each|);
    }
  }

  /** After any run of outputs and reseeds the table is a permutation: no byte has been
      lost. */
  lemma {:induction false} RunSound(actions: seq<Action>)
    ensures Sound(After(actions))
    ensures actions != [] ==> forall b: Byte :: b in After(actions).st.s
  {
    if actions != [] {
      RunSound(actions[..|actions| - 1]);
      NextSound(After(actions[..|actions| - 1]), actions[|actions| - 1]);
      forall b: Byte ensures b in After(actions).st.s {
        PermutationHasAll(After(actions).st.s, b);
      }
    }
  }

  /** A run on the generator goes through the states of the run, and gives the words and
      buffers that these give. */
  method Run(actions: seq<Action>) returns (g: Generator, words: seq<nat>)
    ensures fresh(g) && fresh(g.s) && g.Whole() == After(actions)
    ensures words == WordsOf(actions)
  {
    hide Permutation, StirredAll, Stepped, Fed, Drawn, FedAll, WordOf, Ready, Mixed, Filled, Buffer, Checked;
    g := new Generator();
    words := [];
    for k := 0 to |actions|
      invariant g.Valid() && fresh(g) && fresh(g.s) && g.Whole() == After(actions[..k]) && words == WordsOf(actions[..k])
    {
      assert actions[..k + 1][..k] == actions[..k];
      match actions[k] {
        case Draw(seeds, good, forked) =>
          var w := g.Random(seeds, good, forked);
          words := words + [w];
        case Reseed(seeds, good) => var r := g.Stir(seeds, good);
        case Mix(dat, seeds, good) => g.Feed(dat, seeds, good);
        case FillBuffer(first, forked, each) =>
          var buf := g.Fill(first, forked, each);
          words := words + buf;
      }
    }
    assert actions[..|actions|] == actions;
  }

  function WordsOf(actions: seq<Action>): seq<nat> {
    if actions == [] then []
    else
      var front, a := actions[..|actions| - 1], actions[|actions| - 1];
      WordsOf(front) + match a
                       case Draw(seeds, good, forked) => [WordOf(Ready(After(front), seeds, good, forked).st)]
                       case FillBuffer(first, forked, each) => Buffer(Checked(After(front), first, forked), each, |each|)
                       case _ => []
  }
}
