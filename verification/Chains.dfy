/** The chains of libevent/buffer.c and the byte string that a list of them
    denotes. */
module Chains {
  import opened ByteStrings

  const MAX_TO_REALIGN_IN_EXPAND: nat := 2048
  const CHAIN_MAX: nat := 0x7fff_ffff_ffff_ffff
  const CHAIN_HEADER: nat := 48

  /** The most bytes one chain can hold: what the largest allocation leaves
      after the chain's header. */
  const CHAIN_ROOM: nat := CHAIN_MAX - CHAIN_HEADER

  /** What a stretch of memory around a copied-in string then holds. */
  lemma Splice(mem: Bytes, at: nat, data: Bytes, lo: nat, hi: nat)
    requires lo <= at && at + |data| <= hi <= |mem|
    ensures var after := mem[..at] + data + mem[at + |data|..];
            && |after| == |mem|
            && after[lo..at] == mem[lo..at]
            && after[at..at + |data|] == data
            && after[lo..hi] == mem[lo..at] + data + mem[at + |data|..hi]
            && (lo == at ==> after[lo..hi] == data + mem[at + |data|..hi])
            && (hi == at + |data| ==> after[lo..hi] == mem[lo..at] + data)
  {
    var after := mem[..at] + data + mem[at + |data|..];
    assert after[lo..at] == mem[lo..at];
    assert after[at..at + |data|] == data;
    assert after[at + |data|..hi] == mem[at + |data|..hi];
    assert after[lo..hi] == after[lo..at] + after[at..at + |data|] + after[at + |data|..hi];
  }

  /** One chain: `mem` is its storage (buffer, of buffer_len bytes), of which
      the `off` bytes from `misalign` on are in use. An immutable chain refers to
      foreign memory, never without bytes, and has no slack behind them. */
  datatype RawChain = RawChain(mem: Bytes, misalign: nat, off: nat, immutable: bool) {
    predicate Ok() {
      && misalign + off <= |mem|
      && 0 < |mem| <= CHAIN_ROOM
      && (immutable ==> 0 < off && misalign + off == |mem|)
    }

    /** The bytes stored in this chain. */
    function Data(): (d: Bytes)
      requires Ok()
      ensures |d| == off
    {
      mem[misalign..misalign + off]
    }

    /** CHAIN_SPACE_LEN: the slack behind the bytes. */
    function SpaceLen(): nat
      requires Ok()
    {
      if immutable then 0 else |mem| - (misalign + off)
    }

    predicate ShouldRealign(datlen: nat)
      requires Ok()
    {
      |mem| - off >= datlen && off < |mem| / 2 && off <= MAX_TO_REALIGN_IN_EXPAND
    }

    /** Moves the bytes to the front of the storage. */
    function Align(): (c: RawChain)
      requires Ok() && !immutable
      ensures c.Ok() && c.Data() == Data() && c.misalign == 0 && |c.mem| == |mem|
    {
      var c := RawChain(mem[misalign..misalign + off] + mem[off..], 0, off, immutable);
      assert c.Data() == mem[misalign..misalign + off];
      c
    }

    /** Copies bytes into the slack behind the stored ones. */
    function Append(data: Bytes): (c: RawChain)
      requires Ok() && |data| <= SpaceLen() && !immutable
      ensures c.Ok() && c.Data() == Data() + data && |c.mem| == |mem|
      ensures off == 0 ==> c.Data() == data
    {
      var at := misalign + off;
      Splice(mem, at, data, misalign, at + |data|);
      RawChain(mem[..at] + data + mem[at + |data|..], misalign, off + |data|, immutable)
    }

    /** Copies bytes into the slack in front of the stored ones. */
    function Prepend(data: Bytes): (c: RawChain)
      requires Ok() && |data| <= misalign && !immutable
      ensures c.Ok() && c.Data() == data + Data() && |c.mem| == |mem|
    {
      var at := misalign - |data|;
      Splice(mem, at, data, at, misalign + off);
      RawChain(mem[..at] + data + mem[at + |data|..], at, off + |data|, immutable)
    }

    /** Writes into the slack behind the stored bytes without counting it. */
    function Fill(data: Bytes): (c: RawChain)
      requires Ok() && |data| <= SpaceLen()
      ensures c.Ok() && c.Data() == Data() && |c.mem| == |mem|
      ensures c.misalign == misalign && c.off == off && c.immutable == immutable
      ensures c.mem[misalign + off..misalign + off + |data|] == data
    {
      var at := misalign + off;
      Splice(mem, at, data, misalign, at + |data|);
      RawChain(mem[..at] + data + mem[at + |data|..], misalign, off, immutable)
    }

    /** Drops bytes from the front by moving `misalign` forward. */
    function DropFront(n: nat): (c: RawChain)
      requires Ok() && n <= off && (immutable ==> n < off)
      ensures c.Ok() && c.Data() == Data()[n..]
    {
      RawChain(mem, misalign + n, off - n, immutable)
    }
  }

  /** Appending a string is appending its two halves in turn. */
  lemma SplitAppend(base: Bytes, data: Bytes, k: nat)
    requires k <= |data|
    ensures base + data[..k] + data[k..] == base + data
    ensures base + data[..0] == base
  {
    assert data == data[..k] + data[k..];
  }

  /** Prepending a string is prepending its two halves, the last one first. */
  lemma PrependSplit(data: Bytes, k: nat, a: Bytes, b: Bytes)
    requires k <= |data|
    ensures data + (a + b) == data[..k] + (data[k..] + a + b)
  {
    assert data == data[..k] + data[k..];
  }

  type Chain = c: RawChain | c.Ok() witness RawChain([0], 0, 0, false)

  /** The byte string that a list of chains denotes. */
  function Flatten(cs: seq<Chain>): (r: Bytes)
  {
    if cs == [] then [] else cs[0].Data() + Flatten(cs[1..])
  }

  /** Chain `w` is the last one with data, or the first if all are empty. */
  ghost predicate LastWithData(cs: seq<Chain>, w: nat)
  {
    && (cs == [] ==> w == 0)
    && (cs != [] ==> w < |cs|)
    && (0 < w < |cs| ==> cs[w].off > 0)
    && (forall i :: w < i < |cs| ==> cs[i].off == 0)
  }

  /** No empty chain stands before chain `w`. */
  ghost predicate Packed(cs: seq<Chain>, w: nat)
  {
    forall i :: 0 <= i < w && i < |cs| ==> cs[i].off > 0
  }

  predicate AllEmpty(cs: seq<Chain>)
  {
    forall i :: 0 <= i < |cs| ==> cs[i].off == 0
  }

  /** Chain `v` is followed by an empty chain, and one with data stands behind that:
      what a pointer to the last chain with data that went stale looks like. */
  ghost predicate Stuck(cs: seq<Chain>, v: nat)
  {
    v + 1 < |cs| && cs[v + 1].off == 0 && exists j :: v + 1 < j < |cs| && cs[j].off > 0
  }

  lemma StuckIsWrong(cs: seq<Chain>, v: nat)
    requires Stuck(cs, v)
    ensures !LastWithData(cs, v)
  {
  }

  lemma {:induction false} FlattenConcat(a: seq<Chain>, b: seq<Chain>)
    ensures Flatten(a + b) == Flatten(a) + Flatten(b)
  {
    if a == [] {
      assert a + b == b;
    } else {
      assert (a + b)[1..] == a[1..] + b;
      FlattenConcat(a[1..], b);
    }
  }

  lemma FlattenSplit(cs: seq<Chain>, k: nat)
    requires k <= |cs|
    ensures Flatten(cs) == Flatten(cs[..k]) + Flatten(cs[k..])
  {
    assert cs == cs[..k] + cs[k..];
    FlattenConcat(cs[..k], cs[k..]);
  }

  lemma {:induction false} FlattenEmpty(cs: seq<Chain>)
    ensures Flatten(cs) == [] <==> AllEmpty(cs)
  {
    if cs != [] {
      FlattenEmpty(cs[1..]);
      assert AllEmpty(cs) ==> AllEmpty(cs[1..]);
      if AllEmpty(cs[1..]) && cs[0].off == 0 {
        forall i | 0 <= i < |cs| ensures cs[i].off == 0 {
          if i > 0 { assert cs[i] == cs[1..][i - 1]; }
        }
      }
    }
  }

  /** One chain can be singled out of the denoted string. */
  lemma FlattenAt(cs: seq<Chain>, k: nat)
    requires k < |cs|
    ensures Flatten(cs) == Flatten(cs[..k]) + cs[k].Data() + Flatten(cs[k + 1..])
  {
    FlattenSplit(cs, k);
    assert cs[k..][1..] == cs[k + 1..];
  }

  /** Replacing chain `k` by another one replaces its bytes. */
  lemma FlattenUpdate(cs: seq<Chain>, k: nat, c: Chain)
    requires k < |cs|
    ensures Flatten(cs[k := c]) == Flatten(cs[..k]) + c.Data() + Flatten(cs[k + 1..])
  {
    FlattenAt(cs[k := c], k);
    assert cs[k := c][..k] == cs[..k] && cs[k := c][k + 1..] == cs[k + 1..];
  }

  /** All the bytes are in the chains up to the last one with data. */
  lemma FlattenUpTo(cs: seq<Chain>, w: nat)
    requires LastWithData(cs, w) && cs != []
    ensures Flatten(cs[w + 1..]) == []
    ensures Flatten(cs) == Flatten(cs[..w + 1]) == Flatten(cs[..w]) + cs[w].Data()
    ensures Flatten(cs) == [] <==> cs[w].off == 0
  {
    FlattenSplit(cs, w + 1);
    FlattenEmpty(cs[w + 1..]);
    FlattenAt(cs, w);
    FlattenEmpty(cs);
    if w == 0 { assert cs[..0] == []; }
  }

  /** Where a new chain goes: trailing empty chains give way to it. */
  ghost function InsertAt(cs: seq<Chain>, w: nat): (p: nat)
    requires LastWithData(cs, w)
    ensures p <= |cs|
  {
    if cs == [] || cs[w].off == 0 then 0 else w + 1
  }

  /** Putting a list of chains in place of the trailing empty ones appends its
      bytes. */
  lemma InsertBytes(cs: seq<Chain>, w: nat, more: seq<Chain>)
    requires LastWithData(cs, w)
    ensures Flatten(cs[..InsertAt(cs, w)] + more) == Flatten(cs) + Flatten(more)
  {
    var p := InsertAt(cs, w);
    FlattenConcat(cs[..p], more);
    FlattenEmpty(cs);
    if cs != [] { FlattenUpTo(cs, w); }
    if p == 0 { assert cs[..0] == []; }
  }

  /** The index of the last chain with data after such an insertion. */
  ghost function InsertLwd(cs: seq<Chain>, w: nat, more: seq<Chain>, v: nat): nat
    requires LastWithData(cs, w) && LastWithData(more, v) && more != []
  {
    if more[v].off > 0 then InsertAt(cs, w) + v else w
  }

  lemma InsertKeepsLast(cs: seq<Chain>, w: nat, more: seq<Chain>, v: nat)
    requires LastWithData(cs, w) && LastWithData(more, v) && more != []
    ensures LastWithData(cs[..InsertAt(cs, w)] + more, InsertLwd(cs, w, more, v))
    ensures Packed(cs, w) && Packed(more, v) ==>
              Packed(cs[..InsertAt(cs, w)] + more, InsertLwd(cs, w, more, v))
  {
    var p := InsertAt(cs, w);
    var all, u := cs[..p] + more, InsertLwd(cs, w, more, v);
    forall i | 0 <= i < |all|
      ensures i > u ==> all[i].off == 0
      ensures i == u && u > 0 ==> all[i].off > 0
      ensures i < u && Packed(cs, w) && Packed(more, v) ==> all[i].off > 0
    {
      assert all[i] == if i < p then cs[i] else more[i - p];
    }
  }

  lemma FlattenOne(c: Chain)
    ensures Flatten([c]) == c.Data()
  {
    assert [c][1..] == [];
  }

  /** Changing only the last chain with data changes only its bytes. */
  lemma UpdateLast(cs: seq<Chain>, w: nat, c: Chain)
    requires LastWithData(cs, w) && cs != [] && (w == 0 || c.off > 0)
    ensures Flatten(cs[w := c]) == Flatten(cs[..w]) + c.Data()
    ensures LastWithData(cs[w := c], w)
    ensures Packed(cs, w) ==> Packed(cs[w := c], w)
  {
    FlattenUpdate(cs, w, c);
    FlattenUpTo(cs, w);
  }

  /** Changing only the first chain changes only its bytes. */
  lemma UpdateFirst(cs: seq<Chain>, w: nat, c: Chain)
    requires LastWithData(cs, w) && cs != [] && cs[0].off <= c.off
    ensures Flatten(cs[0 := c]) == c.Data() + Flatten(cs[1..])
    ensures LastWithData(cs[0 := c], w)
    ensures Packed(cs, w) ==> Packed(cs[0 := c], w)
  {
    assert cs[0 := c][1..] == cs[1..];
  }

  /** A chain put in front moves the last chain with data one place on. */
  lemma PrependChain(cs: seq<Chain>, w: nat, c: Chain)
    requires LastWithData(cs, w) && cs != [] && cs[w].off > 0
    ensures Flatten([c] + cs) == c.Data() + Flatten(cs)
    ensures LastWithData([c] + cs, w + 1)
    ensures Packed(cs, w) && c.off > 0 ==> Packed([c] + cs, w + 1)
  {
    assert ([c] + cs)[1..] == cs;
    assert forall i :: 0 < i < |[c] + cs| ==> ([c] + cs)[i] == cs[i - 1];
  }

  /** The bytes from chain `k` on, when chain `k` still has some to skip. */
  lemma FlattenFrom(cs: seq<Chain>, k: nat)
    requires k < |cs|
    ensures Flatten(cs[k..]) == cs[k].Data() + Flatten(cs[k + 1..])
  {
    assert cs[k..][1..] == cs[k + 1..];
  }

  /** Removing whole chains from the front, and bytes from the next one. */
  lemma DropChains(cs: seq<Chain>, w: nat, k: nat, n: nat)
    requires LastWithData(cs, w) && k <= w && k < |cs| && n < cs[k].off
    ensures Flatten([cs[k].DropFront(n)] + cs[k + 1..]) == Flatten(cs[k..])[n..]
    ensures LastWithData([cs[k].DropFront(n)] + cs[k + 1..], w - k)
    ensures Packed(cs, w) ==> Packed([cs[k].DropFront(n)] + cs[k + 1..], w - k)
  {
    var rest := [cs[k].DropFront(n)] + cs[k + 1..];
    assert rest[1..] == cs[k + 1..];
    FlattenFrom(cs, k);
    assert forall i :: 0 < i < |rest| ==> rest[i] == cs[i + k];
  }

  /** Skipping `n` bytes of a concatenation when the first part is shorter. */
  lemma SkipPrefix(a: Bytes, b: Bytes, n: nat)
    requires |a| <= n <= |a| + |b|
    ensures (a + b)[n..] == b[n - |a|..]
  {
  }

  /** How many chains at the front hold no more than `n` bytes together, one
      after the other. */
  function SkipCount(cs: seq<Chain>, n: nat): (k: nat)
    ensures k <= |cs|
  {
    if cs == [] || cs[0].off > n then 0 else 1 + SkipCount(cs[1..], n - cs[0].off)
  }

  lemma SkipCountNext(cs: seq<Chain>, k: nat, n: nat)
    requires k < |cs| && cs[k].off <= n
    ensures SkipCount(cs[k..], n) == 1 + SkipCount(cs[k + 1..], n - cs[k].off)
  {
    assert cs[k..][1..] == cs[k + 1..];
  }

  lemma FlattenNext(cs: seq<Chain>, k: nat)
    requires k < |cs|
    ensures Flatten(cs[..k + 1]) == Flatten(cs[..k]) + cs[k].Data()
  {
    FlattenAt(cs[..k + 1], k);
    assert cs[..k + 1][..k] == cs[..k] && cs[..k + 1][k + 1..] == [];
  }

  /** Passing the first `k` chains leaves `r` of `len` bytes to pass. */
  ghost predicate Skipped(cs: seq<Chain>, len: nat, k: nat, r: nat)
  {
    && k < |cs| && r <= len && len - r == |Flatten(cs[..k])|
    && SkipCount(cs, len) == k + SkipCount(cs[k..], r)
    && r < |Flatten(cs[k..])|
    && len <= |Flatten(cs)| && Flatten(cs)[len..] == Flatten(cs[k..])[r..]
  }

  lemma SkippedNone(cs: seq<Chain>, len: nat)
    requires len < |Flatten(cs)|
    ensures Skipped(cs, len, 0, len)
  {
    assert cs[0..] == cs && cs[..0] == [];
  }

  lemma SkippedNext(cs: seq<Chain>, w: nat, len: nat, k: nat, r: nat)
    requires LastWithData(cs, w) && k <= w && Skipped(cs, len, k, r) && cs[k].off <= r
    ensures k < w && Skipped(cs, len, k + 1, r - cs[k].off)
  {
    FlattenUpTo(cs, w);
    FlattenFrom(cs, k);
    FlattenNext(cs, k);
    SkipCountNext(cs, k, r);
    hide Flatten, SkipCount, RawChain.Data, LastWithData;
    SkipPrefix(cs[k].Data(), Flatten(cs[k + 1..]), r);
  }

  lemma SkippedAll(cs: seq<Chain>, len: nat, k: nat, r: nat)
    requires Skipped(cs, len, k, r) && r < cs[k].off
    ensures k == SkipCount(cs, len)
    ensures r <= len && len - r == |Flatten(cs[..k])|
    ensures len <= |Flatten(cs)| && r <= |Flatten(cs[k..])| && Flatten(cs)[len..] == Flatten(cs[k..])[r..]
  {
  }

  lemma SkipWithin(a: Bytes, b: Bytes, n: nat)
    requires n <= |a|
    ensures (a + b)[n..] == a[n..] + b
    ensures [] + a + b == a + b
  {
  }

  /** Dropping bytes of the first chain with data, the chains before it being
      empty. */
  lemma DropInFirst(cs: seq<Chain>, w: nat, k: nat, n: nat)
    requires LastWithData(cs, w) && k <= w && k < |cs| && n < cs[k].off && Flatten(cs[..k]) == []
    ensures n <= |Flatten(cs)| && Flatten(cs[k := cs[k].DropFront(n)]) == Flatten(cs)[n..]
    ensures LastWithData(cs[k := cs[k].DropFront(n)], w)
    ensures Packed(cs, w) ==> Packed(cs[k := cs[k].DropFront(n)], w)
  {
    FlattenAt(cs, k);
    FlattenUpdate(cs, k, cs[k].DropFront(n));
    SkipWithin(cs[k].Data(), Flatten(cs[k + 1..]), n);
    SkipWithin(cs[k].Data()[n..], Flatten(cs[k + 1..]), 0);
    hide Flatten;
  }
}
