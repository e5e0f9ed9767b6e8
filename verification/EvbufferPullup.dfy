/** evbuffer_pullup of libevent/buffer.c: makes the first bytes of a buffer
    contiguous without changing the string it denotes. */
module EvbufferPullup {
  import opened Options
  import opened ByteStrings
  import opened Chains
  import opened Evbuffer

  /** The result of copying whole chains, and then part of the next one, into
      one place. */
  datatype Scan = Scan(k: nat, rest: nat, got: Bytes, removedLwd: bool, removedLwdp: bool)

  /** What the copying loop establishes when it starts at chain `start` and wants
      `size` bytes. */
  ghost predicate Scanned(cs: seq<Chain>, w: nat, start: nat, size: nat, s: Scan)
  {
    && start <= s.k <= |cs|
    && s.got == Flatten(cs[start..s.k]) && |s.got| + s.rest == size
    && (s.k < |cs| ==> s.rest < cs[s.k].off)
    && (s.k == |cs| ==> s.rest == 0)
    && (s.removedLwd <==> start <= w < s.k)
    && (s.removedLwdp <==> start < w <= s.k)
  }

  method CopyChains(buf: Buffer, start: nat, size: nat) returns (s: Scan)
    requires start <= |buf.chains| && size <= |Flatten(buf.chains[start..])|
    ensures Scanned(buf.chains, buf.lwd, start, size, s)
  {
    var cs := buf.chains;
    s := Scan(start, size, [], false, false);
    assert cs[start..start] == [];
    while s.k < |cs| && s.rest >= cs[s.k].off
      invariant start <= s.k <= |cs|
      invariant s.got == Flatten(cs[start..s.k]) && |s.got| + s.rest == size
      invariant s.rest <= |Flatten(cs[s.k..])|
      invariant s.removedLwd <==> start <= buf.lwd < s.k
      invariant s.removedLwdp <==> start < buf.lwd <= s.k
      decreases |cs| - s.k
    {
      CopyStep(cs, start, s.k);
      s := Scan(s.k + 1, s.rest - cs[s.k].off, s.got + cs[s.k].Data(),
                s.removedLwd || s.k == buf.lwd,
                s.removedLwdp || s.k + 1 == buf.lwd);
    }
  }

  lemma CopyStep(cs: seq<Chain>, start: nat, k: nat)
    requires start <= k < |cs|
    ensures Flatten(cs[start..k + 1]) == Flatten(cs[start..k]) + cs[k].Data()
    ensures Flatten(cs[k..]) == cs[k].Data() + Flatten(cs[k + 1..])
  {
    FlattenFrom(cs, k);
    var tail := cs[start..];
    FlattenNext(tail, k - start);
    assert tail[..k - start] == cs[start..k] && tail[..k - start + 1] == cs[start..k + 1];
  }

  /** The bytes copied: whole chains, and the first ones of the next chain. */
  ghost function Copied(cs: seq<Chain>, s: Scan): Bytes
    requires s.k < |cs| ==> s.rest <= cs[s.k].off
  {
    if s.k < |cs| then s.got + cs[s.k].Data()[..s.rest] else s.got
  }

  /** The chains that stay behind the one the bytes were copied into. */
  function Remaining(cs: seq<Chain>, s: Scan): seq<Chain>
    requires s.k < |cs| ==> s.rest < cs[s.k].off
  {
    if s.k < |cs| then [cs[s.k].DropFront(s.rest)] + cs[s.k + 1..] else []
  }

  /** Nothing is lost or reordered: the bytes copied and the chains left behind
      are what the chains from `start` on denoted. */
  lemma CopyKeepsBytes(cs: seq<Chain>, w: nat, start: nat, size: nat, s: Scan)
    requires Scanned(cs, w, start, size, s)
    ensures |Copied(cs, s)| == size
    ensures Flatten(cs[start..]) == Copied(cs, s) + Flatten(Remaining(cs, s))
  {
    TailSplit(cs, start, s.k);
    if s.k < |cs| {
      FlattenFrom(cs, s.k);
      RemainingBytes(cs, s);
      var d, r := cs[s.k].Data(), Flatten(cs[s.k + 1..]);
      hide Flatten, Remaining, RawChain.Data;
      Rejoin(s.got, d, r, s.rest);
    }
  }

  lemma TailSplit(cs: seq<Chain>, start: nat, k: nat)
    requires start <= k <= |cs|
    ensures Flatten(cs[start..]) == Flatten(cs[start..k]) + Flatten(cs[k..])
  {
    hide Flatten;
    var tail := cs[start..];
    FlattenSplit(tail, k - start);
    assert tail[..k - start] == cs[start..k] && tail[k - start..] == cs[k..];
  }

  lemma RemainingBytes(cs: seq<Chain>, s: Scan)
    requires s.k < |cs| && s.rest < cs[s.k].off
    ensures Flatten(Remaining(cs, s)) == cs[s.k].Data()[s.rest..] + Flatten(cs[s.k + 1..])
  {
    assert Remaining(cs, s)[1..] == cs[s.k + 1..];
  }

  lemma Rejoin(a: Bytes, d: Bytes, r: Bytes, n: nat)
    requires n <= |d|
    ensures a + (d + r) == a + d[..n] + (d[n..] + r)
  {
    assert d == d[..n] + d[n..];
  }

  /** The index of the last chain with data after the merge, as the two flags
      decide it. */
  function NewLwd(w: nat, s: Scan, after: seq<Chain>): int
  {
    if s.removedLwd then 0
    else if s.removedLwdp then (if |after| > 1 && after[1].off > 0 then 1 else 0)
    else w - s.k + 1
  }

  lemma MergeKeepsLast(cs: seq<Chain>, w: nat, start: nat, size: nat, s: Scan, tmp: Chain)
    requires LastWithData(cs, w) && 0 < w < |cs| && start <= 1
    requires Scanned(cs, w, start, size, s) && tmp.off > 0
    ensures var after := [tmp] + Remaining(cs, s);
            NewLwd(w, s, after) >= 0 && LastWithData(after, NewLwd(w, s, after))
            && (Packed(cs, w) ==> Packed(after, NewLwd(w, s, after)))
  {
    var after := [tmp] + Remaining(cs, s);
    if s.k <= w {
      assert forall i :: 1 < i < |after| ==> after[i] == cs[s.k + i - 1];
      assert after[1].off > 0;
    } else {
      assert s.k == |cs|;
    }
  }

  /** evbuffer_pullup. The result, when there is one, is the contiguous memory at
      the front of the buffer. */
  method Pullup(buf: Buffer, want: int) returns (r: Option<Bytes>)
    requires buf.Valid()
    modifies buf`chains, buf`lwd, buf`last
    ensures buf.Valid() && buf.Contents() == old(buf.Contents())
    ensures old(buf.NoGaps()) ==> buf.NoGaps()
    ensures var size := if want < 0 then buf.totalLen else want;
            && (r.None? ==> size == 0 || size > buf.totalLen || size > CHAIN_ROOM)
            && (size == 0 || size > buf.totalLen || size > CHAIN_ROOM ==> r.None?)
            && (r.Some? ==> size <= |r.value| && r.value <= buf.Contents())
  {
    var size := if want < 0 then buf.totalLen else want;
    if size == 0 || size > buf.totalLen {
      return None;
    }
    var cs := buf.chains;
    assert cs != [];
    var chain := cs[0];
    FlattenFrom(cs, 0);
    assert cs[0..] == cs;
    if chain.off >= size {
      return Some(chain.Data());
    }
    if |chain.mem| - chain.misalign >= size {
      MergeInto(buf, chain, 1, size - chain.off);
    } else {
      var spare := NewChain(size);
      if spare.None? {
        return None;
      }
      MergeInto(buf, spare.value, 0, size);
    }
    r := Some(buf.chains[0].Data());
    FlattenFrom(buf.chains, 0);
    assert buf.chains[0..] == buf.chains;
  }

  /** Copies `size` bytes from chain `start` on into `base`, which becomes the
      first chain. */
  method MergeInto(buf: Buffer, base: Chain, start: nat, size: nat)
    requires buf.Valid() && start <= 1 && |buf.chains| > 0
    requires if start == 1 then base == buf.chains[0] else base.off == 0
    requires !base.immutable && 0 < size <= base.SpaceLen()
    requires size <= |Flatten(buf.chains[start..])| && buf.chains[0].off < base.off + size
    modifies buf`chains, buf`lwd, buf`last
    ensures buf.Valid() && buf.Contents() == old(buf.Contents())
    ensures old(buf.NoGaps()) ==> buf.NoGaps()
    ensures buf.chains != [] && buf.chains[0].off == base.off + size
  {
    var cs := buf.chains;
    assert 0 < buf.lwd < |cs| by { NeedsMore(cs, buf.lwd, base, start, size); }
    hide Flatten, LastWithData, Packed, RawChain.Data, RawChain.Append, RawChain.Ok, NewLwd;
    var s := CopyChains(buf, start, size);
    var tmp := MergedChain(cs, base, start, size, buf.lwd, s);
    RemainingLength(cs, s);
    hide Remaining, Copied, Scanned;
    var after := [tmp] + Remaining(cs, s);
    buf.chains, buf.last, buf.lwd :=
      after, if s.k < |cs| then buf.last - s.k + 1 else 0, NewLwd(buf.lwd, s, after);
  }

  /** The chain that the bytes are copied into. */
  method MergedChain(cs: seq<Chain>, base: Chain, start: nat, size: nat, w: nat, s: Scan) returns (tmp: Chain)
    requires LastWithData(cs, w) && 0 < w < |cs| && start <= 1 && Scanned(cs, w, start, size, s)
    requires if start == 1 then base == cs[0] else base.off == 0
    requires !base.immutable && 0 < size <= base.SpaceLen()
    ensures tmp.off == base.off + size
    ensures var after := [tmp] + Remaining(cs, s);
            && Flatten(after) == Flatten(cs)
            && NewLwd(w, s, after) >= 0 && LastWithData(after, NewLwd(w, s, after))
            && (Packed(cs, w) ==> Packed(after, NewLwd(w, s, after)))
  {
    hide Flatten, LastWithData, Packed, RawChain.Data, RawChain.Append, RawChain.Ok, NewLwd;
    CopyKeepsBytes(cs, w, start, size, s);
    var bytes := if s.k < |cs| then s.got + cs[s.k].Data()[..s.rest] else s.got;
    tmp := base.Append(bytes);
    MergeKeepsLast(cs, w, start, size, s, tmp);
    MergeKeepsBytes(cs, base, start, s, tmp);
  }

  lemma RemainingLength(cs: seq<Chain>, s: Scan)
    requires s.k <= |cs| && (s.k < |cs| ==> s.rest < cs[s.k].off)
    ensures |Remaining(cs, s)| == |cs| - s.k
  {
  }

  /** More bytes are wanted than the first chain holds, so there are data behind
      it. */
  lemma NeedsMore(cs: seq<Chain>, w: nat, base: Chain, start: nat, size: nat)
    requires LastWithData(cs, w) && cs != [] && start <= 1
    requires if start == 1 then base == cs[0] else base.off == 0
    requires size <= |Flatten(cs[start..])| && cs[0].off < base.off + size
    ensures 0 < w
  {
    FlattenUpTo(cs, w);
    assert cs[..0] == [] && cs[0..] == cs;
  }

  lemma MergeKeepsBytes(cs: seq<Chain>, base: Chain, start: nat, s: Scan, tmp: Chain)
    requires start <= 1 <= |cs| && (if start == 1 then base == cs[0] else base.off == 0)
    requires s.k < |cs| ==> s.rest < cs[s.k].off
    requires tmp.Data() == base.Data() + Copied(cs, s)
    requires Flatten(cs[start..]) == Copied(cs, s) + Flatten(Remaining(cs, s))
    ensures Flatten([tmp] + Remaining(cs, s)) == Flatten(cs)
  {
    var rest := Remaining(cs, s);
    assert ([tmp] + rest)[1..] == rest;
    assert cs[0..] == cs;
    Regroup(base.Data(), Copied(cs, s), Flatten(rest));
    hide Copied, Remaining;
  }
}
