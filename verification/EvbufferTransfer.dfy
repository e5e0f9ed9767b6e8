/** The operations of libevent/buffer.c that move chains between buffers or
    merge them, instead of copying bytes. */
module EvbufferTransfer {
  import opened ByteStrings
  import opened Chains
  import opened Evbuffer

  /** ZERO_CHAIN. */
  method ZeroChain(buf: Buffer)
    modifies buf`chains, buf`lwd, buf`last, buf`totalLen
    ensures buf.Valid() && buf.NoGaps() && buf.Contents() == []
  {
    buf.chains, buf.last, buf.lwd, buf.totalLen := [], -1, 0, 0;
  }

  /** evbuffer_add_buffer: hands all chains of `src` to the end of `dst`. */
  method AddBuffer(dst: Buffer, src: Buffer) returns (ok: bool)
    requires dst.Valid() && src.Valid()
    requires dst != src ==> dst.totalLen + src.totalLen <= SIZE_MAX
    modifies dst`chains, dst`lwd, dst`last, dst`totalLen
    modifies src`chains, src`lwd, src`last, src`totalLen
    ensures dst.Valid() && src.Valid()
    ensures ok <==> dst == src || old(src.totalLen) == 0 || !(dst.freezeEnd || src.freezeStart)
    ensures dst == src || !ok ==> dst.Contents() == old(dst.Contents()) && src.Contents() == old(src.Contents())
    ensures dst != src && ok ==> dst.Contents() == old(dst.Contents()) + old(src.Contents())
    ensures dst != src && ok ==> src.Contents() == []
    ensures old(dst.NoGaps()) && old(src.NoGaps()) ==> dst.NoGaps()
    ensures !ok || old(src.totalLen) == 0 ==> dst.chains == old(dst.chains) && dst.lwd == old(dst.lwd)
    ensures dst != src && (ok || old(src.NoGaps())) ==> src.NoGaps()
  {
    NothingHasNoGaps(src.chains, src.lwd);
    if src.totalLen == 0 || dst == src {
      return true;
    }
    if dst.freezeEnd || src.freezeStart {
      return false;
    }
    FlattenUpTo(src.chains, src.lwd);
    if dst.totalLen == 0 {
      dst.chains, dst.lwd, dst.last, dst.totalLen := src.chains, src.lwd, src.last, src.totalLen;
    } else {
      AppendChain(dst, src);
    }
    ZeroChain(src);
    return true;
  }

  /** Without data there are no gaps. */
  lemma NothingHasNoGaps(cs: seq<Chain>, w: nat)
    requires LastWithData(cs, w)
    ensures Flatten(cs) == [] ==> Packed(cs, w)
  {
    if cs != [] {
      FlattenUpTo(cs, w);
    }
  }

  /** APPEND_CHAIN. */
  method AppendChain(dst: Buffer, src: Buffer)
    requires dst != src && dst.Valid() && src.Valid() && src.chains != [] && src.chains[src.lwd].off > 0
    modifies dst`chains, dst`lwd, dst`last, dst`totalLen
    ensures dst.Valid() && dst.Contents() == old(dst.Contents()) + src.Contents()
    ensures old(dst.NoGaps()) && src.NoGaps() ==> dst.NoGaps()
  {
    InsertBytes(dst.chains, dst.lwd, src.chains);
    InsertKeepsLast(dst.chains, dst.lwd, src.chains, src.lwd);
    var slot := dst.TrailingSlot();
    dst.chains, dst.lwd, dst.last, dst.totalLen :=
      dst.chains[..slot] + src.chains, slot + src.lwd, slot + src.last, dst.totalLen + src.totalLen;
  }

  /** evbuffer_prepend_buffer: hands all chains of `src` to the front of `dst`.
      Empty chains at the end of `src` end up before the last chain with data,
      so the result has no gaps exactly when there were none of these. */
  method PrependBuffer(dst: Buffer, src: Buffer) returns (ok: bool)
    requires dst.Valid() && src.Valid()
    requires dst != src ==> dst.totalLen + src.totalLen <= SIZE_MAX
    modifies dst`chains, dst`lwd, dst`last, dst`totalLen
    modifies src`chains, src`lwd, src`last, src`totalLen
    ensures dst.Valid() && src.Valid()
    ensures ok <==> dst == src || old(src.totalLen) == 0 || !(dst.freezeStart || src.freezeStart)
    ensures dst == src || !ok ==> dst.Contents() == old(dst.Contents()) && src.Contents() == old(src.Contents())
    ensures dst != src && ok ==> dst.Contents() == old(src.Contents()) + old(dst.Contents())
    ensures dst != src && ok ==> src.Contents() == []
    ensures dst != src && ok && old(dst.totalLen) > 0 && old(src.totalLen) > 0 ==>
              (dst.NoGaps() <==>
                old(dst.NoGaps()) && old(src.NoGaps()) && old(src.lwd) == old(|src.chains|) - 1)
    ensures !ok || old(src.totalLen) == 0 ==> dst.chains == old(dst.chains) && dst.lwd == old(dst.lwd)
    ensures dst != src && (ok || old(src.NoGaps())) ==> src.NoGaps()
  {
    NothingHasNoGaps(src.chains, src.lwd);
    if src.totalLen == 0 || dst == src {
      return true;
    }
    if dst.freezeStart || src.freezeStart {
      return false;
    }
    if dst.totalLen == 0 {
      dst.chains, dst.lwd, dst.last, dst.totalLen := src.chains, src.lwd, src.last, src.totalLen;
    } else {
      PrependChainList(dst, src);
    }
    ZeroChain(src);
    return true;
  }

  /** PREPEND_CHAIN. */
  method PrependChainList(dst: Buffer, src: Buffer)
    requires dst != src && dst.Valid() && src.Valid() && src.totalLen > 0 && dst.totalLen > 0
    modifies dst`chains, dst`lwd, dst`last, dst`totalLen
    ensures dst.Valid() && dst.Contents() == src.Contents() + old(dst.Contents())
    ensures dst.NoGaps() <==> old(dst.NoGaps()) && src.NoGaps() && src.lwd == |src.chains| - 1
  {
    hide RawChain.Data;
    FlattenUpTo(dst.chains, dst.lwd);
    FlattenUpTo(src.chains, src.lwd);
    FlattenConcat(src.chains, dst.chains);
    ConcatLast(src.chains, src.lwd, dst.chains, dst.lwd);
    hide Flatten, LastWithData, Packed, RawChain.Data;
    dst.chains, dst.lwd, dst.last, dst.totalLen :=
      src.chains + dst.chains, |src.chains| + dst.lwd, |src.chains| + dst.last, dst.totalLen + src.totalLen;
  }

  lemma ConcatLast(a: seq<Chain>, v: nat, b: seq<Chain>, w: nat)
    requires LastWithData(a, v) && LastWithData(b, w) && a != [] && b != [] && b[w].off > 0 && a[v].off > 0
    ensures LastWithData(a + b, |a| + w)
    ensures Packed(a + b, |a| + w) <==> Packed(a, v) && Packed(b, w) && v == |a| - 1
  {
    var all := a + b;
    forall i | 0 <= i < |all|
      ensures all[i] == if i < |a| then a[i] else b[i - |a|]
    {
    }
    if Packed(all, |a| + w) {
      assert all[|a| - 1] == a[|a| - 1];
      forall i | 0 <= i < w ensures b[i].off > 0 {
        assert all[|a| + i] == b[i];
      }
    }
  }

  /** Where advance_last_with_data stops when started at `w`: before the first
      chain without data. */
  ghost function AdvanceFrom(cs: seq<Chain>, w: nat): (r: nat)
    requires w < |cs|
    ensures w <= r < |cs|
    decreases |cs| - w
  {
    if w + 1 < |cs| && cs[w + 1].off > 0 then AdvanceFrom(cs, w + 1) else w
  }

  method AdvanceLastWithData(buf: Buffer) returns (n: nat)
    requires buf.chains == [] || buf.lwd < |buf.chains|
    modifies buf`lwd
    ensures buf.chains == [] ==> buf.lwd == old(buf.lwd) && n == 0
    ensures buf.chains != [] ==> buf.lwd == AdvanceFrom(buf.chains, old(buf.lwd)) == old(buf.lwd) + n
  {
    n := 0;
    if buf.chains == [] {
      return;
    }
    while buf.lwd + 1 < |buf.chains| && buf.chains[buf.lwd + 1].off > 0
      invariant buf.chains == old(buf.chains) && buf.lwd == old(buf.lwd) + n < |buf.chains|
      invariant AdvanceFrom(buf.chains, old(buf.lwd)) == AdvanceFrom(buf.chains, buf.lwd)
      decreases |buf.chains| - buf.lwd
    {
      buf.lwd := buf.lwd + 1;
      n := n + 1;
    }
  }

  /** From chain `from` on, no empty chain stands before one with data. */
  predicate EmptiesLast(cs: seq<Chain>, from: nat)
  {
    forall i, j :: from <= i < j < |cs| && cs[j].off > 0 ==> cs[i].off > 0
  }

  /** Advancing reaches the last chain with data exactly when no empty chain
      stands between the starting point and some chain with data. */
  lemma {:induction false} AdvanceReachesLast(cs: seq<Chain>, w: nat)
    requires w < |cs| && (w == 0 || cs[w].off > 0)
    ensures LastWithData(cs, AdvanceFrom(cs, w)) <==> EmptiesLast(cs, w + 1)
    decreases |cs| - w
  {
    if w + 1 < |cs| && cs[w + 1].off > 0 {
      AdvanceReachesLast(cs, w + 1);
      assert EmptiesLast(cs, w + 1) <==> EmptiesLast(cs, w + 2);
    } else if LastWithData(cs, w) {
    } else {
      var j :| w < j < |cs| && cs[j].off > 0;
      assert w < w + 1 < j && cs[w + 1].off == 0;
    }
  }

  /** Where advancing does not reach the last chain with data, it is stuck. */
  lemma {:induction false} AdvanceSticks(cs: seq<Chain>, w: nat)
    requires w < |cs| && (w == 0 || cs[w].off > 0)
    ensures LastWithData(cs, AdvanceFrom(cs, w)) || Stuck(cs, AdvanceFrom(cs, w))
    decreases |cs| - w
  {
    if w + 1 < |cs| && cs[w + 1].off > 0 {
      AdvanceSticks(cs, w + 1);
    } else if !LastWithData(cs, w) {
      var j :| w < j < |cs| && cs[j].off > 0;
      assert w + 1 < j;
    }
  }

  /** The condition under which moving `len` bytes out of a buffer is safe. Of
      the chains it passes over, the empty ones come last (bar the very first, if
      the destination has no data); or it passes over empty ones only, and the
      chain it then reaches is not the last with data. */
  predicate Movable(cs: seq<Chain>, w: nat, len: nat, dstEmpty: bool)
  {
    var k := SkipCount(cs, len);
    if AllEmpty(cs[..k]) then k == 0 || w != k else EmptiesLast(cs[..k], if dstEmpty then 1 else 0)
  }

  lemma PackedIsMovable(cs: seq<Chain>, w: nat, len: nat, dstEmpty: bool)
    requires Packed(cs, w) && SkipCount(cs, len) <= w
    ensures Movable(cs, w, len, dstEmpty)
  {
    var k := SkipCount(cs, len);
    if k > 0 { assert cs[..k][0].off > 0; }
  }

  /** Relinking `moved` behind `cs` and advancing finds the last chain with data
      exactly when the empty chains of `moved` come last. */
  lemma RelinkExact(cs: seq<Chain>, w: nat, moved: seq<Chain>)
    requires LastWithData(cs, w) && moved != []
    ensures var linked := cs[..InsertAt(cs, w)] + moved;
            w < |linked| && (LastWithData(linked, AdvanceFrom(linked, w)) <==>
                               EmptiesLast(moved, if AllEmpty(cs) then 1 else 0))
  {
    var p := InsertAt(cs, w);
    var linked := cs[..p] + moved;
    FlattenEmpty(cs);
    if cs != [] { FlattenUpTo(cs, w); }
    AdvanceReachesLast(linked, w);
    if p == 0 {
      assert linked == moved;
    } else {
      assert |cs[..p]| == w + 1;
      RelinkIndices(cs[..p], moved);
    }
  }

  lemma RelinkIndices(a: seq<Chain>, b: seq<Chain>)
    ensures EmptiesLast(a + b, |a|) <==> EmptiesLast(b, 0)
  {
    var all := a + b;
    if EmptiesLast(b, 0) {
      forall i, j | |a| <= i < j < |all| && all[j].off > 0 ensures all[i].off > 0 {
        assert all[j] == b[j - |a|] && all[i] == b[i - |a|];
      }
    }
    if EmptiesLast(all, |a|) {
      forall i, j | 0 <= i < j < |b| && b[j].off > 0 ensures b[i].off > 0 {
        assert all[|a| + i] == b[i] && all[|a| + j] == b[j];
      }
    }
  }

  /** A list of chains and the index that `last_with_datap` leads to. */
  datatype Linked = Linked(chains: seq<Chain>, lwd: int)

  /** What evbuffer_remove_buffer leaves of the source when it takes `len` bytes: the
      chains passed over go if they hold data, and the pointer is reset to the first
      link if the loop passed the link it was. */
  ghost function SourceAfter(cs: seq<Chain>, w: nat, len: nat): Linked
    requires LastWithData(cs, w) && len < |Flatten(cs)|
  {
    Passed(cs, w, len);
    var k := SkipCount(cs, len);
    var n := len - |Flatten(cs[..k])|;
    if AllEmpty(cs[..k]) then Linked(cs[k := cs[k].DropFront(n)], if w == k then 0 else w)
    else Linked([cs[k].DropFront(n)] + cs[k + 1..], if w == k then 0 else w - k)
  }

  /** What it makes of the destination before it copies the last bytes. */
  ghost function RelinkedTo(ds: seq<Chain>, v: nat, cs: seq<Chain>, len: nat): Linked
    requires LastWithData(ds, v) && len < |Flatten(cs)|
  {
    var k := SkipCount(cs, len);
    if AllEmpty(cs[..k]) then Linked(ds, v)
    else
      var all := ds[..InsertAt(ds, v)] + cs[..k];
      RelinkExact(ds, v, cs[..k]);
      Linked(all, AdvanceFrom(all, v))
  }

  /** The loop stops before the last chain with data, inside chain `k`. */
  lemma {:induction false} Passed(cs: seq<Chain>, w: nat, len: nat)
    requires LastWithData(cs, w) && len < |Flatten(cs)|
    ensures SkipCount(cs, len) <= w && SkipCount(cs, len) < |cs|
    ensures |Flatten(cs[..SkipCount(cs, len)])| <= len
    ensures len - |Flatten(cs[..SkipCount(cs, len)])| < cs[SkipCount(cs, len)].off
  {
    SkippedNone(cs, len);
    PassedFrom(cs, w, len, 0, len);
  }

  lemma {:induction false} PassedFrom(cs: seq<Chain>, w: nat, len: nat, k: nat, r: nat)
    requires LastWithData(cs, w) && k <= w && Skipped(cs, len, k, r)
    ensures SkipCount(cs, len) <= w && SkipCount(cs, len) < |cs|
    ensures |Flatten(cs[..SkipCount(cs, len)])| <= len
    ensures len - |Flatten(cs[..SkipCount(cs, len)])| < cs[SkipCount(cs, len)].off
    decreases w - k
  {
    hide Flatten, LastWithData, SkipCount;
    if cs[k].off <= r {
      SkippedNext(cs, w, len, k, r);
      PassedFrom(cs, w, len, k + 1, r - cs[k].off);
    } else {
      SkippedAll(cs, len, k, r);
    }
  }

  /** The source keeps its pointer right exactly if it did not pass empty chains only and
      then reach the last chain with data. */
  lemma SourceExact(cs: seq<Chain>, w: nat, len: nat)
    requires LastWithData(cs, w) && len < |Flatten(cs)|
    ensures var after, k := SourceAfter(cs, w, len), SkipCount(cs, len);
            0 <= after.lwd && (LastWithData(after.chains, after.lwd) <==> !(AllEmpty(cs[..k]) && 0 < k == w))
  {
    Passed(cs, w, len);
    var after, k := SourceAfter(cs, w, len), SkipCount(cs, len);
    if AllEmpty(cs[..k]) {
      if 0 < k == w {
        assert cs[..k][0].off == 0;
        assert after.chains[k].off > 0;
      }
    } else {
      assert forall i :: 0 < i < |after.chains| ==> after.chains[i] == cs[k + i];
    }
  }

  /** The destination keeps its pointer right exactly if the empty ones among the chains
      relinked to it come last; else the pointer is stuck. */
  lemma DestinationExact(ds: seq<Chain>, v: nat, cs: seq<Chain>, len: nat)
    requires LastWithData(ds, v) && len < |Flatten(cs)|
    ensures var after, k := RelinkedTo(ds, v, cs, len), SkipCount(cs, len);
            && 0 <= after.lwd
            && (LastWithData(after.chains, after.lwd) <==>
                  AllEmpty(cs[..k]) || EmptiesLast(cs[..k], if AllEmpty(ds) then 1 else 0))
            && (LastWithData(after.chains, after.lwd) || Stuck(after.chains, after.lwd))
  {
    var k := SkipCount(cs, len);
    if !AllEmpty(cs[..k]) {
      RelinkExact(ds, v, cs[..k]);
      RelinkSticks(ds, v, cs[..k]);
    }
  }

  lemma RelinkSticks(ds: seq<Chain>, v: nat, moved: seq<Chain>)
    requires LastWithData(ds, v) && moved != []
    ensures var all := ds[..InsertAt(ds, v)] + moved;
            v < |all| && (LastWithData(all, AdvanceFrom(all, v)) || Stuck(all, AdvanceFrom(all, v)))
  {
    RelinkExact(ds, v, moved);
    var all := ds[..InsertAt(ds, v)] + moved;
    assert v > 0 ==> all[v] == ds[v];
    AdvanceSticks(all, v);
  }

  /** Moving bytes out of a buffer leaves both pointers right if and only if the buffer
      is movable for that many bytes. */
  lemma RemoveExact(cs: seq<Chain>, w: nat, ds: seq<Chain>, v: nat, len: nat)
    requires LastWithData(cs, w) && LastWithData(ds, v) && len < |Flatten(cs)|
    ensures var src, dst := SourceAfter(cs, w, len), RelinkedTo(ds, v, cs, len);
            && 0 <= src.lwd && 0 <= dst.lwd
            && (LastWithData(src.chains, src.lwd) && LastWithData(dst.chains, dst.lwd) <==> Movable(cs, w, len, AllEmpty(ds)))
  {
    SourceExact(cs, w, len);
    DestinationExact(ds, v, cs, len);
  }

  /** One that is not: an empty chain in front of the only one with data, as prepending
      nothing to a referenced chain leaves it. Taking one byte out of two makes the
      pointer lead to the empty chain. */
  lemma EmptyInFront(c: Chain, d: Chain)
    requires c.off == 0 && d.off == 2
    ensures var cs := [c, d];
            && LastWithData(cs, 1) && 1 < |Flatten(cs)| && SkipCount(cs, 1) == 1 && !Movable(cs, 1, 1, true)
            && SourceAfter(cs, 1, 1).lwd == 0
            && !LastWithData(SourceAfter(cs, 1, 1).chains, 0)
  {
    var cs := [c, d];
    assert cs[1..] == [d] && [d][1..] == [] && cs[..1] == [c];
    assert Flatten([d]) == d.Data() + Flatten([]);
    assert Flatten(cs) == c.Data() + Flatten([d]);
    SourceExact(cs, 1, 1);
  }

  /** evbuffer_remove_buffer: moves the first `datlen` bytes of `src` to the end
      of `dst`, whole chains by relinking them and the rest by copying. Part of the
      bytes can be taken without harm if and only if the source is movable; else a
      pointer goes stale, or copying trips an assertion (`aborted`). */
  method RemoveBuffer(src: Buffer, dst: Buffer, datlen: nat) returns (result: int, aborted: bool)
    requires dst.Valid() && src.Valid()
    requires dst != src ==> dst.totalLen + src.totalLen <= SIZE_MAX
    modifies dst`chains, dst`lwd, dst`last, dst`totalLen
    modifies src`chains, src`lwd, src`last, src`totalLen
    ensures result == if datlen == 0 || dst == src then 0
                      else if dst.freezeEnd || src.freezeStart then -1
                      else if datlen >= old(src.totalLen) then old(src.totalLen) else datlen
    ensures result <= 0 ==> dst.chains == old(dst.chains) && dst.lwd == old(dst.lwd)
    ensures !aborted && dst.Valid() && src.Valid() <==>
              (0 < result < old(src.totalLen) ==> old(Movable(src.chains, src.lwd, datlen, AllEmpty(dst.chains))))
    ensures !aborted && dst.Valid() && src.Valid() ==>
              && (old(src.NoGaps()) && old(dst.NoGaps()) ==> dst.NoGaps())
              && (dst != src && old(src.NoGaps()) ==> src.NoGaps())
              && (result <= 0 ==> dst.Contents() == old(dst.Contents()) && src.Contents() == old(src.Contents()))
              && (result > 0 ==> result <= |old(src.Contents())|)
              && (result > 0 ==> dst.Contents() == old(dst.Contents()) + old(src.Contents())[..result])
              && (result > 0 ==> src.Contents() == old(src.Contents())[result..])
  {
    hide Movable, Flatten, LastWithData, Packed;
    aborted := false;
    if datlen == 0 || dst == src {
      return 0, false;
    }
    if dst.freezeEnd || src.freezeStart {
      return -1, false;
    }
    if datlen >= src.totalLen {
      ghost var all := src.Contents();
      assert all[..|all|] == all && all[|all|..] == [];
      result := src.totalLen;
      var _ := AddBuffer(dst, src);
    } else {
      result := datlen;
      aborted := RemoveSome(src, dst, datlen);
    }
  }

  method RemoveSome(src: Buffer, dst: Buffer, datlen: nat) returns (aborted: bool)
    requires src != dst && dst.Valid() && src.Valid() && dst.totalLen + src.totalLen <= SIZE_MAX
    requires 0 < datlen < src.totalLen && !dst.freezeEnd
    modifies dst`chains, dst`lwd, dst`last, dst`totalLen
    modifies src`chains, src`lwd, src`last, src`totalLen
    ensures !aborted && dst.Valid() && src.Valid() <==>
              old(Movable(src.chains, src.lwd, datlen, AllEmpty(dst.chains)))
    ensures !aborted && dst.Valid() && src.Valid() ==>
              && (old(src.NoGaps()) && old(dst.NoGaps()) ==> dst.NoGaps())
              && (old(src.NoGaps()) ==> src.NoGaps())
              && dst.Contents() == old(dst.Contents()) + old(src.Contents())[..datlen]
    ensures !aborted ==> src.Contents() == old(src.Contents())[datlen..]
  {
    ghost var cs, w, ds, v := src.chains, src.lwd, dst.chains, dst.lwd;
    SourceExact(cs, w, datlen);
    DestinationExact(ds, v, cs, datlen);
    var k, remaining, link := src.SkipChains(datlen);
    TakeSplit(src.chains, k, remaining, datlen);
    FlattenEmpty(src.chains[..k]);
    PackedFront(cs, w, k);
    hide Flatten, LastWithData, Packed, EmptiesLast, AllEmpty, RawChain.Data, Stuck, SourceAfter, RelinkedTo;
    aborted := AppendMoved(src, dst, k, datlen - remaining, src.chains[k].Data()[..remaining]);
    if aborted {
      return;
    }
    LeaveRest(src, k, remaining, link, datlen);
  }

  lemma PackedFront(cs: seq<Chain>, w: nat, k: nat)
    requires k <= w && k <= |cs|
    ensures Packed(cs, w) ==> forall i :: 0 <= i < k ==> cs[i].off > 0
  {
  }

  /** Appends to `dst` the first `k` chains of `src`, unless they are empty, and
      then some more bytes. */
  method AppendMoved(src: Buffer, dst: Buffer, k: nat, nread: nat, rest: Bytes) returns (aborted: bool)
    requires src != dst && dst.Valid() && k <= |src.chains| && nread == |Flatten(src.chains[..k])|
    requires nread == 0 <==> AllEmpty(src.chains[..k])
    requires !dst.freezeEnd && |rest| <= CHAIN_ROOM && dst.totalLen + nread + |rest| <= SIZE_MAX
    modifies dst`chains, dst`lwd, dst`last, dst`totalLen
    ensures !aborted && dst.Valid() <==>
              old(AllEmpty(src.chains[..k]) || EmptiesLast(src.chains[..k], if AllEmpty(dst.chains) then 1 else 0))
    ensures !aborted && dst.Valid() ==> dst.Contents() == old(dst.Contents()) + (Flatten(src.chains[..k]) + rest)
    ensures !aborted && dst.Valid() && old(dst.NoGaps()) && (forall i :: 0 <= i < k ==> src.chains[i].off > 0) ==> dst.NoGaps()
  {
    Regroup(dst.Contents(), Flatten(src.chains[..k]), rest);
    hide Flatten, EmptiesLast, Packed, AllEmpty, LastWithData, Stuck;
    if nread > 0 {
      MoveChains(src, dst, k, nread);
    } else {
      EmptyAppended(dst.Contents(), Flatten(src.chains[..k]));
    }
    aborted := AddRest(dst, rest);
  }

  lemma EmptyAppended(a: Bytes, b: Bytes)
    requires |b| == 0
    ensures a + b == a
  {
  }

  /** evbuffer_add when there is room, on a buffer whose pointer may be stale. */
  method AddRest(dst: Buffer, rest: Bytes) returns (aborted: bool)
    requires (dst.Valid() || dst.Torn()) && !dst.freezeEnd && |rest| <= CHAIN_ROOM && dst.totalLen + |rest| <= SIZE_MAX
    modifies dst`chains, dst`lwd, dst`last, dst`totalLen
    ensures !aborted && dst.Valid() <==> old(dst.Valid())
    ensures old(dst.Valid()) ==> dst.Contents() == old(dst.Contents()) + rest && (old(dst.NoGaps()) ==> dst.NoGaps())
  {
    TornOrValid(dst);
    hide Flatten, LastWithData, Stuck, Packed;
    var copied;
    copied, aborted := dst.AddRaw(rest);
    TornOrValid(dst);
  }

  lemma TornOrValid(buf: Buffer)
    ensures !(buf.Torn() && buf.Valid())
  {
    if buf.Torn() {
      StuckIsWrong(buf.chains, buf.lwd);
    }
  }

  /** The bytes taken off the front are those of the chains passed over and the
      first ones of the next chain. */
  lemma TakeSplit(cs: seq<Chain>, k: nat, n: nat, len: nat)
    requires k < |cs| && n <= cs[k].off && len <= |Flatten(cs)|
    requires Flatten(cs)[len..] == Flatten(cs[k..])[n..]
    ensures Flatten(cs)[..len] == Flatten(cs[..k]) + cs[k].Data()[..n]
  {
    FlattenSplit(cs, k);
    FlattenFrom(cs, k);
    assert len == |Flatten(cs[..k])| + n;
  }

  /** Relinks the first `k` chains of `src`, with `nread` bytes, to the end of
      `dst`. */
  method MoveChains(src: Buffer, dst: Buffer, k: nat, nread: nat)
    requires src != dst && dst.Valid() && 0 < k <= |src.chains| && nread == |Flatten(src.chains[..k])|
    modifies dst`chains, dst`lwd, dst`last, dst`totalLen
    ensures dst.Valid() <==> old(EmptiesLast(src.chains[..k], if AllEmpty(dst.chains) then 1 else 0))
    ensures dst.Valid() || dst.Torn()
    ensures dst.Contents() == old(dst.Contents()) + Flatten(src.chains[..k]) && dst.totalLen == old(dst.totalLen) + nread
    ensures old(dst.NoGaps()) && (forall i :: 0 <= i < k ==> src.chains[i].off > 0) ==> dst.NoGaps()
  {
    ghost var cs, w, moved := dst.chains, dst.lwd, src.chains[..k];
    RelinkSticks(cs, w, moved);
    hide Flatten, EmptiesLast, AllEmpty, Packed, Stuck;
    var slot := dst.TrailingSlot();
    dst.chains, dst.last, dst.totalLen :=
      dst.chains[..slot] + src.chains[..k], slot + k - 1, dst.totalLen + nread;
    var _ := AdvanceLastWithData(dst);
    MovedOver(cs, w, moved, dst.chains, dst.lwd);
    hide LastWithData, AdvanceFrom;
  }

  lemma MovedOver(cs: seq<Chain>, w: nat, moved: seq<Chain>, all: seq<Chain>, u: nat)
    requires LastWithData(cs, w) && moved != [] && all == cs[..InsertAt(cs, w)] + moved
    requires w < |all| && u == AdvanceFrom(all, w)
    ensures LastWithData(all, u) <==> EmptiesLast(moved, if AllEmpty(cs) then 1 else 0)
    ensures LastWithData(all, u) || Stuck(all, u)
    ensures Flatten(all) == Flatten(cs) + Flatten(moved)
    ensures Packed(cs, w) && (forall i :: 0 <= i < |moved| ==> moved[i].off > 0) ==> Packed(all, u)
  {
    hide Flatten, EmptiesLast, AllEmpty, Packed, Stuck, AdvanceFrom;
    InsertBytes(cs, w, moved);
    RelinkExact(cs, w, moved);
    RelinkSticks(cs, w, moved);
    if Packed(cs, w) && forall i :: 0 <= i < |moved| ==> moved[i].off > 0 {
      RelinkPacked(cs, w, moved);
    }
  }

  lemma RelinkPacked(cs: seq<Chain>, w: nat, moved: seq<Chain>)
    requires LastWithData(cs, w) && Packed(cs, w)
    requires forall i :: 0 <= i < |moved| ==> moved[i].off > 0
    ensures forall v :: 0 <= v ==> Packed(cs[..InsertAt(cs, w)] + moved, v)
  {
    var p := InsertAt(cs, w);
    var all := cs[..p] + moved;
    forall i | 0 <= i < |all| ensures all[i].off > 0 {
      assert all[i] == if i < p then cs[i] else moved[i - p];
    }
  }

  /** What is left of `src`: the chains that were relinked are gone, and the
      copied bytes are dropped from the next one. */
  method LeaveRest(src: Buffer, k: nat, remaining: nat, link: LinkRef, len: nat)
    requires src.Valid() && len < src.totalLen && k == SkipCount(src.chains, len)
    requires k <= src.lwd && k < |src.chains| && remaining < src.chains[k].off
    requires link == if src.lwd <= k then FirstLink else NextOf(src.lwd - 1)
    requires remaining <= len && len - remaining == |Flatten(src.chains[..k])|
    requires len == remaining <==> AllEmpty(src.chains[..k])
    requires src.Contents()[len..] == Flatten(src.chains[k..])[remaining..]
    modifies src`chains, src`lwd, src`last, src`totalLen
    ensures src.Contents() == old(src.Contents())[len..]
    ensures Linked(src.chains, src.lwd) == SourceAfter(old(src.chains), old(src.lwd), len)
    ensures src.Valid() <==> !(AllEmpty(old(src.chains)[..k]) && 0 < k == old(src.lwd))
    ensures src.Valid() && old(src.NoGaps()) ==> src.NoGaps()
  {
    SourceExact(src.chains, src.lwd, len);
    if len > remaining {
      src.DropTo(k, remaining, link, len);
    } else {
      DropInside(src, k, remaining, link);
    }
  }

  /** Drops bytes of the first chain with data without removing the empty chains
      in front of it; the pointer is what the loop has made of it. */
  method DropInside(src: Buffer, k: nat, n: nat, link: LinkRef)
    requires src.Valid() && k <= src.lwd && k < |src.chains| && n < src.chains[k].off
    requires link == if src.lwd <= k then FirstLink else NextOf(src.lwd - 1)
    requires Flatten(src.chains[..k]) == []
    modifies src`chains, src`totalLen, src`lwd
    ensures src.chains == old(src.chains)[k := old(src.chains)[k].DropFront(n)]
    ensures src.lwd == if old(src.lwd) == k then 0 else old(src.lwd)
    ensures n <= |old(src.Contents())| && src.Contents() == old(src.Contents())[n..]
    ensures src.last == |src.chains| - 1 && src.totalLen == |src.Contents()|
    ensures src.Valid() && old(src.NoGaps()) ==> src.NoGaps()
  {
    DropInFirst(src.chains, src.lwd, k, n);
    src.chains := src.chains[k := src.chains[k].DropFront(n)];
    src.totalLen := src.totalLen - n;
    src.lwd := Target(link);
  }
}
