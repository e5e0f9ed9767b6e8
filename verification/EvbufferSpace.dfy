/** Making room at the end of a buffer, handing that room out as vectors, and
    committing what was written there (libevent/buffer.c). */
module EvbufferSpace {
  import opened Options
  import opened ByteStrings
  import opened Chains
  import opened Evbuffer
  import opened EvbufferTransfer

  /** A stretch of memory in a chain: an iovec. */
  datatype Vec = Vec(chain: nat, at: nat, len: nat)

  /** The first chain that may have room. */
  function FirstWithSpace(cs: seq<Chain>, w: nat): nat
    requires w < |cs|
  {
    if cs[w].SpaceLen() == 0 then w + 1 else w
  }

  /** The room in up to `n` chains from chain `f` on. */
  ghost function Room(cs: seq<Chain>, f: nat, n: nat): nat
    decreases n
  {
    if n == 0 || f >= |cs| then 0 else cs[f].SpaceLen() + Room(cs, f + 1, n - 1)
  }

  lemma {:induction false} RoomExtend(cs: seq<Chain>, f: nat, n: nat)
    requires f + n < |cs|
    ensures Room(cs, f, n + 1) == Room(cs, f, n) + cs[f + n].SpaceLen()
    decreases n
  {
    if n > 0 { RoomExtend(cs, f + 1, n - 1); }
  }

  lemma RoomStep(cs: seq<Chain>, f: nat, n: nat)
    requires f + n <= |cs|
    ensures n == 0 ==> Room(cs, f, n) == 0
    ensures n > 0 ==> Room(cs, f, n) == Room(cs, f, n - 1) + cs[f + n - 1].SpaceLen()
    ensures Room(cs, f, 0) == 0
  {
    if n > 0 { RoomExtend(cs, f, n - 1); }
  }

  lemma {:induction false} RoomMonotone(cs: seq<Chain>, f: nat, m: nat, n: nat)
    requires m <= n
    ensures Room(cs, f, m) <= Room(cs, f, n)
    decreases m
  {
    if m > 0 && f < |cs| { RoomMonotone(cs, f + 1, m - 1, n - 1); }
  }

  /** Room does not depend on chains outside the counted ones. */
  lemma {:induction false} RoomFrame(a: seq<Chain>, b: seq<Chain>, f: nat, n: nat)
    requires f + n <= |a| && f + n <= |b|
    requires forall i :: f <= i < f + n ==> a[i] == b[i]
    ensures Room(a, f, n) == Room(b, f, n)
    decreases n
  {
    if n > 0 { RoomFrame(a, b, f + 1, n - 1); }
  }

  /** A list of chains that differs from another only in how its empty chains
      are aligned. */
  ghost predicate Realigned(cs: seq<Chain>, bs: seq<Chain>, w: nat)
  {
    && |bs| == |cs| && Flatten(bs) == Flatten(cs) && LastWithData(bs, w)
    && (Packed(cs, w) ==> Packed(bs, w))
    && (forall i :: 0 <= i < |cs| ==> bs[i].off == cs[i].off)
  }

  /** A chain replaced by one with the same bytes. */
  lemma SameBytes(cs: seq<Chain>, w: nat, c: nat, d: Chain)
    requires LastWithData(cs, w) && c < |cs| && d.Data() == cs[c].Data() && d.off == cs[c].off
    ensures Flatten(cs[c := d]) == Flatten(cs) && LastWithData(cs[c := d], w)
  {
    hide Flatten, RawChain.Data;
    FlattenAt(cs, c);
    FlattenUpdate(cs, c, d);
  }

  /** Moving the start of an empty chain to the front keeps everything. */
  lemma RealignEmpty(cs: seq<Chain>, bs: seq<Chain>, w: nat, k: nat, f: nat, n: nat)
    requires Realigned(cs, bs, w) && k < |bs| && bs[k].off == 0 && f + n <= k
    ensures Realigned(cs, bs[k := bs[k].(misalign := 0)], w)
    ensures Room(bs[k := bs[k].(misalign := 0)], f, n) == Room(bs, f, n)
  {
    var d: Chain := bs[k].(misalign := 0);
    assert d.Data() == [] == bs[k].Data();
    hide Flatten, RawChain.Data;
    SameBytes(bs, w, k, d);
    RoomFrame(bs, bs[k := d], f, n);
  }

  lemma RealignedSelf(cs: seq<Chain>, w: nat)
    requires LastWithData(cs, w) && cs != []
    ensures Realigned(cs, cs, w) && w < |cs|
  {
  }

  /** The room counted in the chains before `c`. */
  ghost predicate Counted(cs: seq<Chain>, bs: seq<Chain>, w: nat, c: nat, used: nat, avail: nat)
  {
    && Realigned(cs, bs, w) && w <= c <= |bs| && w < |bs|
    && (c == w ==> used == 0 && avail == 0)
    && (c > w ==> c == FirstWithSpace(bs, w) + used && avail == Room(bs, FirstWithSpace(bs, w), used))
  }

  lemma CountData(cs: seq<Chain>, bs: seq<Chain>, w: nat, c: nat, used: nat, avail: nat)
    requires Counted(cs, bs, w, c, used, avail) && c < |bs| && bs[c].off > 0
    ensures var space := bs[c].SpaceLen();
            Counted(cs, bs, w, c + 1, if space > 0 then used + 1 else used, avail + space)
  {
    assert c == w;
    RoomStep(bs, FirstWithSpace(bs, w), if bs[c].SpaceLen() > 0 then 1 else 0);
  }

  lemma CountEmpty(cs: seq<Chain>, bs: seq<Chain>, w: nat, c: nat, used: nat, avail: nat)
    requires Counted(cs, bs, w, c, used, avail) && c < |bs| && bs[c].off == 0
    ensures Counted(cs, bs[c := bs[c].(misalign := 0)], w, c + 1, used + 1, avail + |bs[c].mem|)
  {
    var f := if c > w then FirstWithSpace(bs, w) else w;
    RealignEmpty(cs, bs, w, c, f, used);
    RoomStep(bs[c := bs[c].(misalign := 0)], f, used + 1);
    hide Flatten, LastWithData, Packed, Room, Realigned;
  }

  /** The first loop of evbuffer_expand_fast_: counts the room in the first `n`
      chains with room, realigning the empty ones, until it is enough. */
  method CountRoom(cs: seq<Chain>, w: nat, datlen: nat, n: nat)
    returns (bs: seq<Chain>, used: nat, avail: nat, enough: bool)
    requires LastWithData(cs, w) && cs != [] && n >= 2
    ensures Realigned(cs, bs, w)
    ensures var f := FirstWithSpace(bs, w);
            && used <= n && f + used <= |bs| && avail == Room(bs, f, used)
            && (enough <==> avail >= datlen)
            && (!enough && used < n ==> f + used == |bs|)
  {
    bs, used, avail, enough := cs, 0, 0, false;
    RealignedSelf(cs, w);
    var c: nat := w;
    assert Counted(cs, bs, w, c, used, avail);
    hide Flatten, LastWithData, Packed, Room, FirstWithSpace;
    while c < |bs|
      invariant Counted(cs, bs, w, c, used, avail)
      invariant c > w ==> used < n && avail < datlen
    {
      if bs[c].off > 0 {
        CountData(cs, bs, w, c, used, avail);
        var space := bs[c].SpaceLen();
        if space > 0 {
          avail, used := avail + space, used + 1;
        }
      } else {
        CountEmpty(cs, bs, w, c, used, avail);
        bs := bs[c := bs[c].(misalign := 0)];
        avail, used := avail + |bs[c].mem|, used + 1;
      }
      c := c + 1;
      if avail >= datlen {
        enough := true;
        return;
      }
      if used == n {
        return;
      }
    }
  }

  /** Enough room for `datlen` bytes in the first `n` chains with room. */
  ghost predicate HasRoom(buf: Buffer, datlen: nat, n: nat)
    reads buf
  {
    && 0 <= buf.lwd < |buf.chains|
    && Room(buf.chains, FirstWithSpace(buf.chains, buf.lwd), n) >= datlen
  }

  /** evbuffer_expand_fast_: never moves or copies data. */
  method ExpandFast(buf: Buffer, datlen: nat, n: nat) returns (ok: bool)
    requires buf.Valid() && n >= 2
    modifies buf`chains, buf`lwd, buf`last, buf`totalLen
    ensures buf.Valid() && buf.Contents() == old(buf.Contents()) && (old(buf.NoGaps()) ==> buf.NoGaps())
    ensures ok ==> HasRoom(buf, datlen, n)
    ensures datlen <= CHAIN_ROOM ==> ok
  {
    if buf.chains == [] || buf.chains[buf.last].immutable {
      var c := NewChain(datlen);
      if c.None? {
        return false;
      }
      ok := true;
      AddEmptyChain(buf, c.value);
      assert Room(buf.chains, FirstWithSpace(buf.chains, buf.lwd), 1) >= datlen;
      RoomMonotone(buf.chains, FirstWithSpace(buf.chains, buf.lwd), 1, n);
      return;
    }
    var bs, used, avail, enough := CountRoom(buf.chains, buf.lwd, datlen, n);
    buf.chains := bs;
    if enough {
      RoomMonotone(bs, FirstWithSpace(bs, buf.lwd), used, n);
      ok := true;
    } else if used < n {
      ok := AppendRoom(buf, datlen, n, used, avail);
    } else {
      ok := ReplaceEmpties(buf, datlen, n);
    }
  }

  /** Inserts an empty chain behind an immutable last chain, or as the only one. */
  method AddEmptyChain(buf: Buffer, c: Chain)
    requires buf.Valid() && (buf.chains == [] || buf.chains[buf.last].immutable)
    requires c.off == 0 && c.SpaceLen() > 0
    modifies buf`chains, buf`lwd, buf`last, buf`totalLen
    ensures buf.Valid() && buf.Contents() == old(buf.Contents()) && (old(buf.NoGaps()) ==> buf.NoGaps())
    ensures buf.chains != [] && FirstWithSpace(buf.chains, buf.lwd) == |buf.chains| - 1
    ensures buf.chains[|buf.chains| - 1] == c
  {
    ghost var cs, w := buf.chains, buf.lwd;
    if cs != [] {
      assert w == |cs| - 1;
      assert cs[..w + 1] == cs;
    }
    var aborted := buf.ChainInsert(c);
    assert old(buf.Contents()) + [] == old(buf.Contents());
    assert LastWithData(buf.chains, buf.lwd);
  }

  /** Adds a chain for the room that is missing. */
  method AppendRoom(buf: Buffer, datlen: nat, n: nat, used: nat, avail: nat) returns (ok: bool)
    requires buf.Valid() && buf.chains != [] && used < n && avail < datlen
    requires var f := FirstWithSpace(buf.chains, buf.lwd);
             f + used == |buf.chains| && avail == Room(buf.chains, f, used)
    modifies buf`chains, buf`last
    ensures buf.Valid() && buf.Contents() == old(buf.Contents()) && (old(buf.NoGaps()) ==> buf.NoGaps())
    ensures ok ==> HasRoom(buf, datlen, n)
    ensures datlen <= CHAIN_ROOM ==> ok
  {
    var c := NewChain(datlen - avail);
    if c.None? {
      return false;
    }
    ghost var cs, f := buf.chains, FirstWithSpace(buf.chains, buf.lwd);
    AppendEmpty(cs, buf.lwd, c.value);
    buf.chains, buf.last := buf.chains + [c.value], |buf.chains|;
    RoomFrame(cs, buf.chains, f, used);
    RoomExtend(buf.chains, f, used);
    RoomMonotone(buf.chains, f, used + 1, n);
    return true;
  }

  lemma AppendEmpty(cs: seq<Chain>, w: nat, c: Chain)
    requires LastWithData(cs, w) && cs != [] && c.off == 0
    ensures Flatten(cs + [c]) == Flatten(cs) && LastWithData(cs + [c], w)
    ensures Packed(cs, w) ==> Packed(cs + [c], w)
  {
    FlattenConcat(cs, [c]);
    FlattenOne(c);
    assert Flatten(cs) + [] == Flatten(cs);
  }

  /** Replaces all the empty chains at the end by one that is big enough. */
  method ReplaceEmpties(buf: Buffer, datlen: nat, n: nat) returns (ok: bool)
    requires buf.Valid() && buf.chains != [] && n >= 2 && buf.chains[buf.lwd].SpaceLen() <= datlen
    modifies buf`chains, buf`lwd, buf`last, buf`totalLen
    ensures buf.Valid() && buf.Contents() == old(buf.Contents()) && (old(buf.NoGaps()) ==> buf.NoGaps())
    ensures ok ==> HasRoom(buf, datlen, n)
    ensures datlen <= CHAIN_ROOM ==> ok
  {
    var cs, w := buf.chains, buf.lwd;
    var removeAll := cs[w].off == 0;
    var avail := if removeAll then 0 else cs[w].SpaceLen();
    var kept := if removeAll then [] else cs[..w + 1];
    DropEmpties(cs, w);
    var tmp := NewChain(datlen - avail);
    ok := tmp.Some?;
    if ok {
      InsertBytes(cs, w, [tmp.value]);
      InsertKeepsLast(cs, w, [tmp.value], 0);
      FlattenOne(tmp.value);
      assert Flatten(cs) + [] == Flatten(cs);
      buf.chains, buf.last := kept + [tmp.value], |kept|;
      RoomOfTwo(buf.chains, buf.lwd, n);
    } else {
      buf.chains, buf.last := kept, |kept| - 1;
    }
  }

  lemma DropEmpties(cs: seq<Chain>, w: nat)
    requires LastWithData(cs, w) && cs != []
    ensures var kept := if cs[w].off == 0 then [] else cs[..w + 1];
            Flatten(kept) == Flatten(cs) && LastWithData(kept, w) && (Packed(cs, w) ==> Packed(kept, w))
            && kept == cs[..InsertAt(cs, w)] && (cs[w].off == 0 ==> w == 0)
  {
    FlattenUpTo(cs, w);
  }

  /** The room when the last chain with data is the last or the last but one. */
  lemma RoomOfTwo(cs: seq<Chain>, w: nat, n: nat)
    requires w < |cs| <= w + 2 && n >= 2
    ensures Room(cs, FirstWithSpace(cs, w), n) ==
            cs[w].SpaceLen() + (if w + 1 < |cs| then cs[w + 1].SpaceLen() else 0)
  {
    var f := FirstWithSpace(cs, w);
    assert Room(cs, w + 1, n - 1) == if w + 1 < |cs| then cs[w + 1].SpaceLen() else 0;
  }

  /** The vectors for a list of chains. */
  ghost predicate Covers(cs: seq<Chain>, f: nat, vecs: seq<Vec>)
  {
    && f + |vecs| <= |cs|
    && forall i :: 0 <= i < |vecs| ==>
         vecs[i].chain == f + i && vecs[i].at == cs[f + i].misalign + cs[f + i].off
         && vecs[i].len <= cs[f + i].SpaceLen()
  }

  ghost function TotalLen(vecs: seq<Vec>): nat
  {
    if vecs == [] then 0 else vecs[|vecs| - 1].len + TotalLen(vecs[..|vecs| - 1])
  }

  /** evbuffer_read_setup_vecs_; with `exact` the last vector is cut short. */
  method ReadSetupVecs(buf: Buffer, howmuch: nat, n: nat, exact: bool) returns (vecs: seq<Vec>)
    requires HasRoom(buf, howmuch, n)
    ensures |vecs| <= n && TotalLen(vecs) >= howmuch && (exact ==> TotalLen(vecs) == howmuch)
    ensures Covers(buf.chains, FirstWithSpace(buf.chains, buf.lwd), vecs)
  {
    var cs, f := buf.chains, FirstWithSpace(buf.chains, buf.lwd);
    hide RawChain.Data, FirstWithSpace;
    vecs := [];
    var soFar := 0;
    while |vecs| < n && soFar < howmuch
      invariant |vecs| <= n && Covers(cs, f, vecs) && soFar == TotalLen(vecs) && (exact ==> soFar <= howmuch)
      invariant soFar >= howmuch || soFar + Room(cs, f + |vecs|, n - |vecs|) >= howmuch
      decreases n - |vecs|
    {
      var c := cs[f + |vecs|];
      var avail := if exact && c.SpaceLen() > howmuch - soFar then howmuch - soFar else c.SpaceLen();
      var v := Vec(f + |vecs|, c.misalign + c.off, avail);
      assert (vecs + [v])[..|vecs|] == vecs;
      soFar := soFar + v.len;
      vecs := vecs + [v];
    }
  }

  /** A vector with all the room of its chain. */
  function WholeRoom(cs: seq<Chain>, c: nat): Vec
    requires c < |cs|
  {
    Vec(c, cs[c].misalign + cs[c].off, cs[c].SpaceLen())
  }

  /** One vector, with the room of the last chain with data or the next one. */
  ghost predicate IsOneRoom(cs: seq<Chain>, w: nat, vecs: seq<Vec>)
  {
    |vecs| == 1 && w <= vecs[0].chain <= w + 1 && vecs[0].chain < |cs| && vecs[0] == WholeRoom(cs, vecs[0].chain)
  }

  /** evbuffer_reserve_space. With one vector the room is that of one chain, the last
      with data or the next one; with more it is that of consecutive chains. */
  method ReserveSpace(buf: Buffer, size: nat, n: nat) returns (vecs: Option<seq<Vec>>)
    requires buf.Valid()
    modifies buf`chains, buf`lwd, buf`last, buf`totalLen
    ensures buf.Valid() && buf.Contents() == old(buf.Contents()) && (old(buf.NoGaps()) ==> buf.NoGaps())
    ensures buf.freezeEnd || n == 0 ==> vecs.None?
    ensures !buf.freezeEnd && n >= 2 && size <= CHAIN_ROOM ==> vecs.Some?
    ensures !buf.freezeEnd && n == 1 && size <= CHAIN_ROOM - MAX_TO_COPY_IN_EXPAND ==> vecs.Some?
    ensures vecs.Some? ==> |vecs.value| <= n && TotalLen(vecs.value) >= size && buf.chains != []
    ensures vecs.Some? && n >= 2 ==> Covers(buf.chains, FirstWithSpace(buf.chains, buf.lwd), vecs.value)
    ensures vecs.Some? && n == 1 ==> IsOneRoom(buf.chains, buf.lwd, vecs.value)
  {
    if buf.freezeEnd || n < 1 {
      return None;
    }
    if n == 1 {
      var r := ExpandSingleChain(buf, size);
      if r.None? {
        return None;
      }
      var v := WholeRoom(buf.chains, r.value);
      assert TotalLen([v][..0]) == 0;
      return Some([v]);
    }
    var ok := ExpandFast(buf, size, n);
    if !ok {
      return None;
    }
    var vs := ReadSetupVecs(buf, size, n, false);
    return Some(vs);
  }

  /** The bytes now in the memory of the vectors. */
  ghost function Written(cs: seq<Chain>, f: nat, vecs: seq<Vec>): Bytes
    requires Covers(cs, f, vecs)
  {
    if vecs == [] then []
    else
      var v := vecs[|vecs| - 1];
      Written(cs, f, vecs[..|vecs| - 1]) + cs[v.chain].mem[v.at..v.at + v.len]
  }

  /** Counting bytes behind the stored ones as data, in a chain that is the last
      with data or comes after it. */
  function Commit(c: Chain, len: nat): (d: Chain)
    requires len <= c.SpaceLen()
    ensures d.Data() == c.Data() + c.mem[c.misalign + c.off..c.misalign + c.off + len]
    ensures d.mem == c.mem && d.off == c.off + len
  {
    c.(off := c.off + len)
  }

  lemma CommitOne(cs: seq<Chain>, v: nat, c: nat, len: nat)
    requires LastWithData(cs, v) && v <= c < |cs| && len <= cs[c].SpaceLen()
    ensures var bs := cs[c := Commit(cs[c], len)];
            var at := cs[c].misalign + cs[c].off;
            var u := if len > 0 then c else v;
            && Flatten(bs) == Flatten(cs) + cs[c].mem[at..at + len]
            && LastWithData(bs, u)
  {
    hide RawChain.Data, Flatten;
    FlattenAt(cs, c);
    FlattenUpdate(cs, c, Commit(cs[c], len));
    FlattenEmpty(cs[c + 1..]);
    assert AllEmpty(cs[c + 1..]);
    var at := cs[c].misalign + cs[c].off;
    AppendLast(Flatten(cs[..c]), cs[c].Data(), cs[c].mem[at..at + len]);
  }

  lemma AppendLast(a: Bytes, d: Bytes, e: Bytes)
    ensures a + (d + e) + [] == a + d + [] + e
  {
  }

  /** The state of the second pass after the first `i` vectors. */
  ghost predicate Committed(cs: seq<Chain>, w: nat, vecs: seq<Vec>, i: nat, bs: seq<Chain>, u: nat, added: nat)
    requires w < |cs| && Covers(cs, FirstWithSpace(cs, w), vecs) && i <= |vecs|
  {
    var f := FirstWithSpace(cs, w);
    && |bs| == |cs| && LastWithData(bs, u) && (u < f + i || u == w)
    && (forall j :: f + i <= j < |cs| ==> bs[j] == cs[j])
    && OffsAfter(cs, w, f, vecs[..i], bs, u)
    && Flatten(bs) == Flatten(cs) + Written(cs, f, vecs[..i])
    && added == |Written(cs, f, vecs[..i])|
  }

  /** The chains hold as many bytes more as the vectors say, and `u` is the chain of the
      last vector that says any, if one does. */
  ghost predicate OffsAfter(cs: seq<Chain>, w: nat, f: nat, vecs: seq<Vec>, bs: seq<Chain>, u: nat)
  {
    && |bs| == |cs|
    && (forall j :: 0 <= j < |cs| ==> bs[j].off == cs[j].off + LenAt(f, vecs, j))
    && (u == w || (f <= u < f + |vecs| && vecs[u - f].len > 0))
    && (forall k :: 0 <= k < |vecs| && vecs[k].len > 0 ==> f + k <= u)
  }

  function LenAt(f: nat, vecs: seq<Vec>, j: nat): nat
  {
    if f <= j < f + |vecs| then vecs[j - f].len else 0
  }

  lemma OffsNext(cs: seq<Chain>, w: nat, f: nat, vecs: seq<Vec>, i: nat, bs: seq<Chain>, u: nat)
    requires w <= f && i < |vecs| && f + i < |cs| && OffsAfter(cs, w, f, vecs[..i], bs, u) && bs[f + i] == cs[f + i]
    requires vecs[i].len <= bs[f + i].SpaceLen()
    ensures OffsAfter(cs, w, f, vecs[..i + 1], bs[f + i := Commit(bs[f + i], vecs[i].len)], if vecs[i].len > 0 then f + i else u)
  {
    assert vecs[..i + 1] == vecs[..i] + [vecs[i]];
    forall j | 0 <= j < |cs| && j != f + i ensures LenAt(f, vecs[..i + 1], j) == LenAt(f, vecs[..i], j) {
    }
  }

  /** After the commit no empty chain stands before the last with data. */
  ghost predicate GapFree(cs: seq<Chain>, w: nat, f: nat, vecs: seq<Vec>)
  {
    && Packed(cs, w)
    && forall j, k :: 0 <= k < |vecs| && vecs[k].len > 0 && w <= j < f + k && j < |cs| ==> cs[j].off + LenAt(f, vecs, j) > 0
  }

  lemma GapExact(cs: seq<Chain>, w: nat, f: nat, vecs: seq<Vec>, bs: seq<Chain>, u: nat)
    requires w < |cs| && f + |vecs| <= |cs| && w <= f && OffsAfter(cs, w, f, vecs, bs, u)
    ensures Packed(bs, u) <==> GapFree(cs, w, f, vecs)
  {
    if Packed(bs, u) {
      forall j | 0 <= j < w && j < |cs| ensures cs[j].off > 0 {
        assert bs[j].off > 0;
      }
      forall j, k | 0 <= k < |vecs| && vecs[k].len > 0 && w <= j < f + k && j < |cs|
        ensures cs[j].off + LenAt(f, vecs, j) > 0
      {
        assert bs[j].off > 0;
      }
    }
    if GapFree(cs, w, f, vecs) {
      forall j | 0 <= j < u && j < |bs| ensures bs[j].off > 0 {
        if w <= j {
          assert vecs[u - f].len > 0 && j < f + (u - f);
        }
      }
    }
  }

  /** Vectors that all hold something make no gap. */
  lemma PositiveKeeps(cs: seq<Chain>, w: nat, f: nat, vecs: seq<Vec>)
    requires Packed(cs, w) && w <= f <= w + 1 && (f == w + 1 && w < |cs| ==> cs[w].off > 0)
    requires forall k :: 0 <= k < |vecs| ==> vecs[k].len > 0
    ensures GapFree(cs, w, f, vecs)
  {
  }

  /** An empty vector before one that is not does: three chains, the first full, and
      lengths 0 and 3 committed to the two behind. */
  lemma EmptyVectorMakesGap(c: Chain, d: Chain, e: Chain, v: Vec, x: Vec)
    requires c.off > 0 && c.SpaceLen() == 0 && d.off == e.off == 0 && d.SpaceLen() >= 3 && e.SpaceLen() >= 3
    requires v == Vec(1, d.misalign, 0) && x == Vec(2, e.misalign, 3)
    ensures var cs := [c, d, e];
            LastWithData(cs, 0) && Packed(cs, 0) && Covers(cs, FirstWithSpace(cs, 0), [v, x])
            && !GapFree(cs, 0, FirstWithSpace(cs, 0), [v, x])
  {
    var cs, vecs := [c, d, e], [v, x];
    assert FirstWithSpace(cs, 0) == 1;
    assert vecs[1].len > 0 && 0 <= 1 < 1 + 1 && cs[1].off + LenAt(1, vecs, 1) == 0;
  }

  lemma CommitInit(cs: seq<Chain>, w: nat, vecs: seq<Vec>)
    requires w < |cs| && LastWithData(cs, w) && Covers(cs, FirstWithSpace(cs, w), vecs)
    ensures Committed(cs, w, vecs, 0, cs, w, 0)
  {
    assert Flatten(cs) + [] == Flatten(cs);
    assert vecs[..0] == [];
  }

  lemma CommitRoom(cs: seq<Chain>, w: nat, vecs: seq<Vec>, i: nat, bs: seq<Chain>, u: nat, added: nat)
    requires w < |cs| && Covers(cs, FirstWithSpace(cs, w), vecs) && i < |vecs|
    requires Committed(cs, w, vecs, i, bs, u, added)
    ensures var c := FirstWithSpace(cs, w) + i; c < |bs| && vecs[i].len <= bs[c].SpaceLen()
  {
    CoversAt(cs, FirstWithSpace(cs, w), vecs, i);
  }

  lemma CommitStep(cs: seq<Chain>, w: nat, vecs: seq<Vec>, i: nat, bs: seq<Chain>, u: nat, added: nat,
                   next: seq<Chain>, last: nat)
    requires w < |cs| && Covers(cs, FirstWithSpace(cs, w), vecs) && i < |vecs|
    requires Committed(cs, w, vecs, i, bs, u, added)
    requires var c := FirstWithSpace(cs, w) + i;
             && c < |bs| && vecs[i].len <= bs[c].SpaceLen()
             && next == bs[c := Commit(bs[c], vecs[i].len)] && last == if vecs[i].len > 0 then c else u
    ensures Committed(cs, w, vecs, i + 1, next, last, added + vecs[i].len)
  {
    hide Flatten, LastWithData, Written, RawChain.Data, Covers, FirstWithSpace, Packed, OffsAfter;
    var f, v := FirstWithSpace(cs, w), vecs[i];
    NotBefore(cs, w);
    var c := f + i;
    CoversAt(cs, f, vecs, i);
    assert bs[c] == cs[c] && u <= c;
    OffsNext(cs, w, f, vecs, i, bs, u);
    WrittenNext(cs, f, vecs, i);
    CommitOne(bs, u, c, v.len);
    Regroup(Flatten(cs), Written(cs, f, vecs[..i]), cs[c].mem[v.at..v.at + v.len]);
    assert forall j :: c + 1 <= j < |cs| ==> next[j] == cs[j];
  }

  lemma NotBefore(cs: seq<Chain>, w: nat)
    requires w < |cs|
    ensures w <= FirstWithSpace(cs, w)
  {
  }

  lemma CoversAt(cs: seq<Chain>, f: nat, vecs: seq<Vec>, i: nat)
    requires Covers(cs, f, vecs) && i < |vecs|
    ensures f + i < |cs| && vecs[i].at == cs[f + i].misalign + cs[f + i].off && vecs[i].len <= cs[f + i].SpaceLen()
  {
  }

  lemma WrittenNext(cs: seq<Chain>, f: nat, vecs: seq<Vec>, i: nat)
    requires Covers(cs, f, vecs) && i < |vecs|
    ensures Covers(cs, f, vecs[..i]) && Covers(cs, f, vecs[..i + 1])
    ensures vecs[i].at + vecs[i].len <= |cs[f + i].mem|
    ensures Written(cs, f, vecs[..i + 1]) ==
            Written(cs, f, vecs[..i]) + cs[f + i].mem[vecs[i].at..vecs[i].at + vecs[i].len]
  {
    assert vecs[..i + 1][..i] == vecs[..i];
  }

  /** The second pass of evbuffer_commit_space: adjusts all the chains. */
  method CommitAll(cs: seq<Chain>, w: nat, vecs: seq<Vec>) returns (bs: seq<Chain>, u: nat, added: nat)
    requires w < |cs| && LastWithData(cs, w) && Covers(cs, FirstWithSpace(cs, w), vecs)
    ensures Committed(cs, w, vecs, |vecs|, bs, u, added)
  {
    var f := FirstWithSpace(cs, w);
    bs, u, added := cs, w, 0;
    CommitInit(cs, w, vecs);
    hide RawChain.Data, RawChain.SpaceLen, FirstWithSpace, Commit, Committed, LastWithData, Covers;
    var i := 0;
    while i < |vecs|
      invariant i <= |vecs| && Committed(cs, w, vecs, i, bs, u, added)
    {
      ghost var bs0, u0, added0 := bs, u, added;
      CommitRoom(cs, w, vecs, i, bs, u, added);
      bs := bs[f + i := Commit(bs[f + i], vecs[i].len)];
      added := added + vecs[i].len;
      if vecs[i].len > 0 {
        u := f + i;
      }
      CommitStep(cs, w, vecs, i, bs0, u0, added0, bs, u);
      i := i + 1;
    }
  }

  /** The first pass: every vector lies in its chain's room. */
  method CheckVecs(cs: seq<Chain>, f: nat, vecs: seq<Vec>) returns (ok: bool)
    requires f <= |cs|
    ensures ok <==> Covers(cs, f, vecs)
  {
    var i := 0;
    while i < |vecs|
      invariant i <= |vecs| && Covers(cs, f, vecs[..i])
    {
      if f + i >= |cs| {
        return false;
      }
      var c := cs[f + i];
      if vecs[i].chain != f + i || vecs[i].at != c.misalign + c.off || vecs[i].len > c.SpaceLen() {
        return false;
      }
      i := i + 1;
    }
    assert vecs[..i] == vecs;
    return true;
  }

  /** Committing into the last chain alone and advancing finds it exactly when it
      is the last with data already or follows that one directly. */
  lemma CommitLastExact(cs: seq<Chain>, w: nat, len: nat)
    requires LastWithData(cs, w) && cs != [] && 0 < len <= cs[|cs| - 1].SpaceLen()
    ensures var bs := cs[|cs| - 1 := Commit(cs[|cs| - 1], len)];
            LastWithData(bs, AdvanceFrom(bs, w)) <==> |cs| - 1 <= w + 1
  {
    var bs := cs[|cs| - 1 := Commit(cs[|cs| - 1], len)];
    AdvanceReachesLast(bs, w);
    if |cs| - 1 > w + 1 {
      assert bs[w + 1].off == 0 && bs[|cs| - 1].off > 0;
    }
  }

  /** The vectors that are accepted: one in the last chain, or those of the chains from
      the first with room on. */
  predicate Lone(cs: seq<Chain>, vecs: seq<Vec>)
  {
    |vecs| == 1 && cs != [] && vecs[0].chain == |cs| - 1 && vecs[0].at == cs[|cs| - 1].misalign + cs[|cs| - 1].off
  }

  ghost predicate Acceptable(cs: seq<Chain>, w: nat, vecs: seq<Vec>)
    requires cs != [] ==> w < |cs|
  {
    cs != [] && if Lone(cs, vecs) then vecs[0].len <= cs[|cs| - 1].SpaceLen() else Covers(cs, FirstWithSpace(cs, w), vecs)
  }

  /** The first chain that vectors are for. */
  ghost function FirstFor(cs: seq<Chain>, w: nat, vecs: seq<Vec>): nat
    requires w < |cs|
  {
    if Lone(cs, vecs) then |cs| - 1 else FirstWithSpace(cs, w)
  }

  /** evbuffer_commit_space. It is refused, and changes nothing, exactly if the end is
      frozen or the vectors are not acceptable; else exactly the bytes in the vectors are
      appended. A lone vector in a last chain that is further on than next to the last
      with data makes the pointer stale; all others keep the buffer valid. */
  method CommitSpace(buf: Buffer, vecs: seq<Vec>) returns (ok: bool)
    requires buf.Valid()
    modifies buf`chains, buf`lwd, buf`totalLen
    ensures ok <==> !buf.freezeEnd && (vecs == [] || old(Acceptable(buf.chains, buf.lwd, vecs)))
    ensures !ok || vecs == [] ==> buf.chains == old(buf.chains) && buf.lwd == old(buf.lwd) && buf.totalLen == old(buf.totalLen)
    ensures ok && vecs != [] ==>
              var f := FirstFor(old(buf.chains), old(buf.lwd), vecs);
              && Covers(old(buf.chains), f, vecs)
              && buf.Contents() == old(buf.Contents()) + Written(old(buf.chains), f, vecs)
              && (buf.Valid() ==> (buf.NoGaps() <==> GapFree(old(buf.chains), old(buf.lwd), f, vecs)))
    ensures buf.Valid() <==> !(ok && Lone(old(buf.chains), vecs) && vecs[0].len > 0 && old(buf.lwd) + 1 < old(|buf.chains|) - 1)
    ensures !buf.Valid() ==> buf.Torn()
  {
    hide Flatten, Written, Covers, GapFree, OffsAfter, LastWithData, Packed, Stuck;
    if buf.freezeEnd {
      return false;
    }
    if vecs == [] {
      return true;
    }
    if Lone(buf.chains, vecs) {
      ok := CommitAtLast(buf, vecs);
      return;
    }
    if buf.chains == [] {
      return false;
    }
    ok := CommitMany(buf, vecs);
  }

  /** The two passes over the chains from the first with room on. */
  method CommitMany(buf: Buffer, vecs: seq<Vec>) returns (ok: bool)
    requires buf.Valid() && buf.chains != [] && vecs != []
    modifies buf`chains, buf`lwd, buf`totalLen
    ensures buf.Valid() && (ok <==> old(Covers(buf.chains, FirstWithSpace(buf.chains, buf.lwd), vecs)))
    ensures !ok ==> buf.chains == old(buf.chains) && buf.lwd == old(buf.lwd) && buf.totalLen == old(buf.totalLen)
    ensures ok ==>
              var f := FirstWithSpace(old(buf.chains), old(buf.lwd));
              && buf.Contents() == old(buf.Contents()) + Written(old(buf.chains), f, vecs)
              && (buf.NoGaps() <==> GapFree(old(buf.chains), old(buf.lwd), f, vecs))
  {
    var f := FirstWithSpace(buf.chains, buf.lwd);
    ok := CheckVecs(buf.chains, f, vecs);
    if ok {
      NotBefore(buf.chains, buf.lwd);
      var bs, u, added := CommitAll(buf.chains, buf.lwd, vecs);
      assert vecs[..|vecs|] == vecs;
      GapExact(buf.chains, buf.lwd, f, vecs, bs, u);
      hide Flatten, Written, Covers, GapFree, OffsAfter, LastWithData, Packed;
      buf.chains, buf.lwd, buf.totalLen := bs, u, buf.totalLen + added;
    }
  }

  /** The shortcut for one vector in the last chain. */
  method CommitAtLast(buf: Buffer, vecs: seq<Vec>) returns (ok: bool)
    requires buf.Valid() && Lone(buf.chains, vecs)
    modifies buf`chains, buf`lwd, buf`totalLen
    ensures ok <==> vecs[0].len <= old(buf.chains)[|old(buf.chains)| - 1].SpaceLen()
    ensures !ok ==> buf.chains == old(buf.chains) && buf.lwd == old(buf.lwd) && buf.totalLen == old(buf.totalLen)
    ensures ok ==>
              var f := old(|buf.chains|) - 1;
              && Covers(old(buf.chains), f, vecs)
              && buf.Contents() == old(buf.Contents()) + Written(old(buf.chains), f, vecs)
              && (buf.Valid() ==> (buf.NoGaps() <==> GapFree(old(buf.chains), old(buf.lwd), f, vecs)))
    ensures buf.Valid() <==> !(ok && vecs[0].len > 0 && old(buf.lwd) + 1 < old(|buf.chains|) - 1)
    ensures !buf.Valid() ==> buf.Torn()
  {
    ok := vecs[0].len <= buf.chains[buf.last].SpaceLen();
    hide Flatten, LastWithData, Written, Covers, GapFree, Stuck, Packed;
    if ok {
      CommitLone(buf, vecs, buf.chains, buf.lwd);
    }
  }

  method CommitLone(buf: Buffer, vecs: seq<Vec>, ghost cs: seq<Chain>, ghost w: nat)
    requires buf.Valid() && buf.chains == cs && buf.lwd == w && Lone(cs, vecs) && vecs[0].len <= cs[|cs| - 1].SpaceLen()
    modifies buf`chains, buf`lwd, buf`totalLen
    ensures Covers(cs, |cs| - 1, vecs) && buf.Contents() == Flatten(cs) + Written(cs, |cs| - 1, vecs)
    ensures buf.Valid() ==> (buf.NoGaps() <==> GapFree(cs, w, |cs| - 1, vecs))
    ensures buf.Valid() <==> !(vecs[0].len > 0 && w + 1 < |cs| - 1)
    ensures !buf.Valid() ==> buf.Torn()
  {
    hide Flatten, LastWithData, Written, Covers, AdvanceFrom, GapFree, Stuck, Packed, Commit, RawChain.SpaceLen;
    LoneLast(cs, w, vecs);
    GrowLast(buf, vecs[0].len);
    LoneAfter(cs, w, vecs, buf.chains, buf.lwd);
  }

  lemma LoneLast(cs: seq<Chain>, w: nat, vecs: seq<Vec>)
    requires LastWithData(cs, w) && Lone(cs, vecs)
    ensures cs != [] && w < |cs|
  {
  }

  lemma LoneAfter(cs: seq<Chain>, w: nat, vecs: seq<Vec>, bs: seq<Chain>, u: nat)
    requires LastWithData(cs, w) && Lone(cs, vecs) && vecs[0].len <= cs[|cs| - 1].SpaceLen()
    requires bs == cs[|cs| - 1 := Commit(cs[|cs| - 1], vecs[0].len)]
    requires u == if vecs[0].len > 0 then AdvanceFrom(bs, w) else w
    ensures Covers(cs, |cs| - 1, vecs)
    ensures Flatten(bs) == Flatten(cs) + Written(cs, |cs| - 1, vecs) && |Flatten(bs)| == |Flatten(cs)| + vecs[0].len
    ensures LastWithData(bs, u) <==> !(vecs[0].len > 0 && w + 1 < |cs| - 1)
    ensures !LastWithData(bs, u) ==> Stuck(bs, u)
    ensures LastWithData(bs, u) ==> (Packed(bs, u) <==> GapFree(cs, w, |cs| - 1, vecs))
  {
    hide Flatten, Written, AdvanceFrom, GapFree, Stuck, Packed, Commit;
    LoneBytes(cs, w, vecs);
    LonePointer(cs, w, vecs[0].len);
    LoneGap(cs, w, vecs);
  }

  method GrowLast(buf: Buffer, len: nat)
    requires buf.chains != [] && buf.last == |buf.chains| - 1 && buf.lwd < |buf.chains|
    requires len <= buf.chains[buf.last].SpaceLen()
    modifies buf`chains, buf`lwd, buf`totalLen
    ensures buf.chains == old(buf.chains[|buf.chains| - 1 := Commit(buf.chains[|buf.chains| - 1], len)])
    ensures buf.totalLen == old(buf.totalLen) + len
    ensures buf.lwd == if len > 0 then AdvanceFrom(buf.chains, old(buf.lwd)) else old(buf.lwd)
  {
    buf.chains := buf.chains[buf.last := Commit(buf.chains[buf.last], len)];
    buf.totalLen := buf.totalLen + len;
    hide Commit, AdvanceFrom;
    if len > 0 {
      var _ := AdvanceLastWithData(buf);
    }
  }

  lemma LoneBytes(cs: seq<Chain>, w: nat, vecs: seq<Vec>)
    requires LastWithData(cs, w) && Lone(cs, vecs) && vecs[0].len <= cs[|cs| - 1].SpaceLen()
    ensures Covers(cs, |cs| - 1, vecs)
    ensures |Written(cs, |cs| - 1, vecs)| == vecs[0].len
    ensures Flatten(cs[|cs| - 1 := Commit(cs[|cs| - 1], vecs[0].len)]) == Flatten(cs) + Written(cs, |cs| - 1, vecs)
  {
    hide Flatten, Commit;
    WrittenOne(cs, |cs| - 1, vecs);
    CommitOne(cs, w, |cs| - 1, vecs[0].len);
  }

  lemma LonePointer(cs: seq<Chain>, w: nat, len: nat)
    requires LastWithData(cs, w) && cs != [] && len <= cs[|cs| - 1].SpaceLen()
    ensures var bs := cs[|cs| - 1 := Commit(cs[|cs| - 1], len)];
            var u := if len > 0 then AdvanceFrom(bs, w) else w;
            && (LastWithData(bs, u) <==> !(len > 0 && w + 1 < |cs| - 1))
            && (!LastWithData(bs, u) ==> Stuck(bs, u))
  {
    if len > 0 {
      CommitLastExact(cs, w, len);
      AdvanceSticks(cs[|cs| - 1 := Commit(cs[|cs| - 1], len)], w);
    } else {
      hide Flatten;
      CommitOne(cs, w, |cs| - 1, len);
    }
  }

  lemma LoneGap(cs: seq<Chain>, w: nat, vecs: seq<Vec>)
    requires LastWithData(cs, w) && Lone(cs, vecs) && vecs[0].len <= cs[|cs| - 1].SpaceLen()
    ensures var bs := cs[|cs| - 1 := Commit(cs[|cs| - 1], vecs[0].len)];
            var u := if vecs[0].len > 0 then AdvanceFrom(bs, w) else w;
            LastWithData(bs, u) ==> (Packed(bs, u) <==> GapFree(cs, w, |cs| - 1, vecs))
  {
    var c, len := |cs| - 1, vecs[0].len;
    var bs := cs[c := Commit(cs[c], len)];
    var u := if len > 0 then AdvanceFrom(bs, w) else w;
    if LastWithData(bs, u) {
      assert bs[c].off == cs[c].off + len;
      assert len > 0 ==> u == c;
      GapExact(cs, w, c, vecs, bs, u);
    }
  }

  lemma WrittenOne(cs: seq<Chain>, f: nat, vecs: seq<Vec>)
    requires |vecs| == 1
    ensures Covers(cs, f, vecs) ==>
              Written(cs, f, vecs) == cs[f].mem[vecs[0].at..vecs[0].at + vecs[0].len]
  {
    if Covers(cs, f, vecs) {
      assert Written(cs, f, vecs[..0]) == [];
    }
  }

  /** The bytes a user writes into reserved memory are not part of the buffer
      before they are committed. */
  method WriteVec(buf: Buffer, vecs: seq<Vec>, i: nat, data: Bytes)
    requires buf.Valid() && buf.chains != [] && i < |vecs| && |data| <= vecs[i].len
    requires Covers(buf.chains, FirstWithSpace(buf.chains, buf.lwd), vecs)
    modifies buf`chains
    ensures buf.Valid() && buf.Contents() == old(buf.Contents())
    ensures buf.chains == old(buf.chains)[vecs[i].chain := old(buf.chains)[vecs[i].chain].Fill(data)]
    ensures FirstWithSpace(buf.chains, buf.lwd) == old(FirstWithSpace(buf.chains, buf.lwd))
    ensures Covers(buf.chains, FirstWithSpace(buf.chains, buf.lwd), vecs)
  {
    FillKeeps(buf.chains, buf.lwd, FirstWithSpace(buf.chains, buf.lwd), vecs, i, data);
    hide Flatten, LastWithData, RawChain.Data, RawChain.Fill, Covers;
    buf.chains := buf.chains[vecs[i].chain := buf.chains[vecs[i].chain].Fill(data)];
  }

  lemma FillKeeps(cs: seq<Chain>, w: nat, f: nat, vecs: seq<Vec>, i: nat, data: Bytes)
    requires w < |cs| && LastWithData(cs, w) && Covers(cs, f, vecs) && f == FirstWithSpace(cs, w)
    requires i < |vecs| && |data| <= vecs[i].len
    ensures f + i < |cs| && vecs[i].chain == f + i && |data| <= cs[f + i].SpaceLen()
    ensures var bs := cs[f + i := cs[f + i].Fill(data)];
            && Flatten(bs) == Flatten(cs) && LastWithData(bs, w)
            && FirstWithSpace(bs, w) == f && Covers(bs, f, vecs)
  {
    var c := f + i;
    var d: Chain := cs[c].Fill(data);
    var bs := cs[c := d];
    SameBytes(cs, w, c, d);
    assert d.SpaceLen() == cs[c].SpaceLen();
    assert Covers(bs, f, vecs) by {
      hide *;
      CoversShape(cs, bs, f, vecs, c);
    }
    assert LastWithData(bs, w);
    assert FirstWithSpace(bs, w) == f;
    hide *;
  }

  /** Whether vectors fit depends only on where each chain's room begins and how
      long it is. */
  lemma CoversShape(cs: seq<Chain>, bs: seq<Chain>, f: nat, vecs: seq<Vec>, c: nat)
    requires Covers(cs, f, vecs) && c < |cs| == |bs| && bs == cs[c := bs[c]]
    requires bs[c].misalign == cs[c].misalign && bs[c].off == cs[c].off && bs[c].SpaceLen() == cs[c].SpaceLen()
    ensures Covers(bs, f, vecs)
  {
  }

  /** evbuffer_expand_singlechain: a chain with `datlen` bytes of room, found,
      realigned, resized or new. */
  method ExpandSingleChain(buf: Buffer, datlen: nat) returns (r: Option<nat>)
    requires buf.Valid()
    modifies buf`chains, buf`lwd, buf`last, buf`totalLen
    ensures buf.Valid() && buf.Contents() == old(buf.Contents()) && (old(buf.NoGaps()) ==> buf.NoGaps())
    ensures r.Some? ==> r.value < |buf.chains| && buf.chains[r.value].SpaceLen() >= datlen
    ensures r.Some? ==> forall i :: r.value < i < |buf.chains| ==> buf.chains[i].off == 0
    ensures r.Some? ==> buf.lwd <= r.value <= buf.lwd + 1
    ensures datlen <= CHAIN_ROOM - MAX_TO_COPY_IN_EXPAND ==> r.Some?
  {
    var at := if buf.chains == [] then 0 else FirstWithSpace(buf.chains, buf.lwd);
    if at == |buf.chains| || buf.chains[at].immutable {
      r := InsertNew(buf, datlen);
      return;
    }
    var chain := buf.chains[at];
    if chain.SpaceLen() >= datlen {
      r := Some(at);
    } else if chain.off == 0 {
      r := InsertNew(buf, datlen);
    } else if chain.ShouldRealign(datlen) {
      ReplaceLast(buf, chain.Align());
      r := Some(at);
    } else if chain.SpaceLen() < |chain.mem| / 8 || chain.off > MAX_TO_COPY_IN_EXPAND
              || datlen >= CHAIN_MAX - chain.off {
      if at + 1 < |buf.chains| && buf.chains[at + 1].SpaceLen() >= datlen {
        r := Some(at + 1);
      } else {
        r := InsertNew(buf, datlen);
      }
    } else {
      var tmp := NewChain(chain.off + datlen);
      if tmp.None? {
        return None;
      }
      ReplaceLast(buf, tmp.value.Append(chain.Data()));
      r := Some(at);
    }
  }

  /** Replaces the last chain with data by another holding the same bytes. */
  method ReplaceLast(buf: Buffer, c: Chain)
    requires buf.Valid() && buf.chains != [] && c.Data() == buf.chains[buf.lwd].Data()
    modifies buf`chains, buf`totalLen
    ensures buf.Valid() && buf.Contents() == old(buf.Contents()) && (old(buf.NoGaps()) ==> buf.NoGaps())
    ensures buf.chains == old(buf.chains)[buf.lwd := c]
  {
    assert c.Data() + [] == c.Data() && buf.Contents() + [] == buf.Contents();
    buf.GrowLast(c, []);
  }

  /** evbuffer_chain_insert_new. */
  method InsertNew(buf: Buffer, datlen: nat) returns (r: Option<nat>)
    requires buf.Valid()
    modifies buf`chains, buf`lwd, buf`last, buf`totalLen
    ensures buf.Valid() && buf.Contents() == old(buf.Contents()) && (old(buf.NoGaps()) ==> buf.NoGaps())
    ensures r.Some? ==> r.value == |buf.chains| - 1 && buf.chains[r.value].SpaceLen() >= datlen
    ensures r.Some? ==> buf.lwd <= r.value <= buf.lwd + 1
    ensures r.None? <==> datlen > CHAIN_ROOM
  {
    var c := NewChain(datlen);
    if c.None? {
      return None;
    }
    assert buf.Contents() + [] == buf.Contents();
    var aborted := buf.ChainInsert(c.value);
    r := Some(buf.last);
  }
}
