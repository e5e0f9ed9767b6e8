/** The chained byte buffer of libevent/buffer.c. The linked list of chains is
    a sequence; a pointer to a link (`last_with_datap`) is the index of the chain
    the link leads to, so index 0 is the link held in `first`. */
module Evbuffer {
  import opened Options
  import opened ByteStrings
  import opened Chains

  const SIZE_MAX: nat := 0xffff_ffff_ffff_ffff
  const MIN_BUFFER_SIZE: nat := 1024
  const CHAIN_MAX_AUTO_SIZE: nat := 4096
  const MAX_TO_COPY_IN_EXPAND: nat := 4096

  /** The allocation for `size` bytes, header included: the least power-of-two
      multiple of the minimum that fits, unless the request is huge. */
  method AllocationSize(size: nat) returns (toAlloc: nat)
    requires size <= CHAIN_MAX
    ensures size <= toAlloc <= CHAIN_MAX
    ensures size < CHAIN_MAX / 2 ==>
              IsDoubling(toAlloc) && (toAlloc == MIN_BUFFER_SIZE || toAlloc / 2 < size)
    ensures size >= CHAIN_MAX / 2 ==> toAlloc == size
  {
    if size < CHAIN_MAX / 2 {
      toAlloc := MIN_BUFFER_SIZE;
      while toAlloc < size
        invariant IsDoubling(toAlloc)
        invariant toAlloc == MIN_BUFFER_SIZE || toAlloc / 2 < size
      {
        toAlloc := 2 * toAlloc;
      }
    } else {
      toAlloc := size;
    }
  }

  /** 1024 times a power of two. */
  predicate IsDoubling(n: nat)
  {
    n == MIN_BUFFER_SIZE || (n > MIN_BUFFER_SIZE && n % 2 == 0 && IsDoubling(n / 2))
  }

  /** An empty chain with at least `size` bytes of room; none when the request
      exceeds the largest chain. */
  method NewChain(size: nat) returns (c: Option<Chain>)
    ensures c.None? <==> size > CHAIN_ROOM
    ensures c.Some? ==> c.value.off == 0 && c.value.misalign == 0 && !c.value.immutable
    ensures c.Some? ==> size <= |c.value.mem|
  {
    if size > CHAIN_ROOM {
      return None;
    }
    var toAlloc := AllocationSize(size + CHAIN_HEADER);
    c := Some(RawChain(seq(toAlloc - CHAIN_HEADER, _ => 0), 0, 0, false));
  }

  /** The size asked for when the current chain cannot take all the data. */
  function GrowSize(bufferLen: nat, datlen: nat): nat
  {
    var doubled := if bufferLen <= CHAIN_MAX_AUTO_SIZE / 2 then 2 * bufferLen else bufferLen;
    if datlen > doubled then datlen else doubled
  }

  /** A pointer to a link of the list: the one in `first`, or the `next` of a
      chain given by its index. */
  datatype LinkRef = FirstLink | NextOf(prev: nat)

  /** The index of the chain a link leads to. */
  function Target(link: LinkRef): nat
  {
    if link.FirstLink? then 0 else link.prev + 1
  }

  /** evbuffer_chains_all_empty. */
  method ChainsAllEmpty(cs: seq<Chain>) returns (empty: bool)
    ensures empty <==> AllEmpty(cs)
  {
    for i := 0 to |cs|
      invariant forall j :: 0 <= j < i ==> cs[j].off == 0
    {
      if cs[i].off != 0 {
        return false;
      }
    }
    return true;
  }

  /** Growing the chain that the pointer leads to, stale or not. */
  lemma GrowAny(cs: seq<Chain>, v: nat, c: Chain, more: Bytes)
    requires v < |cs| && c.Data() == cs[v].Data() + more
    ensures c.off == cs[v].off + |more|
    ensures |Flatten(cs[v := c])| == |Flatten(cs)| + |more|
    ensures LastWithData(cs, v) ==> LastWithData(cs[v := c], v) && Flatten(cs[v := c]) == Flatten(cs) + more
    ensures LastWithData(cs, v) && Packed(cs, v) ==> Packed(cs[v := c], v)
    ensures Stuck(cs, v) ==> Stuck(cs[v := c], v)
  {
    FlattenAt(cs, v);
    FlattenUpdate(cs, v, c);
    if LastWithData(cs, v) {
      FlattenUpTo(cs, v);
      UpdateLast(cs, v, c);
    } else if Stuck(cs, v) {
      var j :| v + 1 < j < |cs| && cs[j].off > 0;
      assert cs[v := c][j].off > 0;
    }
  }

  class Buffer {
    var chains: seq<Chain>
    /** Index of the last chain; -1 for the null pointer. */
    var last: int
    /** Index of the chain `*last_with_datap`. */
    var lwd: nat
    var totalLen: nat
    var freezeStart: bool
    var freezeEnd: bool

    ghost predicate Valid()
      reads this
    {
      && last == |chains| - 1
      && LastWithData(chains, lwd)
      && totalLen == |Flatten(chains)|
    }

    /** The buffer is in order but for `last_with_datap`, which is stale. */
    ghost predicate Torn()
      reads this
    {
      && last == |chains| - 1
      && Stuck(chains, lwd)
      && totalLen == |Flatten(chains)|
    }

    /** The byte string the buffer denotes. */
    ghost function Contents(): Bytes
      reads this
    {
      Flatten(chains)
    }

    /** No empty chain stands before the last chain with data. */
    ghost predicate NoGaps()
      reads this
    {
      Packed(chains, lwd)
    }

    constructor ()
      ensures Valid() && NoGaps() && Contents() == [] && chains == []
      ensures !freezeStart && !freezeEnd
    {
      chains, last, lwd, totalLen := [], -1, 0, 0;
      freezeStart, freezeEnd := false, false;
    }

    /** The slot where the chain after the last one with data goes; the chains
        from there on are empty, and the caller drops them
        (evbuffer_free_trailing_empty_chains). With a stale pointer they are not. */
    method TrailingSlot() returns (slot: nat)
      requires LastWithData(chains, lwd) || Stuck(chains, lwd)
      ensures lwd <= slot <= |chains|
      ensures LastWithData(chains, lwd) ==> slot == InsertAt(chains, lwd) && AllEmpty(chains[slot..])
      ensures Stuck(chains, lwd) ==> !AllEmpty(chains[slot..])
    {
      slot := lwd;
      while slot < |chains| && chains[slot].off != 0
        invariant lwd <= slot <= |chains|
        invariant slot == lwd || (slot == lwd + 1 && chains[lwd].off > 0)
      {
        slot := slot + 1;
      }
      if Stuck(chains, lwd) {
        ghost var j :| lwd + 1 < j < |chains| && chains[j].off > 0;
        assert chains[slot..][j - slot].off > 0;
      }
    }

    /** Adds a chain at the end, replacing trailing empty chains; asserts that they
        are empty. */
    method ChainInsert(c: Chain) returns (aborted: bool)
      requires Valid() || Torn()
      modifies this`chains, this`lwd, this`last, this`totalLen
      ensures aborted <==> old(Torn())
      ensures !aborted ==>
                && Valid() && Contents() == old(Contents()) + c.Data()
                && chains == old(chains)[..InsertAt(old(chains), old(lwd))] + [c]
                && lwd == (if c.off > 0 then last else old(lwd))
                && (old(NoGaps()) ==> NoGaps())
    {
      hide Flatten;
      if Torn() {
        StuckIsWrong(chains, lwd);
      } else {
        FlattenOne(c);
        InsertBytes(chains, lwd, [c]);
        InsertKeepsLast(chains, lwd, [c], 0);
        assert chains == [] ==> chains[..0] + [c] == [c];
      }
      if lwd == |chains| {
        chains, last, totalLen := [c], 0, totalLen + c.off;
        return false;
      }
      var slot := TrailingSlot();
      var empty := ChainsAllEmpty(chains[slot..]);
      if !empty {
        return true;
      }
      chains, last, totalLen := chains[..slot] + [c], slot, totalLen + c.off;
      if c.off > 0 {
        lwd := slot;
      }
      return false;
    }

    /** Replaces the last chain with data by one with more bytes behind. */
    method GrowLast(c: Chain, ghost more: Bytes)
      requires (Valid() || Torn()) && chains != [] && c.Data() == chains[lwd].Data() + more
      modifies this`chains, this`totalLen
      ensures chains == old(chains)[lwd := c]
      ensures old(Valid()) ==> Valid() && Contents() == old(Contents()) + more && (old(NoGaps()) ==> NoGaps())
      ensures old(Torn()) ==> Torn()
    {
      GrowAny(chains, lwd, c, more);
      hide Flatten, RawChain.Data, LastWithData, Stuck, Packed;
      totalLen := totalLen + (c.off - chains[lwd].off);
      chains := chains[lwd := c];
    }

    method Add(data: Bytes) returns (ok: bool)
      requires Valid()
      modifies this`chains, this`lwd, this`last, this`totalLen
      ensures Valid() && (old(NoGaps()) ==> NoGaps())
      ensures Contents() == if ok then old(Contents()) + data else old(Contents())
      ensures ok <==> !freezeEnd && |data| <= SIZE_MAX - old(totalLen) && |data| <= CHAIN_ROOM
    {
      StuckOrNot(chains, lwd);
      var aborted;
      ok, aborted := AddRaw(data);
    }

    lemma StuckOrNot(cs: seq<Chain>, v: nat)
      ensures !(Stuck(cs, v) && LastWithData(cs, v))
    {
    }

    /** evbuffer_add, also on a buffer with a stale pointer: that cannot be mended by
        adding, and adding a chain to it trips an assertion. */
    method AddRaw(data: Bytes) returns (ok: bool, aborted: bool)
      requires Valid() || Torn()
      modifies this`chains, this`lwd, this`last, this`totalLen
      ensures aborted ==> old(Torn())
      ensures old(Torn()) ==> aborted || Torn()
      ensures old(Valid()) ==>
                && Valid() && (old(NoGaps()) ==> NoGaps())
                && Contents() == (if ok then old(Contents()) + data else old(Contents()))
                && (ok <==> !freezeEnd && |data| <= SIZE_MAX - old(totalLen) && |data| <= CHAIN_ROOM)
    {
      StuckOrNot(chains, lwd);
      if freezeEnd || |data| > SIZE_MAX - totalLen {
        return false, false;
      }
      if lwd == |chains| {
        var initial := NewChain(|data|);
        if initial.None? {
          return false, false;
        }
        aborted := ChainInsert(initial.value);
      }
      ok, aborted := AddToLast(data);
    }

    /** The storage strategies of evbuffer_add once there is a chain: fill the
        slack behind, realign and fill, or fill and add a chain. */
    method AddToLast(data: Bytes) returns (ok: bool, aborted: bool)
      requires (Valid() || Torn()) && chains != []
      modifies this`chains, this`lwd, this`last, this`totalLen
      ensures aborted ==> old(Torn())
      ensures old(Torn()) ==> aborted || Torn()
      ensures old(Valid()) ==>
                && Valid() && (old(NoGaps()) ==> NoGaps())
                && Contents() == (if ok then old(Contents()) + data else old(Contents()))
                && (ok <==> |data| <= CHAIN_ROOM)
    {
      assert lwd < |chains|;
      StuckOrNot(chains, lwd);
      hide Flatten, Stuck, LastWithData, Packed;
      aborted := false;
      var chain := chains[lwd];
      if !chain.immutable && |chain.mem| - chain.misalign - chain.off >= |data| {
        GrowLast(chain.Append(data), data);
        ok := true;
      } else if !chain.immutable && chain.ShouldRealign(|data|) {
        GrowLast(chain.Align().Append(data), data);
        ok := true;
      } else {
        ok, aborted := AddNewChain(data);
      }
    }

    method AddNewChain(data: Bytes) returns (ok: bool, aborted: bool)
      requires (Valid() || Torn()) && chains != []
      requires chains[lwd].immutable || chains[lwd].SpaceLen() < |data|
      modifies this`chains, this`lwd, this`last, this`totalLen
      ensures aborted ==> old(Torn())
      ensures old(Torn()) ==> aborted || Torn()
      ensures old(Valid()) ==>
                && Valid() && (old(NoGaps()) ==> NoGaps())
                && Contents() == (if ok then old(Contents()) + data else old(Contents()))
                && (ok <==> |data| <= CHAIN_ROOM)
    {
      assert lwd < |chains|;
      StuckOrNot(chains, lwd);
      hide Flatten, Stuck, LastWithData, Packed;
      var chain := chains[lwd];
      var remain := chain.SpaceLen();
      var tmp := NewChain(GrowSize(|chain.mem|, |data|));
      if tmp.None? {
        return false, false;
      }
      SplitAppend(Contents(), data, remain);
      if remain > 0 {
        GrowLast(chain.Append(data[..remain]), data[..remain]);
      }
      assert old(Torn()) ==> Torn();
      aborted := ChainInsert(tmp.value.Append(data[remain..]));
      ok := true;
    }

    method Prepend(data: Bytes) returns (ok: bool)
      requires Valid()
      modifies this`chains, this`lwd, this`last, this`totalLen
      ensures Valid() && (old(NoGaps()) && data != [] ==> NoGaps())
      ensures ok ==> Contents() == data + old(Contents())
      ensures freezeStart ==> chains == old(chains) && lwd == old(lwd)
      ensures freezeStart || |data| > SIZE_MAX - old(totalLen) ==> !ok && Contents() == old(Contents())
      ensures !ok && !freezeStart && |data| <= SIZE_MAX - old(totalLen) ==> |data| > CHAIN_ROOM
      ensures !ok ==> exists k :: 0 <= k <= |data| && data[..k] + Contents() == data + old(Contents())
    {
      assert data[..|data|] == data;
      if freezeStart || |data| > SIZE_MAX - totalLen {
        return false;
      }
      if chains == [] {
        var initial := NewChain(|data|);
        if initial.None? {
          return false;
        }
        var aborted := ChainInsert(initial.value);
      }
      var done, rest := PrependInFirst(data);
      if done {
        return true;
      }
      var tmp := NewChain(|rest|);
      if tmp.None? {
        return false;
      }
      PrependNew(tmp.value, rest);
      return true;
    }

    /** Puts as much of the tail of the data as fits in front of the bytes of
        the first chain. */
    method PrependInFirst(data: Bytes) returns (done: bool, rest: Bytes)
      requires Valid() && chains != []
      modifies this`chains, this`totalLen
      ensures Valid() && (old(NoGaps()) ==> NoGaps())
      ensures data + old(Contents()) == rest + Contents()
      ensures |rest| <= |data| && rest == data[..|rest|] && (done ==> rest == [])
      ensures !done ==> chains[lwd].off > 0 && (data != [] ==> rest != [])
    {
      var chain := chains[0];
      done, rest := false, data;
      if chain.immutable {
        FlattenUpTo(chains, lwd);
        return;
      }
      if chain.off == 0 {
        chain := chain.(misalign := |chain.mem|);
      }
      var n := if chain.misalign >= |data| then |data| else chain.misalign;
      done, rest := n == |data|, data[..|data| - n];
      GrowFirst(chain.Prepend(data[|data| - n..]), data, |data| - n);
      if !done && n == 0 { FlattenUpTo(chains, lwd); }
    }

    /** Replaces the first chain by one with more bytes in front. */
    method GrowFirst(c: Chain, ghost data: Bytes, ghost k: nat)
      requires Valid() && chains != [] && k <= |data| && c.Data() == data[k..] + chains[0].Data()
      modifies this`chains, this`totalLen
      ensures Valid() && data + old(Contents()) == data[..k] + Contents()
      ensures chains == old(chains)[0 := c]
      ensures old(NoGaps()) ==> NoGaps()
    {
      FlattenFrom(chains, 0);
      assert chains[0..] == chains;
      assert c.off == |data[k..]| + chains[0].off;
      PrependSplit(data, k, chains[0].Data(), Flatten(chains[1..]));
      UpdateFirst(chains, lwd, c);
      totalLen := totalLen + (c.off - chains[0].off);
      chains := chains[0 := c];
    }

    /** Makes a new first chain holding the data at the end of its storage. */
    method PrependNew(c: Chain, data: Bytes)
      requires Valid() && chains != [] && chains[lwd].off > 0
      requires c.off == 0 && !c.immutable && |data| <= |c.mem|
      modifies this`chains, this`lwd, this`last, this`totalLen
      ensures Valid() && Contents() == data + old(Contents())
      ensures old(NoGaps()) && data != [] ==> NoGaps()
    {
      var tmp := c.(misalign := |c.mem|).Prepend(data);
      PrependChain(chains, lwd, tmp);
      chains, lwd, last := [tmp] + chains, lwd + 1, last + 1;
      totalLen := totalLen + |data|;
    }

    method Drain(len: nat) returns (ok: bool)
      requires Valid()
      modifies this`chains, this`lwd, this`last, this`totalLen
      ensures Valid() && (old(NoGaps()) ==> NoGaps())
      ensures ok <==> old(totalLen) == 0 || !freezeStart
      ensures Contents() == if !ok then old(Contents())
                            else if len >= old(totalLen) then [] else old(Contents())[len..]
    {
      if totalLen == 0 {
        return true;
      }
      if freezeStart {
        return false;
      }
      if len >= totalLen {
        chains, last, lwd, totalLen := [], -1, 0, 0;
      } else {
        DrainSome(len);
      }
      return true;
    }

    /** Walks over the chains that a drain of `len` bytes empties, keeping the
        pointer to the last link with data off the chains that go away. */
    method SkipChains(len: nat) returns (k: nat, remaining: nat, link: LinkRef)
      requires Valid() && len < totalLen
      ensures k <= lwd && k < |chains| && remaining < chains[k].off && k == SkipCount(chains, len)
      ensures remaining <= len && len - remaining == |Flatten(chains[..k])|
      ensures Flatten(chains)[len..] == Flatten(chains[k..])[remaining..]
      ensures link == if lwd <= k then FirstLink else NextOf(lwd - 1)
    {
      k, remaining := 0, len;
      link := if lwd == 0 then FirstLink else NextOf(lwd - 1);
      SkippedNone(chains, len);
      hide RawChain.Data, Flatten, SkipCount, LastWithData, Skipped;
      while remaining >= chains[k].off
        invariant k < |chains| && k <= lwd && Skipped(chains, len, k, remaining)
        invariant link == (if lwd <= k then FirstLink else NextOf(lwd - 1))
        decreases |chains| - k
      {
        SkippedNext(chains, lwd, len, k, remaining);
        remaining := remaining - chains[k].off;
        if k == Target(link) {
          link := FirstLink;
        }
        if link == NextOf(k) {
          link := FirstLink;
        }
        k := k + 1;
      }
      SkippedAll(chains, len, k, remaining);
    }

    /** Drains part of the data: whole chains from the front, then bytes of the
        next one. */
    method DrainSome(len: nat)
      requires Valid() && len < totalLen
      modifies this`chains, this`lwd, this`last, this`totalLen
      ensures Valid() && (old(NoGaps()) ==> NoGaps())
      ensures Contents() == old(Contents())[len..]
    {
      var k, remaining, link := SkipChains(len);
      DropTo(k, remaining, link, len);
    }

    /** Makes chain `k` the first one and drops bytes from its front; `len` is
        the number of bytes that disappear in all. */
    method DropTo(k: nat, remaining: nat, link: LinkRef, len: nat)
      requires Valid() && k <= lwd && k < |chains| && remaining < chains[k].off && len <= totalLen
      requires Flatten(chains)[len..] == Flatten(chains[k..])[remaining..]
      requires link == if lwd <= k then FirstLink else NextOf(lwd - 1)
      modifies this`chains, this`lwd, this`last, this`totalLen
      ensures Valid() && (old(NoGaps()) ==> NoGaps())
      ensures Contents() == old(Contents()[len..])
      ensures chains == [old(chains)[k].DropFront(remaining)] + old(chains)[k + 1..]
      ensures lwd == if old(lwd) <= k then 0 else old(lwd) - k
    {
      DropChains(chains, lwd, k, remaining);
      hide Flatten, LastWithData, Packed, RawChain.Data, RawChain.DropFront;
      lwd := if link.FirstLink? then 0 else link.prev + 1 - k;
      chains := [chains[k].DropFront(remaining)] + chains[k + 1..];
      last, totalLen := last - k, totalLen - len;
    }
  }
}
