/** Positions in a buffer, copying out, comparing and searching
    (libevent/buffer.c). None of these operations changes the buffer. */
module EvbufferSearch {
  import opened Options
  import opened ByteStrings
  import opened Chains
  import opened Evbuffer

  /** An evbuffer_ptr: the position, and the chain and offset that denote it. No
      chain means the end of the buffer, or nothing at all when `pos` is -1. */
  datatype Ptr = Ptr(pos: int, chain: Option<nat>, inChain: nat)

  const NOT_FOUND: Ptr := Ptr(-1, None, 0)

  const SSIZE_MAX: nat := 0x7fff_ffff_ffff_ffff

  datatype How = PtrSetTo | PtrAdd

  /** Where the bytes of chain `i` begin. */
  ghost function Offset(cs: seq<Chain>, i: nat): nat
    requires i <= |cs|
  {
    |Flatten(cs[..i])|
  }

  lemma OffsetNext(cs: seq<Chain>, i: nat)
    requires i < |cs|
    ensures Offset(cs, i + 1) == Offset(cs, i) + cs[i].off
    ensures Offset(cs, i + 1) <= |Flatten(cs)|
    ensures Flatten(cs)[Offset(cs, i)..Offset(cs, i + 1)] == cs[i].Data()
  {
    FlattenNext(cs, i);
    FlattenSplit(cs, i + 1);
  }

  lemma OffsetEnds(cs: seq<Chain>)
    ensures Offset(cs, 0) == 0 && Offset(cs, |cs|) == |Flatten(cs)|
  {
    assert cs[..0] == [] && cs[..|cs|] == cs;
  }

  lemma {:induction false} OffsetMonotone(cs: seq<Chain>, i: nat, j: nat)
    requires i <= j <= |cs|
    ensures Offset(cs, i) <= Offset(cs, j) <= |Flatten(cs)|
    decreases j - i
  {
    FlattenSplit(cs, j);
    if i < j {
      OffsetNext(cs, j - 1);
      OffsetMonotone(cs, i, j - 1);
    }
  }

  /** The chain and offset of a pointer denote its position. */
  ghost predicate PtrOk(cs: seq<Chain>, p: Ptr)
  {
    match p.chain
    case None => p.inChain == 0 && p.pos == |Flatten(cs)|
    case Some(i) => i < |cs| && p.inChain <= cs[i].off && p.pos == Offset(cs, i) + p.inChain
  }

  function StartPtr(buf: Buffer): Ptr
    reads buf
  {
    Ptr(0, if buf.chains == [] then None else Some(0), 0)
  }

  /** evbuffer_ptr_set. */
  method PtrSet(buf: Buffer, p: Ptr, position: nat, how: How) returns (ok: bool, q: Ptr)
    requires buf.Valid() && (how.PtrAdd? && p.pos >= 0 ==> PtrOk(buf.chains, p))
    requires how.PtrSetTo? ==> position <= SIZE_MAX
    ensures how.PtrAdd? && (p.pos < 0 || SIZE_MAX - position < p.pos) ==> !ok && q == p
    ensures how.PtrSetTo? || (p.pos >= 0 && SIZE_MAX - position >= p.pos) ==>
              var target := if how.PtrSetTo? then position else p.pos + position;
              && (ok <==> target <= buf.totalLen)
              && (ok ==> PtrOk(buf.chains, q) && q.pos == target)
              && (ok && q.chain.Some? ==> q.inChain < buf.chains[q.chain.value].off)
              && (!ok ==> q == NOT_FOUND)
  {
    if how.PtrAdd? && (p.pos < 0 || SIZE_MAX - position < p.pos) {
      return false, p;
    }
    var cs := buf.chains;
    OffsetEnds(cs);
    var c, at, target := 0, 0, position;
    if how.PtrAdd? {
      c := if p.chain.Some? then p.chain.value else |cs|;
      at := p.inChain;
      target := p.pos + position;
    }
    ok, q := Seek(cs, c, at, position, target);
  }

  /** Walks `left` bytes on from offset `at` of chain `c`, to position `target`. */
  method Seek(cs: seq<Chain>, c: nat, at: nat, left: nat, target: nat) returns (ok: bool, q: Ptr)
    requires c <= |cs| && target == Offset(cs, c) + at + left
    requires if c < |cs| then at <= cs[c].off else at == 0
    ensures ok <==> target <= |Flatten(cs)|
    ensures ok ==> PtrOk(cs, q) && q.pos == target
    ensures ok && q.chain.Some? ==> q.inChain < cs[q.chain.value].off
    ensures !ok ==> q == NOT_FOUND
  {
    var chain: nat, position: nat, rest: nat := c, at, left;
    OffsetEnds(cs);
    hide Flatten, RawChain.Data;
    while chain < |cs| && position + rest >= cs[chain].off
      invariant chain <= |cs| && target == Offset(cs, chain) + position + rest
      invariant if chain < |cs| then position <= cs[chain].off else position == 0
      decreases |cs| - chain
    {
      OffsetNext(cs, chain);
      rest := rest - (cs[chain].off - position);
      chain, position := chain + 1, 0;
    }
    if chain < |cs| {
      OffsetNext(cs, chain);
      return true, Ptr(target, Some(chain), position + rest);
    } else if rest == 0 {
      return true, Ptr(target, None, 0);
    } else {
      return false, NOT_FOUND;
    }
  }

  /** evbuffer_copyout_from, and evbuffer_copyout when no position is given. */
  method CopyoutFrom(buf: Buffer, p: Option<Ptr>, datlen: nat) returns (n: int, data: Bytes)
    requires buf.Valid() && (p.Some? ==> PtrOk(buf.chains, p.value) && p.value.pos <= SSIZE_MAX)
    ensures var pos := if p.Some? then p.value.pos else 0;
            && 0 <= pos <= buf.totalLen
            && var len := if datlen + pos > buf.totalLen then buf.totalLen - pos else datlen;
            && n == (if p.Some? && datlen > SSIZE_MAX - pos then -1
                     else if len == 0 then 0 else if buf.freezeStart then -1 else len)
            && data == (if n > 0 then buf.Contents()[pos..pos + n] else [])
  {
    var cs := buf.chains;
    var q := if p.Some? then p.value else StartPtr(buf);
    OffsetEnds(cs);
    PtrInRange(cs, q);
    if p.Some? && datlen > SSIZE_MAX - q.pos {
      return -1, [];
    }
    var len := if datlen + q.pos > buf.totalLen then buf.totalLen - q.pos else datlen;
    if len == 0 {
      return 0, [];
    }
    if buf.freezeStart {
      return -1, [];
    }
    data := CopyBytes(cs, q, len);
    return len, data;
  }

  lemma PtrInRange(cs: seq<Chain>, p: Ptr)
    requires PtrOk(cs, p)
    ensures 0 <= p.pos <= |Flatten(cs)|
    ensures p.chain.Some? ==> p.pos <= Offset(cs, p.chain.value + 1) <= |Flatten(cs)|
  {
    if p.chain.Some? {
      OffsetNext(cs, p.chain.value);
    }
  }

  lemma PtrStart(cs: seq<Chain>, p: Ptr)
    requires PtrOk(cs, p)
    ensures var chain := if p.chain.Some? then p.chain.value else |cs|;
            && chain <= |cs| && p.pos == Offset(cs, chain) + p.inChain
            && if chain < |cs| then p.inChain <= cs[chain].off else p.inChain == 0
  {
    OffsetEnds(cs);
  }

  lemma EmptySlice(s: Bytes, lo: nat, data: Bytes)
    requires lo <= |s|
    ensures IsSlice(s, lo, lo, data[..0])
  {
  }

  /** The bytes of `s` from `lo` up to `hi` are `data`. */
  ghost predicate IsSlice(s: Bytes, lo: nat, hi: nat, data: Bytes)
  {
    lo <= hi <= |s| && s[lo..hi] == data
  }

  /** Copies `len` bytes that are known to be there. */
  method CopyBytes(cs: seq<Chain>, q: Ptr, len: nat) returns (data: Bytes)
    requires PtrOk(cs, q) && q.pos + len <= |Flatten(cs)|
    ensures data == Flatten(cs)[q.pos..q.pos + len]
  {
    hide Flatten, RawChain.Data, Offset, IsSlice, PtrOk;
    ghost var s, end := Flatten(cs), q.pos + len;
    data := [];
    PtrInRange(cs, q);
    PtrStart(cs, q);
    OffsetEnds(cs);
    var chain: nat, at: nat, left: nat := if q.chain.Some? then q.chain.value else |cs|, q.inChain, len;
    EmptySlice(s, q.pos, []);
    while left > 0 && left >= cs[chain].off - at
      invariant chain <= |cs| && left <= len && (left > 0 ==> chain < |cs|)
      invariant end == Offset(cs, chain) + at + left
      invariant if chain < |cs| then at <= cs[chain].off else at == 0
      invariant IsSlice(s, q.pos, end - left, data)
      decreases |cs| - chain
    {
      ChainPiece(cs, chain, q.pos, at, cs[chain].off - at, data);
      data := data + cs[chain].Data()[at..];
      left := left - (cs[chain].off - at);
      chain, at := chain + 1, 0;
    }
    if left > 0 {
      ChainPiece(cs, chain, q.pos, at, left, data);
      data := data + cs[chain].Data()[at..at + left];
    }
    SliceIs(s, q.pos, end, data);
  }

  lemma SliceIs(s: Bytes, lo: nat, hi: nat, data: Bytes)
    requires IsSlice(s, lo, hi, data)
    ensures data == s[lo..hi]
  {
  }

  /** Copying `n` bytes of a chain extends the slice copied so far. */
  lemma ChainPiece(cs: seq<Chain>, c: nat, lo: nat, at: nat, n: nat, data: Bytes)
    requires c < |cs| && at + n <= cs[c].off && IsSlice(Flatten(cs), lo, Offset(cs, c) + at, data)
    ensures IsSlice(Flatten(cs), lo, Offset(cs, c) + at + n, data + cs[c].Data()[at..at + n])
    ensures at + n == cs[c].off ==> cs[c].Data()[at..] == cs[c].Data()[at..at + n]
    ensures Offset(cs, c + 1) == Offset(cs, c) + cs[c].off
    ensures c + 1 == |cs| ==> Offset(cs, c + 1) == |Flatten(cs)|
  {
    OffsetNext(cs, c);
    OffsetEnds(cs);
    SliceMiddle(Flatten(cs), Offset(cs, c), cs[c].off, at, n, lo);
  }

  lemma SliceMiddle(s: Bytes, off: nat, n: nat, at: nat, left: nat, pos: nat)
    requires off + n <= |s| && at + left <= n && pos <= off + at
    ensures s[pos..off + at] + s[off..off + n][at..at + left] == s[pos..off + at + left]
  {
    InnerSlice(s, off, n, at, left);
    SplitSlice(s, pos, off + at, off + at + left);
  }

  lemma InnerSlice(s: Bytes, off: nat, n: nat, at: nat, left: nat)
    requires off + n <= |s| && at + left <= n
    ensures s[off..off + n][at..at + left] == s[off + at..off + at + left]
  {
    var x, y := s[off..off + n][at..at + left], s[off + at..off + at + left];
    assert |x| == |y|;
    forall k | 0 <= k < left ensures x[k] == y[k] {
      assert x[k] == s[off..off + n][at + k] == s[off + at + k];
    }
  }

  lemma SplitSlice(s: Bytes, a: nat, b: nat, c: nat)
    requires a <= b <= c <= |s|
    ensures s[a..b] + s[b..c] == s[a..c]
  {
    var x, y := s[a..b] + s[b..c], s[a..c];
    assert |x| == |y|;
    forall k | 0 <= k < |y| ensures x[k] == y[k] {
      assert y[k] == s[a + k];
    }
  }

  /** evbuffer_remove: copies out and then drains what was copied. */
  method Remove(buf: Buffer, datlen: nat) returns (n: int, data: Bytes)
    requires buf.Valid()
    modifies buf`chains, buf`lwd, buf`last, buf`totalLen
    ensures buf.Valid() && (old(buf.NoGaps()) ==> buf.NoGaps())
    ensures n == var len := if datlen > old(buf.totalLen) then old(buf.totalLen) else datlen;
                 if len == 0 then 0 else if buf.freezeStart then -1 else len
    ensures n > 0 ==> data + buf.Contents() == old(buf.Contents()) && |data| == n
    ensures n <= 0 ==> buf.Contents() == old(buf.Contents()) && data == []
  {
    n, data := CopyoutFrom(buf, None, datlen);
    if n > 0 {
      assert buf.Contents() == buf.Contents()[..n] + buf.Contents()[n..];
      var ok := buf.Drain(n);
    }
  }

  /** `what` occurs in `s` at position `i`. */
  ghost predicate Occurs(s: Bytes, what: Bytes, i: int)
  {
    0 <= i && i + |what| <= |s| && s[i..i + |what|] == what
  }

  /** memchr: the first place of a byte. */
  method MemChr(s: Bytes, b: Byte) returns (k: Option<nat>)
    ensures k.Some? ==> k.value < |s| && s[k.value] == b && b !in s[..k.value]
    ensures k.None? ==> b !in s
  {
    for i := 0 to |s|
      invariant b !in s[..i]
    {
      if s[i] == b {
        return Some(i);
      }
    }
    return None;
  }

  /** memcmp: the sign of the first difference. */
  function Memcmp(a: Bytes, b: Bytes): int
    requires |a| == |b|
  {
    if a == [] then 0 else if a[0] != b[0] then (if a[0] < b[0] then -1 else 1) else Memcmp(a[1..], b[1..])
  }

  lemma {:induction false} MemcmpEqual(a: Bytes, b: Bytes)
    requires |a| == |b|
    ensures Memcmp(a, b) == 0 <==> a == b
  {
    if a != [] && a[0] == b[0] {
      MemcmpEqual(a[1..], b[1..]);
      assert a == [a[0]] + a[1..] && b == [b[0]] + b[1..];
    }
  }

  /** An equal front does not matter. */
  lemma {:induction false} MemcmpSkip(a: Bytes, b: Bytes, k: nat)
    requires |a| == |b| && k <= |a| && a[..k] == b[..k]
    ensures Memcmp(a, b) == Memcmp(a[k..], b[k..])
  {
    if k == 0 {
      assert a[0..] == a && b[0..] == b;
    } else {
      assert a[0] == a[..k][0] && b[0] == b[..k][0];
      assert a[1..][..k - 1] == a[..k][1..] && b[1..][..k - 1] == b[..k][1..];
      MemcmpSkip(a[1..], b[1..], k - 1);
      assert a[1..][k - 1..] == a[k..] && b[1..][k - 1..] == b[k..];
    }
  }

  /** A front that differs decides. */
  lemma {:induction false} MemcmpFront(a: Bytes, b: Bytes, k: nat)
    requires |a| == |b| && k <= |a| && a[..k] != b[..k]
    ensures Memcmp(a, b) == Memcmp(a[..k], b[..k])
  {
    if a[0] == b[0] {
      assert a[..k] == [a[0]] + a[1..][..k - 1] && b[..k] == [b[0]] + b[1..][..k - 1];
      MemcmpFront(a[1..], b[1..], k - 1);
      assert a[..k][1..] == a[1..][..k - 1] && b[..k][1..] == b[1..][..k - 1];
    }
  }

  /** How `mem` compares with the bytes at a position; -1 if there are not so many. */
  ghost function OrderAt(s: Bytes, pos: nat, mem: Bytes): int
  {
    if pos + |mem| > |s| then -1 else Memcmp(s[pos..pos + |mem|], mem)
  }

  /** The sign is that of the first bytes that differ. */
  lemma {:induction false} MemcmpFirst(a: Bytes, b: Bytes)
    requires |a| == |b|
    ensures Memcmp(a, b) < 0 <==> exists i :: 0 <= i < |a| && a[..i] == b[..i] && a[i] < b[i]
    ensures Memcmp(a, b) > 0 <==> exists i :: 0 <= i < |a| && a[..i] == b[..i] && a[i] > b[i]
    decreases |a|
  {
    if a != [] {
      var c, d := a[1..], b[1..];
      if a[0] != b[0] {
        assert a[..0] == b[..0];
        forall i | 0 < i < |a| ensures a[..i] != b[..i] {
          assert a[..i][0] == a[0] && b[..i][0] == b[0];
        }
      } else {
        MemcmpFirst(c, d);
        forall i | 0 <= i < |c| ensures c[..i] == d[..i] <==> a[..i + 1] == b[..i + 1] {
          assert a[..i + 1] == [a[0]] + c[..i] && b[..i + 1] == [b[0]] + d[..i];
          assert a[..i + 1][1..] == c[..i] && b[..i + 1][1..] == d[..i];
        }
        FirstShifts(a, b);
      }
    }
  }

  lemma FirstShifts(a: Bytes, b: Bytes)
    requires |a| == |b| && a != [] && a[0] == b[0]
    requires forall i :: 0 <= i < |a| - 1 ==> (a[1..][..i] == b[1..][..i] <==> a[..i + 1] == b[..i + 1])
    ensures (exists i :: 0 <= i < |a| && a[..i] == b[..i] && a[i] < b[i]) <==>
            (exists i :: 0 <= i < |a| - 1 && a[1..][..i] == b[1..][..i] && a[1..][i] < b[1..][i])
    ensures (exists i :: 0 <= i < |a| && a[..i] == b[..i] && a[i] > b[i]) <==>
            (exists i :: 0 <= i < |a| - 1 && a[1..][..i] == b[1..][..i] && a[1..][i] > b[1..][i])
  {
    if i :| 0 < i < |a| && a[..i] == b[..i] && a[i] < b[i] {
      assert a[1..][..i - 1] == b[1..][..i - 1] && a[1..][i - 1] < b[1..][i - 1];
    }
    if i :| 0 < i < |a| && a[..i] == b[..i] && a[i] > b[i] {
      assert a[1..][..i - 1] == b[1..][..i - 1] && a[1..][i - 1] > b[1..][i - 1];
    }
    if i :| 0 <= i < |a| - 1 && a[1..][..i] == b[1..][..i] && a[1..][i] < b[1..][i] {
      assert a[..i + 1] == b[..i + 1] && a[i + 1] < b[i + 1];
    }
    if i :| 0 <= i < |a| - 1 && a[1..][..i] == b[1..][..i] && a[1..][i] > b[1..][i] {
      assert a[..i + 1] == b[..i + 1] && a[i + 1] > b[i + 1];
    }
  }

  /** What evbuffer_ptr_memcmp answers: -1 beyond the end, else the order of the first bytes
      that differ, if any do. */
  lemma OrderLaw(s: Bytes, pos: nat, mem: Bytes)
    ensures pos + |mem| > |s| ==> OrderAt(s, pos, mem) == -1
    ensures pos + |mem| <= |s| ==>
              && (OrderAt(s, pos, mem) < 0 <==> exists i :: 0 <= i < |mem| && s[pos..pos + |mem|][..i] == mem[..i] && s[pos + i] < mem[i])
              && (OrderAt(s, pos, mem) > 0 <==> exists i :: 0 <= i < |mem| && s[pos..pos + |mem|][..i] == mem[..i] && s[pos + i] > mem[i])
  {
    if pos + |mem| <= |s| {
      var a := s[pos..pos + |mem|];
      MemcmpFirst(a, mem);
      assert forall i :: 0 <= i < |mem| ==> a[i] == s[pos + i];
    }
  }

  lemma OrderZero(s: Bytes, pos: nat, mem: Bytes)
    ensures OrderAt(s, pos, mem) == 0 <==> Occurs(s, mem, pos)
  {
    if pos + |mem| <= |s| {
      MemcmpEqual(s[pos..pos + |mem|], mem);
    }
  }

  /** evbuffer_ptr_memcmp: as memcmp on the string, and -1 beyond its end. */
  method PtrMemcmp(cs: seq<Chain>, totalLen: nat, p: Ptr, mem: Bytes) returns (r: int)
    requires PtrOk(cs, p) && totalLen == |Flatten(cs)|
    ensures 0 <= p.pos && r == OrderAt(Flatten(cs), p.pos, mem)
    ensures r == 0 <==> Occurs(Flatten(cs), mem, p.pos)
  {
    hide Flatten, RawChain.Data, Offset, IsSlice, PtrOk, Memcmp, Occurs, OrderAt;
    PtrInRange(cs, p);
    PtrStart(cs, p);
    OffsetEnds(cs);
    ghost var s := Flatten(cs);
    OrderZero(s, p.pos, mem);
    BeyondEnd(s, p.pos, mem);
    if p.pos + |mem| > totalLen {
      return -1;
    }
    var chain: nat, at: nat, done: nat := if p.chain.Some? then p.chain.value else |cs|, p.inChain, 0;
    EmptySlice(s, p.pos, mem);
    while done < |mem| && chain < |cs|
      invariant chain <= |cs| && done <= |mem|
      invariant done < |mem| ==> p.pos + done == Offset(cs, chain) + at
      invariant if chain < |cs| then at <= cs[chain].off else at == 0
      invariant IsSlice(s, p.pos, p.pos + done, mem[..done])
      decreases |cs| - chain
    {
      var left := |mem| - done;
      var n := if left + at > cs[chain].off then cs[chain].off - at else left;
      ComparePiece(cs, chain, p.pos, at, n, mem, done);
      r := Memcmp(cs[chain].Data()[at..at + n], mem[done..done + n]);
      if r != 0 {
        return;
      }
      done := done + n;
      chain, at := chain + 1, 0;
    }
    WholeSlice(s, p.pos, mem, done);
    r := 0;
  }

  lemma BeyondEnd(s: Bytes, pos: nat, mem: Bytes)
    ensures pos + |mem| > |s| ==> OrderAt(s, pos, mem) == -1
  {
  }

  lemma WholeSlice(s: Bytes, lo: nat, mem: Bytes, n: nat)
    requires n == |mem| && IsSlice(s, lo, lo + n, mem[..n])
    ensures Occurs(s, mem, lo)
  {
    assert mem[..n] == mem;
  }

  /** Comparing `n` bytes of a chain decides, or the match goes on. */
  lemma ComparePiece(cs: seq<Chain>, c: nat, lo: nat, at: nat, n: nat, mem: Bytes, done: nat)
    requires c < |cs| && at + n <= cs[c].off && done + n <= |mem| && lo + done == Offset(cs, c) + at
    requires IsSlice(Flatten(cs), lo, lo + done, mem[..done]) && lo + |mem| <= |Flatten(cs)|
    ensures var r := Memcmp(cs[c].Data()[at..at + n], mem[done..done + n]);
            && (r == 0 ==> IsSlice(Flatten(cs), lo, lo + done + n, mem[..done + n]))
            && (r != 0 ==> r == OrderAt(Flatten(cs), lo, mem))
    ensures Offset(cs, c + 1) == Offset(cs, c) + cs[c].off
    ensures c + 1 == |cs| ==> Offset(cs, c + 1) == |Flatten(cs)|
  {
    hide Flatten, Offset, RawChain.Data, Memcmp;
    var s, d := Flatten(cs), cs[c].Data()[at..at + n];
    ChainPiece(cs, c, lo, at, n, mem[..done]);
    MemcmpEqual(d, mem[done..done + n]);
    PieceDecides(s, mem, lo, done, d);
  }

  lemma PieceDecides(s: Bytes, mem: Bytes, lo: nat, done: nat, d: Bytes)
    requires lo + |mem| <= |s| && done + |d| <= |mem| && s[lo..lo + done + |d|] == mem[..done] + d
    ensures d != mem[done..done + |d|] ==> OrderAt(s, lo, mem) == Memcmp(d, mem[done..done + |d|])
    ensures d == mem[done..done + |d|] ==> mem[..done] + d == mem[..done + |d|]
  {
    hide Memcmp;
    var x, n := s[lo..lo + |mem|], |d|;
    WindowParts(s, mem, lo, done, d);
    MemcmpSkip(x, mem, done);
    if d != mem[done..done + n] {
      MemcmpFront(x[done..], mem[done..], n);
    }
  }

  lemma WindowParts(s: Bytes, mem: Bytes, lo: nat, done: nat, d: Bytes)
    requires lo + |mem| <= |s| && done + |d| <= |mem| && s[lo..lo + done + |d|] == mem[..done] + d
    ensures s[lo..lo + |mem|][..done] == mem[..done] && s[lo..lo + |mem|][done..][..|d|] == d
    ensures mem[done..][..|d|] == mem[done..done + |d|]
  {
    var x, y := s[lo..lo + |mem|], s[lo..lo + done + |d|];
    assert x[..done + |d|] == y;
    assert x[..done] == y[..done] && x[done..][..|d|] == y[done..];
  }

  /** No occurrence of `what` begins between two positions. */
  ghost predicate NoneBetween(s: Bytes, what: Bytes, lo: int, hi: int)
  {
    forall i :: lo <= i < hi ==> !Occurs(s, what, i)
  }

  /** evbuffer_search_range. */
  method SearchRange(buf: Buffer, what: Bytes, start: Option<Ptr>, end: Option<Ptr>) returns (q: Ptr)
    requires buf.Valid()
    requires start.Some? ==> PtrOk(buf.chains, start.value)
    requires end.Some? ==> PtrOk(buf.chains, end.value)
    ensures |what| == 0 || |what| > SSIZE_MAX ==> q == if start.Some? then start.value else StartPtr(buf)
    ensures 0 < |what| <= SSIZE_MAX ==>
              var s := buf.Contents();
              var from := if start.Some? then start.value.pos else 0;
              var limit := if end.Some? then end.value.pos else |s|;
              if q == NOT_FOUND then forall i :: from <= i && Occurs(s, what, i) ==> i + |what| > limit
              else && PtrOk(buf.chains, q) && from <= q.pos && Occurs(s, what, q.pos)
                   && q.pos + |what| <= limit && NoneBetween(s, what, from, q.pos)
  {
    q := if start.Some? then start.value else StartPtr(buf);
    if |what| == 0 || |what| > SSIZE_MAX {
      return;
    }
    OffsetEnds(buf.chains);
    ghost var from := q.pos;
    var lastChain := if end.Some? then end.value.chain else None;
    var found;
    found, q := SearchFrom(buf.chains, buf.totalLen, what, q, lastChain);
    if end.Some? { PtrInRange(buf.chains, end.value); }
    if found && end.Some? && q.pos + |what| > end.value.pos {
      FirstBeyond(buf.Contents(), what, from, q.pos, end.value.pos);
      q := NOT_FOUND;
    } else if !found {
      q := NOT_FOUND;
    }
  }

  lemma FirstBeyond(s: Bytes, what: Bytes, from: int, pos: int, limit: int)
    requires NoneBetween(s, what, from, pos) && pos + |what| > limit
    ensures forall i :: from <= i && Occurs(s, what, i) ==> i + |what| > limit
  {
  }

  /** The search loop: the first occurrence from `p` on, or none before the end
      of the chain it may stop at. */
  method SearchFrom(cs: seq<Chain>, totalLen: nat, what: Bytes, p: Ptr, lastChain: Option<nat>)
    returns (found: bool, q: Ptr)
    requires what != [] && PtrOk(cs, p) && totalLen == |Flatten(cs)|
    requires lastChain.Some? ==> lastChain.value < |cs|
    ensures found ==> PtrOk(cs, q) && p.pos <= q.pos && Occurs(Flatten(cs), what, q.pos)
                      && NoneBetween(Flatten(cs), what, p.pos, q.pos)
    ensures !found ==> NoneBetween(Flatten(cs), what, p.pos,
              if lastChain.Some? then Offset(cs, lastChain.value + 1) else |Flatten(cs)|)
  {
    hide Flatten, RawChain.Data, OrderAt, Memcmp;
    ghost var s := Flatten(cs);
    q := p;
    while q.chain.Some?
      invariant PtrOk(cs, q) && p.pos <= q.pos && NoneBetween(s, what, p.pos, q.pos)
      decreases if q.chain.Some? then |cs| - q.chain.value else 0, |s| - q.pos
    {
      var c := q.chain.value;
      PtrInRange(cs, q);
      var k := MemChr(cs[c].Data()[q.inChain..], what[0]);
      if k.Some? {
        ChainWithout(cs, what, q, k.value);
        q := q.(pos := q.pos + k.value, inChain := q.inChain + k.value);
        var order := PtrMemcmp(cs, totalLen, q, what);
        if order == 0 {
          return true, q;
        }
        NextPtr(cs, q);
        q := q.(pos := q.pos + 1, inChain := q.inChain + 1);
        if q.inChain == cs[c].off {
          q := q.(chain := NextOrEnd(cs, c), inChain := 0);
        }
      } else {
        ChainWithout(cs, what, q, cs[c].off - q.inChain);
        NextPtr(cs, q);
        if q.chain == lastChain {
          return false, q;
        }
        q := Ptr(q.pos + (cs[c].off - q.inChain), NextOrEnd(cs, c), 0);
      }
    }
    if lastChain.Some? { OffsetMonotone(cs, lastChain.value + 1, |cs|); }
    return false, q;
  }

  /** A stretch of a chain without the first byte of a string holds no
      occurrence of it. */
  lemma ChainWithout(cs: seq<Chain>, what: Bytes, q: Ptr, n: nat)
    requires what != [] && PtrOk(cs, q) && q.chain.Some? && q.inChain + n <= cs[q.chain.value].off
    requires what[0] !in cs[q.chain.value].Data()[q.inChain..][..n]
    ensures NoneBetween(Flatten(cs), what, q.pos, q.pos + n)
  {
    var c, s := q.chain.value, Flatten(cs);
    OffsetNext(cs, c);
    AbsentByte(s, what, Offset(cs, c), cs[c].off, q.inChain, n);
  }

  lemma AbsentByte(s: Bytes, what: Bytes, off: nat, len: nat, at: nat, n: nat)
    requires what != [] && off + len <= |s| && at + n <= len
    requires what[0] !in s[off..off + len][at..][..n]
    ensures NoneBetween(s, what, off + at, off + at + n)
  {
    forall i | off + at <= i < off + at + n ensures !Occurs(s, what, i) {
      assert s[off..off + len][at..][..n][i - off - at] == s[i];
      assert i + |what| <= |s| ==> s[i..i + |what|][0] == s[i];
    }
  }

  function NextOrEnd(cs: seq<Chain>, c: nat): Option<nat>
  {
    if c + 1 < |cs| then Some(c + 1) else None
  }

  /** Stepping over one byte, and over the rest of a chain. */
  lemma NextPtr(cs: seq<Chain>, q: Ptr)
    requires PtrOk(cs, q) && q.chain.Some?
    ensures var c := q.chain.value;
            && (q.inChain < cs[c].off ==> PtrOk(cs, Ptr(q.pos + 1, Some(c), q.inChain + 1)))
            && PtrOk(cs, Ptr(q.pos + (cs[c].off - q.inChain), NextOrEnd(cs, c), 0))
            && q.pos + (cs[c].off - q.inChain) == Offset(cs, c + 1)
  {
    OffsetNext(cs, q.chain.value);
    OffsetEnds(cs);
  }
}
