/** The integers and tags of the tagged encoding in libevent/event_tagging.c. An
    integer is a count of nibbles and then its nibbles, the low-order one first; a tag
    is groups of seven bits, again the low-order one first. */
module TagInts {
  import opened Options
  import opened ByteStrings
  import opened WordSizes

  // ----- integers -----

  /** The number without its `i` low-order nibbles. */
  function Drop(n: nat, i: nat): nat {
    if i == 0 then n else Drop(n / 16, i - 1)
  }

  function NibbleCount(n: nat): nat {
    if n == 0 then 0 else 1 + NibbleCount(n / 16)
  }

  /** 16 to the power of `i`. */
  function Pow16(i: nat): nat {
    if i == 0 then 1 else 16 * Pow16(i - 1)
  }

  lemma {:induction false} DropNext(n: nat, i: nat)
    ensures Drop(n, i + 1) == Drop(n, i) / 16
  {
    if i > 0 {
      DropNext(n / 16, i - 1);
    }
  }

  lemma {:induction false} DropAll(n: nat)
    ensures Drop(n, NibbleCount(n)) == 0
  {
    if n > 0 {
      DropAll(n / 16);
    }
  }

  lemma {:induction false} DropSome(n: nat, i: nat)
    requires i < NibbleCount(n)
    ensures Drop(n, i) > 0
  {
    if i > 0 {
      DropSome(n / 16, i - 1);
    }
  }

  lemma {:induction false} CountBound(n: nat, w: nat)
    requires n < Pow16(w)
    ensures NibbleCount(n) <= w
  {
    if n > 0 {
      CountBound(n / 16, w - 1);
    }
  }

  /** The nibble at a place of the encoding: first the count, less one, then the
      number from its low-order nibble on, then padding. */
  function Place(n: nat, p: nat): (r: nat)
    requires NibbleCount(n) <= 16
    ensures r < 16
  {
    var k := NibbleCount(n);
    if p == 0 then (if k >= 1 then k - 1 else 0)
    else if p <= k then Drop(n, p - 1) % 16
    else 0
  }

  /** The encoding of a number: two places to the byte, the high half first. */
  function EncodeInt(n: nat): (r: Bytes)
    requires NibbleCount(n) <= 16
    ensures |r| == NibbleCount(n) / 2 + 1
  {
    seq(NibbleCount(n) / 2 + 1, i requires 0 <= i => 16 * Place(n, 2 * i) + Place(n, 2 * i + 1))
  }

  /** The nibble at a place of some bytes. */
  function NibbleOf(b: Bytes, p: nat): (r: nat)
    requires p / 2 < |b|
    ensures r < 16
  {
    if p % 2 == 1 then b[p / 2] % 16 else b[p / 2] / 16
  }

  /** The number in places `p` to `n`, the low-order nibble first. */
  function Gather(b: Bytes, p: nat, n: nat): nat
    requires n / 2 < |b|
    decreases n + 1 - p
  {
    if p > n then 0 else NibbleOf(b, p) + 16 * Gather(b, p + 1, n)
  }

  /** A decoded number and how many bytes it took. */
  datatype Decoded = Decoded(value: nat, len: nat)

  /** decode_int_internal with at most `max` nibbles, on the bytes from its offset. */
  function DecodeInt(b: Bytes, max: nat): (r: Option<Decoded>)
    ensures r.Some? ==> 0 < r.value.len <= |b| && r.value.len <= max / 2 + 1
  {
    if b == [] then None
    else
      var nibbles := b[0] / 16 + 1;
      if nibbles > max || nibbles / 2 + 1 > |b| then None
      else Some(Decoded(Gather(b, 1, nibbles), nibbles / 2 + 1))
  }

  lemma {:induction false} GatherFits(b: Bytes, p: nat, n: nat)
    requires n / 2 < |b| && p <= n + 1
    ensures Gather(b, p, n) < Pow16(n + 1 - p)
    decreases n + 1 - p
  {
    if p <= n {
      GatherFits(b, p + 1, n);
    }
  }

  lemma {:induction false} Pow16Grows(i: nat, j: nat)
    requires i <= j
    ensures 0 < Pow16(i) <= Pow16(j)
    decreases i, j
  {
    if i > 0 {
      Pow16Grows(i - 1, j - 1);
    } else if j > 0 {
      Pow16Grows(i, j - 1);
    }
  }

  /** What goes over the wire: the count of nibbles less one, and then the nibbles, from the
      low-order one on. */
  lemma IntFormat()
    ensures NibbleCount(0x1234) == 4 && NibbleCount(0) == 0 && NibbleCount(0xffff_ffff) == 8 && NibbleCount(7) == 1
    ensures EncodeInt(0) == [0] && EncodeInt(7) == [0x07] && EncodeInt(0x1234) == [0x34, 0x32, 0x10]
    ensures EncodeInt(0xffff_ffff) == [0x7f, 0xff, 0xff, 0xff, 0xf0]
  {
    assert Drop(0x1234, 0) == 0x1234 && Drop(0x1234, 1) == 0x123 && Drop(0x1234, 2) == 0x12 && Drop(0x1234, 3) == 1;
    AllOnes();
  }

  lemma AllOnes()
    ensures NibbleCount(0xffff_ffff) == 8
    ensures forall i :: 0 <= i < 8 ==> Drop(0xffff_ffff, i) % 16 == 15
  {
    var n := 0xffff_ffff;
    assert Drop(n, 0) == n && Drop(n, 1) == 0xfff_ffff && Drop(n, 2) == 0xff_ffff && Drop(n, 3) == 0xf_ffff;
    DropNext(n, 3);
    DropNext(n, 4);
    DropNext(n, 5);
    DropNext(n, 6);
    assert NibbleCount(0xffff) == 4;
  }

  /** A number of at most `max` nibbles is one of `4 * max` bits. */
  lemma DecodedFits(b: Bytes, max: nat)
    ensures DecodeInt(b, max).Some? ==> DecodeInt(b, max).value.value < Pow16(max)
  {
    if DecodeInt(b, max).Some? {
      var nibbles := b[0] / 16 + 1;
      GatherFits(b, 1, nibbles);
      Pow16Grows(nibbles, max);
    }
  }

  lemma EncodedPlace(n: nat, rest: Bytes, p: nat)
    requires NibbleCount(n) <= 16 && p <= NibbleCount(n) + 1 && p / 2 < NibbleCount(n) / 2 + 1
    ensures NibbleOf(EncodeInt(n) + rest, p) == Place(n, p)
  {
    var i := p / 2;
    EncodedByte(n, rest, i);
    Halves(Place(n, 2 * i), Place(n, 2 * i + 1));
    hide EncodeInt, Place;
    assert p == 2 * i || p == 2 * i + 1;
  }

  lemma EncodedByte(n: nat, rest: Bytes, i: nat)
    requires NibbleCount(n) <= 16 && i < NibbleCount(n) / 2 + 1
    ensures (EncodeInt(n) + rest)[i] == 16 * Place(n, 2 * i) + Place(n, 2 * i + 1)
  {
  }

  lemma Halves(a: nat, b: nat)
    requires a < 16 && b < 16
    ensures (16 * a + b) / 16 == a && (16 * a + b) % 16 == b
  {
  }

  lemma {:induction false} GatherEncoded(n: nat, rest: Bytes, p: nat, k: nat)
    requires NibbleCount(n) <= 16 && k == (if n == 0 then 1 else NibbleCount(n)) && 1 <= p <= k + 1
    ensures Gather(EncodeInt(n) + rest, p, k) == Drop(n, p - 1)
    decreases k + 1 - p
  {
    if p <= k {
      GatherEncoded(n, rest, p + 1, k);
      EncodedPlace(n, rest, p);
      DropNext(n, p - 1);
    } else {
      DropAll(n);
      DropNext(n, 0);
    }
  }

  /** Decoding gives back the number and the length, whatever follows. */
  lemma IntRoundTrip(n: nat, max: nat, rest: Bytes)
    requires NibbleCount(n) <= max <= 16 && max >= 1
    ensures DecodeInt(EncodeInt(n) + rest, max) == Some(Decoded(n, |EncodeInt(n)|))
  {
    var k := if n == 0 then 1 else NibbleCount(n);
    EncodedPlace(n, rest, 0);
    GatherEncoded(n, rest, 1, k);
  }

  /** encode_int_internal and encode_int64_internal: the number is written nibble by
      nibble into a buffer, from `at` on. */
  method EncodeIntInto(data: array<Byte>, at: nat, number: nat, width: nat) returns (len: nat)
    requires number < Pow16(2 * width) && width <= 8 && at + width + 1 <= data.Length
    modifies data
    ensures NibbleCount(number) <= 16 && len == |EncodeInt(number)| <= width + 1
    ensures data[at..at + len] == EncodeInt(number)
    ensures forall i :: 0 <= i < data.Length && !(at <= i < at + width + 1) ==> data[i] == old(data[i])
  {
    CountBound(number, 2 * width);
    hide Written, EncodeInt, Drop, NibbleCount, Pow16;
    Clear(data, at, width + 1);
    var off := WriteNibbles(data, at, number, width);
    var nibbles := if off > 2 then off - 2 else 0;
    WrittenAll(number);
    assert nibbles == Place(number, 0);
    data[at] := data[at] % 16 + nibbles * 16;
    len := (off + 1) / 2;
    forall j | at <= j < at + len ensures data[j] == EncodeInt(number)[j - at] {
    }
  }

  /** The loop of ENCODE_INT_INTERNAL, over a cleared buffer. */
  method WriteNibbles(data: array<Byte>, at: nat, number: nat, width: nat) returns (off: nat)
    requires NibbleCount(number) <= 2 * width <= 16 && at + width + 1 <= data.Length
    requires forall j :: at <= j < at + width + 1 ==> data[j] == 0
    modifies data
    ensures off == NibbleCount(number) + 1
    ensures forall j :: at <= j < at + width + 1 ==> data[j] == Written(number, j - at, off)
    ensures forall j :: 0 <= j < data.Length && !(at <= j < at + width + 1) ==> data[j] == old(data[j])
  {
    hide Written, Place, EncodeInt, Drop, NibbleCount, Pow16;
    DropNone(number);
    var left: nat := number;
    off := 1;
    while left > 0
      invariant 1 <= off <= NibbleCount(number) + 1 && left == Drop(number, off - 1)
      invariant forall j :: at <= j < at + width + 1 ==> data[j] == Written(number, j - at, off)
      invariant forall j :: 0 <= j < data.Length && !(at <= j < at + width + 1) ==> data[j] == old(data[j])
      decreases left
    {
      DropAll(number);
      DropNext(number, off - 1);
      WrittenNext(number, off);
      var i := at + off / 2;
      if off % 2 == 1 {
        data[i] := data[i] / 16 * 16 + left % 16;
      } else {
        data[i] := data[i] % 16 + left % 16 * 16;
      }
      left := left / 16;
      off := off + 1;
    }
    if off <= NibbleCount(number) {
      DropSome(number, off - 1);
    }
  }

  lemma DropNone(n: nat)
    ensures Drop(n, 0) == n && (n > 0 ==> NibbleCount(n) > 0)
  {
  }

  /** memset to zero. */
  method Clear(data: array<Byte>, at: nat, len: nat)
    requires at + len <= data.Length
    modifies data
    ensures forall j :: 0 <= j < data.Length ==> data[j] == if at <= j < at + len then 0 else old(data[j])
  {
    for i := at to at + len
      invariant forall j :: 0 <= j < data.Length ==> data[j] == if at <= j < i then 0 else old(data[j])
    {
      data[i] := 0;
    }
  }

  /** Writing one more place changes one byte. */
  lemma WrittenNext(n: nat, off: nat)
    requires NibbleCount(n) <= 16 && 1 <= off <= NibbleCount(n)
    ensures forall i: nat :: Written(n, i, off + 1) ==
              if i != off / 2 then Written(n, i, off)
              else if off % 2 == 1 then Written(n, i, off) / 16 * 16 + Drop(n, off - 1) % 16
              else Written(n, i, off) % 16 + Drop(n, off - 1) % 16 * 16
  {
  }

  lemma WrittenAll(n: nat)
    requires NibbleCount(n) <= 16
    ensures forall i: nat :: i < NibbleCount(n) / 2 + 1 ==>
              EncodeInt(n)[i] == if i == 0 then Written(n, 0, NibbleCount(n) + 1) % 16 + Place(n, 0) * 16
                                 else Written(n, i, NibbleCount(n) + 1)
  {
  }

  /** A byte of the buffer when the places from 1 to below `off` are written. */
  ghost function Written(n: nat, i: nat, off: nat): (r: nat)
    requires NibbleCount(n) <= 16
    ensures r < 256
    ensures off == 1 ==> r == 0
  {
    16 * (if 0 < 2 * i < off then Place(n, 2 * i) else 0) + if 2 * i + 1 < off then Place(n, 2 * i + 1) else 0
  }

  /** decode_int_internal: the nibbles are read from the last to the first. */
  method DecodeIntFrom(b: Bytes, max: nat) returns (r: Option<Decoded>)
    requires max <= 16
    ensures r == DecodeInt(b, max)
  {
    if |b| <= 0 {
      return None;
    }
    var nibbles := b[0] / 16 + 1;
    if nibbles > max || nibbles / 2 + 1 > |b| {
      return None;
    }
    var len := nibbles / 2 + 1;
    var number: nat := 0;
    ghost var all := nibbles;
    while nibbles > 0
      invariant 0 <= nibbles <= all && number == Gather(b, nibbles + 1, all)
    {
      number := number * 16 + NibbleOf(b, nibbles);
      nibbles := nibbles - 1;
    }
    return Some(Decoded(number, len));
  }

  // ----- tags -----

  function EncodeTag(tag: nat): (r: Bytes)
    ensures r != []
  {
    if tag < 128 then [tag] else [128 + tag % 128] + EncodeTag(tag / 128)
  }

  /** decode_tag_internal from byte `i` on: seven bits from each byte, 32 in all. */
  function DecodeTagAt(b: Bytes, i: nat): (r: Option<Decoded>)
    requires i <= |b|
    ensures r.Some? ==> i < r.value.len <= |b| && r.value.len <= 5
    decreases |b| - i
  {
    if i == |b| || i > 4 || (i == 4 && b[i] % 128 > 15) then None
    else if b[i] < 128 then Some(Decoded(b[i], i + 1))
    else
      var more := DecodeTagAt(b, i + 1);
      if more.None? then None else Some(Decoded(b[i] % 128 + 128 * more.value.value, more.value.len))
  }

  /** What goes over the wire for a tag: seven bits to the byte, from the low-order ones on;
      the high bit says that there are more. */
  lemma {:induction false} TagFormat(tag: nat, i: nat)
    requires i < |EncodeTag(tag)|
    ensures var b := EncodeTag(tag);
            && b[i] % 128 == TagGroup(tag, i) && (b[i] >= 128 <==> i + 1 < |b|)
            && (i + 1 == |b| ==> TagRest(tag, i + 1) == 0) && (0 < i ==> TagRest(tag, i) > 0)
    decreases i
  {
    if i > 0 {
      TagFormat(tag / 128, i - 1);
    }
  }

  /** A tag without its `i` low-order groups of seven bits. */
  function TagRest(tag: nat, i: nat): nat {
    if i == 0 then tag else TagRest(tag / 128, i - 1)
  }

  function TagGroup(tag: nat, i: nat): nat {
    TagRest(tag, i) % 128
  }

  lemma TagExamples()
    ensures EncodeTag(5) == [5] && EncodeTag(300) == [0xac, 0x02]
  {
    assert EncodeTag(2) == [2];
  }

  function Pow128(i: nat): nat {
    if i == 0 then 1 else 128 * Pow128(i - 1)
  }

  lemma {:induction false} TagAt(tag: nat, front: Bytes, rest: Bytes)
    requires |front| <= 4 && tag * Pow128(|front|) < TWO32
    ensures DecodeTagAt(front + EncodeTag(tag) + rest, |front|) == Some(Decoded(tag, |front| + |EncodeTag(tag)|))
    decreases tag
  {
    var b := front + EncodeTag(tag) + rest;
    if tag < 128 {
      assert b[|front|] == tag;
      assert |front| == 4 ==> tag <= 15 by { assert Pow128(4) == 0x1000_0000; }
    } else {
      var next := front + [128 + tag % 128];
      assert b == next + EncodeTag(tag / 128) + rest;
      assert b[|front|] == 128 + tag % 128;
      assert |front| < 4 by { assert Pow128(4) == 0x1000_0000; }
      assert tag / 128 * Pow128(|next|) <= tag * Pow128(|front|) by { Scaled(tag, Pow128(|front|)); }
      TagAt(tag / 128, next, rest);
    }
  }

  lemma Scaled(tag: nat, p: nat)
    ensures tag / 128 * (128 * p) <= tag * p
  {
    assert tag / 128 * (128 * p) == (tag / 128 * 128) * p;
    assert tag == tag / 128 * 128 + tag % 128;
    assert tag * p == (tag / 128 * 128) * p + (tag % 128) * p;
  }

  /** Decoding gives back any 32-bit tag and the length, whatever follows. */
  lemma TagRoundTrip(tag: nat, rest: Bytes)
    requires tag < TWO32
    ensures DecodeTagAt(EncodeTag(tag) + rest, 0) == Some(Decoded(tag, |EncodeTag(tag)|))
  {
    TagAt(tag, [], rest);
    assert [] + EncodeTag(tag) + rest == EncodeTag(tag) + rest;
  }

  /** evtag_encode_tag. */
  method EncodeTagBytes(tag: nat) returns (data: Bytes)
    ensures data == EncodeTag(tag)
  {
    data := [];
    var left := tag;
    while true
      invariant data + EncodeTag(left) == EncodeTag(tag)
      decreases left
    {
      var lower := left % 128;
      var more := left / 128;
      if more == 0 {
        return data + [lower];
      }
      data := data + [lower + 128];
      left := more;
    }
  }

  /** What was read so far in front of what is still to be read. */
  ghost function Joined(number: nat, i: nat, more: Option<Decoded>): Option<Decoded> {
    if more.None? then None else Some(Decoded(number + Pow128(i) * more.value.value, more.value.len))
  }

  /** decode_tag_internal. */
  method DecodeTagBytes(b: Bytes) returns (r: Option<Decoded>)
    ensures r == DecodeTagAt(b, 0)
  {
    hide Joined, DecodeTagAt, Pow128;
    var number, count, shift := 0, 0, 0;
    JoinStart(DecodeTagAt(b, 0));
    while count < |b|
      invariant 0 <= count <= |b| && count <= 5 && shift == 7 * count && number >= 0
      invariant DecodeTagAt(b, 0) == Joined(number, count, DecodeTagAt(b, count))
    {
      var lower := b[count];
      TagStops(b, number, count);
      if shift >= 28 {
        if shift > 28 {
          return None;
        }
        if lower % 128 > 15 {
          return None;
        }
      }
      JoinNext(b, number, count);
      number := number + (lower % 128) * Pow128(count);
      shift := shift + 7;
      count := count + 1;
      if lower < 128 {
        return Some(Decoded(number, count));
      }
    }
    TagStops(b, number, count);
    return None;
  }

  lemma JoinStart(all: Option<Decoded>)
    ensures Joined(0, 0, all) == all
  {
  }

  lemma TagStops(b: Bytes, number: nat, i: nat)
    requires i <= |b|
    ensures i == |b| || i > 4 || (i == 4 && b[i] % 128 > 15) ==> Joined(number, i, DecodeTagAt(b, i)) == None
  {
  }

  lemma JoinNext(b: Bytes, number: nat, i: nat)
    requires i < |b| && i <= 4 && (i == 4 ==> b[i] % 128 <= 15)
    ensures b[i] >= 128 ==> Joined(number, i, DecodeTagAt(b, i))
                            == Joined(number + (b[i] % 128) * Pow128(i), i + 1, DecodeTagAt(b, i + 1))
    ensures b[i] < 128 ==> Joined(number, i, DecodeTagAt(b, i)) == Some(Decoded(number + (b[i] % 128) * Pow128(i), i + 1))
  {
    var more := DecodeTagAt(b, i + 1);
    var d, p := b[i] % 128, Pow128(i);
    if b[i] >= 128 && more.Some? {
      Polynomial(number, p, d, more.value.value);
    }
    Polynomial(number, p, d, 0);
  }

  lemma Polynomial(number: nat, p: nat, d: nat, v: nat)
    ensures number + p * (d + 128 * v) == (number + d * p) + (128 * p) * v
  {
    assert p * (d + 128 * v) == p * d + p * (128 * v);
    assert p * (128 * v) == (128 * p) * v;
  }
}
