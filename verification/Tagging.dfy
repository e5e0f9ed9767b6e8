/** Tagged items on a byte stream (libevent/event_tagging.c): a tag, a length and that
    many bytes. An evbuffer is taken as the byte string it stands for. */
module Tagging {
  import opened Options
  import opened ByteStrings
  import opened WordSizes
  import opened TagInts

  /** What is left of a stream, and what was read from it. */
  datatype Read<T> = Read(rest: Bytes, value: Option<T>)

  /** A tag and the length behind it, as it is returned: an int. */
  datatype Header = Header(tag: nat, len: int)

  /** What the front of a stream announces: how long the two numbers are, which tag and
      how many bytes of payload. */
  datatype Front = Front(header: nat, tag: nat, payload: nat)

  datatype Kind = Data | Int32 | Int64 | Timeval

  datatype Item = DataItem(tag: nat, data: Bytes) | Int32Item(tag: nat, n: nat) | Int64Item(tag: nat, n: nat)
                | TimevalItem(tag: nat, sec: nat, usec: nat) {
    /** Tags, lengths, 32-bit numbers and the fields of a timeval have 32 bits. */
    predicate Fits() {
      && tag < TWO32
      && match this
         case DataItem(_, data) => |data| < TWO32
         case Int32Item(_, n) => n < TWO32
         case Int64Item(_, n) => n < TWO64
         case TimevalItem(_, sec, usec) => sec < TWO32 && usec < TWO32
    }

    /** The length of the payload fits in an int. */
    predicate Short() {
      DataItem? ==> |data| < TWO31
    }

    function Kind(): Kind {
      match this
      case DataItem(_, _) => Data
      case Int32Item(_, _) => Int32
      case Int64Item(_, _) => Int64
      case TimevalItem(_, _, _) => Timeval
    }
  }

  // ----- what is written -----

  lemma Counts(n: nat)
    ensures n < TWO32 ==> NibbleCount(n) <= 8
    ensures n < TWO64 ==> NibbleCount(n) <= 16
  {
    assert Pow16(8) == TWO32;
    assert Pow16(16) == TWO64;
    if n < TWO32 {
      CountBound(n, 8);
    }
    if n < TWO64 {
      CountBound(n, 16);
    }
  }

  /** A number of 64 bits. */
  function Number(n: nat): (r: Bytes)
    requires n < TWO64
    ensures 1 <= |r| <= 9 && (n < TWO32 ==> |r| <= 5)
  {
    Counts(n);
    EncodeInt(n)
  }

  function Payload(item: Item): (p: Bytes)
    requires item.Fits()
    ensures |p| < TWO32 && (item.Short() <==> |p| < TWO31)
  {
    match item
    case DataItem(_, data) => data
    case Int32Item(_, n) => Number(n)
    case Int64Item(_, n) => Number(n)
    case TimevalItem(_, sec, usec) => Number(sec) + Number(usec)
  }

  function Frame(tag: nat, payload: Bytes): Bytes
    requires |payload| < TWO32
  {
    EncodeTag(tag) + Number(|payload|) + payload
  }

  /** evtag_marshal, evtag_marshal_int, evtag_marshal_int64, evtag_marshal_timeval. */
  function Marshal(item: Item): Bytes
    requires item.Fits()
  {
    Frame(item.tag, Payload(item))
  }

  function MarshalAll(items: seq<Item>): Bytes
    requires forall i :: 0 <= i < |items| ==> items[i].Fits()
  {
    if items == [] then [] else Marshal(items[0]) + MarshalAll(items[1..])
  }

  /** What goes over the wire: a tag, a length, and that many bytes. */
  lemma FrameExamples()
    ensures Marshal(DataItem(300, [8, 9])) == [0xac, 0x02, 0x02, 8, 9]
    ensures Marshal(Int32Item(5, 0x1234)) == Marshal(Int64Item(5, 0x1234)) == [5, 0x03, 0x34, 0x32, 0x10]
    ensures Marshal(TimevalItem(5, 7, 0)) == [5, 0x02, 0x07, 0]
  {
    IntFormat();
    TagExamples();
    assert EncodeInt(2) == [0x02] && EncodeInt(3) == [0x03];
    hide EncodeInt, EncodeTag;
  }

  // ----- what is read -----

  /** Eight nibbles make 32 bits. */
  lemma NumberFits(b: Bytes)
    ensures DecodeInt(b, 8).Some? ==> DecodeInt(b, 8).value.value < TWO32
  {
    assert Pow16(8) == TWO32;
    DecodedFits(b, 8);
  }

  /** A 32-bit number as an int. */
  function AsInt(n: nat): (r: int)
    requires n < TWO32
    ensures 0 <= r + TWO31 && r < TWO31 && (r - n) % TWO32 == 0
  {
    if n < TWO31 then n else n - TWO32
  }

  /** evbuffer_drain with an int: as a size, a negative one is more than there is. */
  function Drained(b: Bytes, len: int): (r: Bytes)
    ensures len > |b| ==> r == []
  {
    if 0 <= len <= |b| then b[len..] else []
  }

  function ReadFront(b: Bytes): (f: Option<Front>)
    ensures f.Some? ==> 0 < f.value.header <= |b| && f.value.header <= 10 && f.value.payload < TWO32
  {
    var t := DecodeTagAt(b, 0);
    if t.None? then None
    else
      var l := DecodeInt(b[t.value.len..], 8);
      if l.None? then None
      else
        NumberFits(b[t.value.len..]);
        Some(Front(t.value.len + l.value.len, t.value.value, l.value.value))
  }

  /** A tag and a length are taken off, one by one, and there must be as many bytes as
      the length says. On failure what was read is gone. */
  function TakeFront(b: Bytes): (r: Read<Front>)
    ensures r.value.Some? ==> r.value.value.payload <= |r.rest| < |b| && r.value.value.payload < TWO32
  {
    var t, f := DecodeTagAt(b, 0), ReadFront(b);
    if t.None? then Read(b, None)
    else if f.None? then Read(b[t.value.len..], None)
    else
      var rest := b[f.value.header..];
      Read(rest, if |rest| < f.value.payload then None else f)
  }

  /** evtag_unmarshal_header. The length is returned as an int, and -1 is failure. */
  function UnmarshalHeader(b: Bytes): (r: Read<Header>)
    ensures r.value.Some? ==> r.value.value.len != -1 && r.value.value.len <= |r.rest| < |b|
  {
    var r := TakeFront(b);
    if r.value.None? then Read(r.rest, None)
    else
      var len := AsInt(r.value.value.payload);
      Read(r.rest, if len == -1 then None else Some(Header(r.value.value.tag, len)))
  }

  /** evtag_consume. */
  function Consume(b: Bytes): Read<()> {
    var h := UnmarshalHeader(b);
    if h.value.None? then Read(h.rest, None) else Read(Drained(h.rest, h.value.value.len), Some(()))
  }

  /** evtag_peek_length: nothing is taken off; the sum has 32 bits. */
  function PeekLength(b: Bytes): Option<nat> {
    var f := ReadFront(b);
    if f.None? then None else Some((f.value.payload + f.value.header) % TWO32)
  }

  /** evtag_unmarshal. A negative length is too much for evbuffer_add, and then the
      payload stays. */
  function UnmarshalData(b: Bytes): Read<Item> {
    var h := UnmarshalHeader(b);
    if h.value.None? || h.value.value.len < 0 then Read(h.rest, None)
    else
      var len := h.value.value.len;
      Read(h.rest[len..], Some(DataItem(h.value.value.tag, h.rest[..len])))
  }

  /** evtag_unmarshal_int and evtag_unmarshal_int64, with at most `max` nibbles. The tag
      is checked before the length is read, and the length is not made an int. */
  function UnmarshalInt(b: Bytes, need: nat, max: nat): Read<nat> {
    var t := DecodeTagAt(b, 0);
    if t.None? then Read(b, None)
    else if t.value.value != need then Read(b[t.value.len..], None)
    else
      var h := TakeFront(b);
      if h.value.None? then Read(h.rest, None)
      else
        var len, v := h.value.value.payload, DecodeInt(h.rest, max);
        Read(h.rest[len..], if v.None? || v.value.len > len then None else Some(v.value.value))
  }

  /** evtag_unmarshal_timeval. */
  function UnmarshalTimeval(b: Bytes, need: nat): Read<Item> {
    var h := UnmarshalHeader(b);
    if h.value.None? then Read(h.rest, None)
    else
      var len, sec := h.value.value.len, DecodeInt(h.rest, 8);
      if h.value.value.tag != need || sec.None? then Read(Drained(h.rest, len), None)
      else
        var usec := DecodeInt(h.rest[sec.value.len..], 8);
        Read(Drained(h.rest, len),
             if usec.None? || sec.value.len + usec.value.len > len then None
             else Some(TimevalItem(need, sec.value.value, usec.value.value)))
  }

  function Unmarshal(b: Bytes, kind: Kind, need: nat): Read<Item> {
    match kind
    case Data => UnmarshalData(b)
    case Int32 =>
      var r := UnmarshalInt(b, need, 8);
      Read(r.rest, if r.value.None? then None else Some(Int32Item(need, r.value.value)))
    case Int64 =>
      var r := UnmarshalInt(b, need, 16);
      Read(r.rest, if r.value.None? then None else Some(Int64Item(need, r.value.value)))
    case Timeval => UnmarshalTimeval(b, need)
  }

  // ----- round trips -----

  lemma NumberRead(n: nat, max: nat, rest: Bytes)
    requires n < TWO64 && max in {8, 16} && (max == 8 ==> n < TWO32)
    ensures DecodeInt(Number(n) + rest, max) == Some(Decoded(n, |Number(n)|))
  {
    Counts(n);
    IntRoundTrip(n, max, rest);
  }

  /** The front of a frame is read back, and what it announces is there. */
  lemma FrontRead(tag: nat, payload: Bytes, rest: Bytes)
    requires tag < TWO32 && |payload| < TWO32
    ensures var b, front := Frame(tag, payload) + rest, EncodeTag(tag) + Number(|payload|);
            && DecodeTagAt(b, 0) == Some(Decoded(tag, |EncodeTag(tag)|))
            && ReadFront(b) == Some(Front(|front|, tag, |payload|))
            && TakeFront(b) == Read(payload + rest, ReadFront(b))
  {
    hide EncodeTag, DecodeTagAt, Number, DecodeInt;
    var n := Number(|payload|);
    var b := Frame(tag, payload) + rest;
    FrameParts(EncodeTag(tag), n, payload, rest);
    TagRoundTrip(tag, n + (payload + rest));
    NumberRead(|payload|, 8, payload + rest);
    assert b[|EncodeTag(tag) + n|..] == payload + rest;
  }

  /** The header of a frame is read back, but for a payload of 2^32 - 1 bytes, whose
      length as an int is taken for a failure. */
  lemma HeaderRead(tag: nat, payload: Bytes, rest: Bytes)
    requires tag < TWO32 && |payload| < TWO32
    ensures UnmarshalHeader(Frame(tag, payload) + rest) ==
            Read(payload + rest, if |payload| == TWO32 - 1 then None else Some(Header(tag, AsInt(|payload|))))
  {
    hide TakeFront, ReadFront, Frame;
    FrontRead(tag, payload, rest);
  }

  lemma FrameParts(a: Bytes, b: Bytes, c: Bytes, d: Bytes)
    ensures (a + b + c) + d == a + (b + (c + d))
    ensures (a + (b + (c + d)))[|a|..] == b + (c + d)
    ensures (b + (c + d))[|b|..] == c + d
  {
  }

  lemma Cut(payload: Bytes, rest: Bytes)
    ensures (payload + rest)[|payload|..] == rest && (payload + rest)[..|payload|] == payload
  {
  }

  /** Any item is read back as it was written, with nothing more read, if and only if the
      length of its payload fits in an int; else reading fails. */
  lemma ItemRoundTrip(item: Item, rest: Bytes)
    requires item.Fits()
    ensures var r := Unmarshal(Marshal(item) + rest, item.Kind(), item.tag);
            if item.Short() then r == Read(rest, Some(item)) else r.value == None
  {
    hide EncodeTag, DecodeTagAt, Number, DecodeInt, TakeFront, UnmarshalHeader, Frame;
    var p := Payload(item);
    FrontRead(item.tag, p, rest);
    HeaderRead(item.tag, p, rest);
    Cut(p, rest);
    match item {
      case DataItem(_, _) =>
      case Int32Item(_, n) => NumberRead(n, 8, rest);
      case Int64Item(_, n) => NumberRead(n, 16, rest);
      case TimevalItem(_, sec, usec) =>
        var s, u := Number(sec), Number(usec);
        assert p + rest == s + (u + rest);
        NumberRead(sec, 8, u + rest);
        Cut(s, u + rest);
        NumberRead(usec, 8, rest);
    }
  }

  /** A number that is there is read the same with more behind it; one that is read with
      more behind it is read alone, if it needs no more bytes. */
  lemma NumberLocal(p: Bytes, rest: Bytes, max: nat)
    ensures var d := DecodeInt(p + rest, max);
            DecodeInt(p, max) == if p != [] && d.Some? && d.value.len <= |p| then d else None
  {
    if p != [] {
      assert (p + rest)[0] == p[0];
      var nibbles := p[0] / 16 + 1;
      if nibbles <= max && nibbles / 2 + 1 <= |p| {
        GatherLocal(p, rest, 1, nibbles);
      }
    }
  }

  lemma {:induction false} GatherLocal(p: Bytes, rest: Bytes, i: nat, n: nat)
    requires n / 2 < |p|
    ensures Gather(p + rest, i, n) == Gather(p, i, n)
    decreases n + 1 - i
  {
    if i <= n {
      assert (p + rest)[i / 2] == p[i / 2];
      GatherLocal(p, rest, i + 1, n);
    }
  }

  /** A typed reader takes only its own tag: with another, reading a frame fails. */
  lemma OtherTag(tag: nat, payload: Bytes, rest: Bytes, kind: Kind, need: nat)
    requires tag < TWO32 && |payload| < TWO32 && kind != Data && need != tag
    ensures Unmarshal(Frame(tag, payload) + rest, kind, need).value == None
  {
    hide Frame, EncodeTag, DecodeTagAt, Number, DecodeInt, TakeFront, UnmarshalHeader;
    FrontRead(tag, payload, rest);
    HeaderRead(tag, payload, rest);
  }

  /** A number is read from the payload alone: with its own tag, exactly if the payload
      starts with one, of no more nibbles than fit; and the payload is then gone. */
  lemma OwnNumber(tag: nat, payload: Bytes, rest: Bytes, max: nat)
    requires tag < TWO32 && |payload| < TWO32
    ensures var r, d := UnmarshalInt(Frame(tag, payload) + rest, tag, max), DecodeInt(payload, max);
            r == Read(rest, if d.None? then None else Some(d.value.value))
  {
    hide Frame, EncodeTag, DecodeTagAt, Number, DecodeInt, TakeFront;
    FrontRead(tag, payload, rest);
    Cut(payload, rest);
    NumberLocal(payload, rest, max);
    if payload == [] && DecodeInt(rest, max).Some? {
      TakesSome(rest, max);
      assert payload + rest == rest;
    }
  }

  lemma TakesSome(b: Bytes, max: nat)
    ensures DecodeInt(b, max).Some? ==> DecodeInt(b, max).value.len > 0
  {
  }

  /** So are the two numbers of a timeval. */
  lemma OwnTimeval(tag: nat, payload: Bytes, rest: Bytes)
    requires tag < TWO32 && |payload| < TWO31
    ensures var r, sec := UnmarshalTimeval(Frame(tag, payload) + rest, tag), DecodeInt(payload, 8);
            && r.rest == rest
            && (sec.None? ==> r.value == None)
            && (sec.Some? ==>
                  var usec := DecodeInt(payload[sec.value.len..], 8);
                  r.value == if usec.None? then None else Some(TimevalItem(tag, sec.value.value, usec.value.value)))
  {
    hide Frame, EncodeTag, DecodeTagAt, Number, DecodeInt, UnmarshalHeader;
    HeaderRead(tag, payload, rest);
    Cut(payload, rest);
    NumberLocal(payload, rest, 8);
    var b := payload + rest;
    var sec := DecodeInt(b, 8);
    if sec.Some? {
      TakesSome(b, 8);
      if sec.value.len <= |payload| {
        assert b[sec.value.len..] == payload[sec.value.len..] + rest;
        NumberLocal(payload[sec.value.len..], rest, 8);
        TakesSome(b[sec.value.len..], 8);
      }
    }
  }

  /** A number of more than 32 bits is not read as one of 32. */
  lemma TooWide(tag: nat, n: nat, rest: Bytes)
    requires tag < TWO32 && TWO32 <= n < TWO64
    ensures Unmarshal(Marshal(Int64Item(tag, n)) + rest, Int32, tag) == Read(rest, None)
  {
    hide Frame, UnmarshalInt, Number, DecodeInt;
    OwnNumber(tag, Number(n), rest, 8);
    NumberRead(n, 16, []);
    assert Number(n) + [] == Number(n);
    NumberFits(Number(n));
    MoreNibbles(Number(n));
  }

  lemma MoreNibbles(b: Bytes)
    ensures DecodeInt(b, 8).Some? ==> DecodeInt(b, 16) == DecodeInt(b, 8)
  {
  }

  /** What is gone when reading stops early: nothing without a tag; the tag alone if it is not
      the one wanted, or if no length follows. */
  lemma StopsEarly(tag: nat, rest: Bytes, need: nat, max: nat)
    requires tag < TWO32
    ensures DecodeInt(rest, 8).None? ==>
              TakeFront(EncodeTag(tag) + rest) == Read(rest, None) && UnmarshalHeader(EncodeTag(tag) + rest) == Read(rest, None)
    ensures need != tag ==> UnmarshalInt(EncodeTag(tag) + rest, need, max) == Read(rest, None)
    ensures DecodeTagAt(rest, 0).None? ==> TakeFront(rest) == Read(rest, None) && UnmarshalInt(rest, need, max) == Read(rest, None)
  {
    hide EncodeTag, DecodeTagAt, DecodeInt;
    TagRoundTrip(tag, rest);
    Cut(EncodeTag(tag), rest);
  }

  /** With fewer bytes than announced, the two numbers are gone. */
  lemma TooShort(tag: nat, n: nat, rest: Bytes)
    requires tag < TWO32 && |rest| < n < TWO32
    ensures TakeFront(EncodeTag(tag) + (Number(n) + rest)) == Read(rest, None)
  {
    hide EncodeTag, DecodeTagAt, Number, DecodeInt;
    TagRoundTrip(tag, Number(n) + rest);
    NumberRead(n, 8, rest);
    TwoCuts(EncodeTag(tag), Number(n), rest);
  }

  lemma TwoCuts(a: Bytes, b: Bytes, c: Bytes)
    ensures (a + (b + c))[|a|..] == b + c && (b + c)[|b|..] == c && (a + (b + c))[|a| + |b|..] == c
  {
  }

  /** Reading items by what they should be. */
  function UnmarshalAll(b: Bytes, shapes: seq<Item>): Read<seq<Item>> {
    if shapes == [] then Read(b, Some([]))
    else
      var r := Unmarshal(b, shapes[0].Kind(), shapes[0].tag);
      if r.value.None? then Read(r.rest, None)
      else
        var more := UnmarshalAll(r.rest, shapes[1..]);
        Read(more.rest, if more.value.None? then None else Some([r.value.value] + more.value.value))
  }

  /** Any list of items is read back whole, and the stream is then empty, if and only if
      the lengths of all payloads fit in an int. */
  lemma {:induction false} ListRoundTrip(items: seq<Item>)
    requires forall i :: 0 <= i < |items| ==> items[i].Fits()
    ensures var r := UnmarshalAll(MarshalAll(items), items);
            if forall i :: 0 <= i < |items| ==> items[i].Short() then r == Read([], Some(items)) else r.value == None
  {
    hide Unmarshal, Marshal, Item.Short;
    if items != [] {
      var tail := items[1..];
      ItemRoundTrip(items[0], MarshalAll(tail));
      ListRoundTrip(tail);
      assert items == [items[0]] + tail;
      assert forall i :: 0 <= i < |tail| ==> tail[i] == items[i + 1];
      assert forall i :: 1 <= i < |items| ==> items[i] == tail[i - 1];
    }
  }

  /** When evtag_consume succeeds, what it takes off is what evtag_peek_length announced,
      if and only if the length of the payload fits in an int, or nothing follows the item
      and the whole length has 32 bits. */
  lemma PeekIsConsumed(b: Bytes)
    ensures match ReadFront(b)
            case None => PeekLength(b) == None && Consume(b).value == None
            case Some(Front(header, _, payload)) =>
              && (Consume(b).value.Some? <==> header + payload <= |b| && payload != TWO32 - 1)
              && (Consume(b).value.Some? ==>
                    (PeekLength(b) == Some(|b| - |Consume(b).rest|) <==>
                     payload < TWO31 || |b| == header + payload < TWO32))
  {
    hide DecodeTagAt, DecodeInt;
  }

  /** For an item that was written, exactly when taking off one item leaves what follows. */
  lemma PeekOfItem(item: Item, rest: Bytes)
    requires item.Fits()
    ensures var b := Marshal(item) + rest;
            && PeekLength(b) == Some(|Marshal(item)| % TWO32)
            && (Consume(b) == Read(rest, Some(())) <==>
                item.Short() || (rest == [] && |Payload(item)| < TWO32 - 1))
  {
    hide EncodeTag, DecodeTagAt, Number, DecodeInt, TakeFront, ReadFront, UnmarshalHeader;
    var p := Payload(item);
    FrontRead(item.tag, p, rest);
    HeaderRead(item.tag, p, rest);
    Cut(p, rest);
  }
}
