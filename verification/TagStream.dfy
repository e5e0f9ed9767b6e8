/** The operations of libevent/event_tagging.c on a stream that they append to and
    drain. */
module TagStream {
  import opened Options
  import opened ByteStrings
  import opened WordSizes
  import opened TagInts
  import opened Tagging

  class Stream {
    var bytes: Bytes

    constructor ()
      ensures bytes == []
    {
      bytes := [];
    }

    /** evtag_encode_int, and evtag_encode_int64 with the wider buffer. */
    method EncodeNumber(n: nat, width: nat) returns (data: Bytes)
      requires n < TWO64 && width in {4, 8} && (width == 4 ==> n < TWO32)
      ensures data == Number(n)
    {
      var buf := new Byte[width + 1](i => 0);
      assert Pow16(8) == TWO32 && Pow16(16) == TWO64;
      var len := EncodeIntInto(buf, 0, n, width);
      data := buf[..len];
      assert buf[0..len] == buf[..len];
    }

    /** The two numbers of evtag_marshal_timeval in one buffer, one behind the other. */
    method EncodeTimeval(sec: nat, usec: nat) returns (data: Bytes)
      requires sec < TWO32 && usec < TWO32
      ensures data == Number(sec) + Number(usec)
    {
      var buf := new Byte[10](i => 0);
      assert Pow16(8) == TWO32;
      var len := EncodeIntInto(buf, 0, sec, 4);
      ghost var first := buf[..len];
      assert buf[0..len] == first;
      var len2 := EncodeIntInto(buf, len, usec, 4);
      data := buf[..len + len2];
      assert forall i :: 0 <= i < len ==> data[i] == first[i];
      assert data == first + buf[len..len + len2];
    }

    /** evtag_marshal, evtag_marshal_int, evtag_marshal_int64, evtag_marshal_timeval. */
    method Put(item: Item)
      requires item.Fits()
      modifies this
      ensures bytes == old(bytes) + Marshal(item)
    {
      var payload;
      match item {
        case DataItem(_, data) => payload := data;
        case Int32Item(_, n) => payload := EncodeNumber(n, 4);
        case Int64Item(_, n) => payload := EncodeNumber(n, 8);
        case TimevalItem(_, sec, usec) => payload := EncodeTimeval(sec, usec);
      }
      var tag := EncodeTagBytes(item.tag);
      var len := EncodeNumber(|payload|, 4);
      bytes := bytes + tag;
      bytes := bytes + len;
      bytes := bytes + payload;
    }

    /** A tag and a length are drained, and the length compared with what is left. */
    method TakeTagAndLength() returns (f: Option<Front>)
      modifies this
      ensures Read(bytes, f) == TakeFront(old(bytes))
    {
      var t := DecodeTagBytes(bytes);
      if t.None? {
        return None;
      }
      bytes := bytes[t.value.len..];
      var l := DecodeIntFrom(bytes, 8);
      if l.None? {
        return None;
      }
      bytes := bytes[l.value.len..];
      if |bytes| < l.value.value {
        return None;
      }
      return Some(Front(t.value.len + l.value.len, t.value.value, l.value.value));
    }

    /** evtag_unmarshal_header. */
    method TakeHeader() returns (h: Option<Header>)
      modifies this
      ensures Read(bytes, h) == UnmarshalHeader(old(bytes))
    {
      var f := TakeTagAndLength();
      if f.None? || AsInt(f.value.payload) == -1 {
        return None;
      }
      return Some(Header(f.value.tag, AsInt(f.value.payload)));
    }

    /** evtag_unmarshal_int and evtag_unmarshal_int64. */
    method TakeInt(need: nat, max: nat) returns (v: Option<nat>)
      requires max <= 16
      modifies this
      ensures Read(bytes, v) == UnmarshalInt(old(bytes), need, max)
    {
      var t := DecodeTagBytes(bytes);
      if t.None? {
        return None;
      }
      if t.value.value != need {
        bytes := bytes[t.value.len..];
        return None;
      }
      var f := TakeTagAndLength();
      if f.None? {
        return None;
      }
      var d := DecodeIntFrom(bytes, max);
      bytes := bytes[f.value.payload..];
      return if d.None? || d.value.len > f.value.payload then None else Some(d.value.value);
    }

    /** evtag_unmarshal_timeval. */
    method TakeTimeval(need: nat) returns (v: Option<Item>)
      modifies this
      ensures Read(bytes, v) == UnmarshalTimeval(old(bytes), need)
    {
      var h := TakeHeader();
      if h.None? {
        return None;
      }
      v := None;
      if h.value.tag == need {
        var sec := DecodeIntFrom(bytes, 8);
        if sec.Some? {
          var usec := DecodeIntFrom(bytes[sec.value.len..], 8);
          if usec.Some? && sec.value.len + usec.value.len <= h.value.len {
            v := Some(TimevalItem(need, sec.value.value, usec.value.value));
          }
        }
      }
      bytes := Drained(bytes, h.value.len);
    }

    /** evtag_unmarshal and the typed ones, by what is expected. */
    method Take(kind: Kind, need: nat) returns (v: Option<Item>)
      modifies this
      ensures Read(bytes, v) == Unmarshal(old(bytes), kind, need)
    {
      match kind {
        case Data =>
          var h := TakeHeader();
          if h.None? || h.value.len < 0 {
            return None;
          }
          v := Some(DataItem(h.value.tag, bytes[..h.value.len]));
          bytes := bytes[h.value.len..];
        case Int32 =>
          var n := TakeInt(need, 8);
          v := if n.None? then None else Some(Int32Item(need, n.value));
        case Int64 =>
          var n := TakeInt(need, 16);
          v := if n.None? then None else Some(Int64Item(need, n.value));
        case Timeval => v := TakeTimeval(need);
      }
    }

    /** evtag_peek_length, then evtag_consume: the announced number of bytes goes, if its
        payload is not too long for an int. */
    method PeekAndConsume() returns (announced: Option<nat>, ok: bool)
      modifies this
      ensures announced == PeekLength(old(bytes))
      ensures Read(bytes, if ok then Some(()) else None) == Consume(old(bytes))
      ensures ok ==> ReadFront(old(bytes)).Some?
      ensures ok && ReadFront(old(bytes)).value.payload < TWO31 ==> announced == Some(|old(bytes)| - |bytes|)
    {
      PeekIsConsumed(bytes);
      hide DecodeTagAt, DecodeInt;
      announced := None;
      var t := DecodeTagBytes(bytes);
      if t.Some? {
        var l := DecodeIntFrom(bytes[t.value.len..], 8);
        announced := if l.None? then None else Some((l.value.value + l.value.len + t.value.len) % TWO32);
      }
      var h := TakeHeader();
      ok := h.Some?;
      if ok {
        bytes := Drained(bytes, h.value.len);
      }
    }
  }

  /** Items written to a stream and read from it in turn come out the same and leave the
      stream empty, if and only if the lengths of all payloads fit in an int. */
  method WriteAndRead(items: seq<Item>) returns (read: seq<Item>, left: nat)
    requires forall i :: 0 <= i < |items| ==> items[i].Fits()
    ensures read == items <==> forall i :: 0 <= i < |items| ==> items[i].Short()
    ensures read == items ==> left == 0
  {
    hide Marshal, Unmarshal;
    var s := new Stream();
    for i := 0 to |items|
      invariant fresh(s) && s.bytes + MarshalAll(items[i..]) == MarshalAll(items)
    {
      assert items[i..][0] == items[i] && items[i..][1..] == items[i + 1..];
      s.Put(items[i]);
    }
    assert items[|items|..] == [] && items[0..] == items;
    read := [];
    while |read| < |items|
      invariant fresh(s) && |read| <= |items| && read == items[..|read|]
      invariant s.bytes == MarshalAll(items[|read|..])
      invariant forall j :: 0 <= j < |read| ==> items[j].Short()
      decreases |items| - |read|
    {
      var i := |read|;
      assert items[i..][0] == items[i] && items[i..][1..] == items[i + 1..];
      ItemRoundTrip(items[i], MarshalAll(items[i + 1..]));
      var v := s.Take(items[i].Kind(), items[i].tag);
      if v.None? {
        break;
      }
      read := read + [v.value];
    }
    left := |s.bytes|;
  }
}
