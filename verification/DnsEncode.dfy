/** The name compressor of libevent/evdns.c. */
module DnsEncode {
  import opened ByteStrings
  import opened DnsNames
  import opened DnsParse

  const MAX_LABELS: nat := 128

  /** A suffix and the position where it was written. */
  datatype Entry = Entry(name: Bytes, pos: nat)

  class LabelTable {
    var entries: seq<Entry>

    constructor ()
      ensures entries == []
    {
      entries := [];
    }

    /** dnslabel_table_get_pos. */
    method GetPos(name: Bytes) returns (pos: int)
      ensures pos >= 0 ==> exists i :: 0 <= i < |entries| && entries[i] == Entry(name, pos)
      ensures pos < 0 ==> forall i :: 0 <= i < |entries| ==> entries[i].name != name
    {
      for i := 0 to |entries|
        invariant forall k :: 0 <= k < i ==> entries[k].name != name
      {
        if entries[i].name == name {
          return entries[i].pos;
        }
      }
      return -1;
    }

    /** dnslabel_table_add: a full table stays as it is. */
    method Add(name: Bytes, pos: nat)
      modifies this
      ensures entries == old(entries) + (if |old(entries)| < MAX_LABELS then [Entry(name, pos)] else [])
    {
      if |entries| < MAX_LABELS {
        entries := entries + [Entry(name, pos)];
      }
    }
  }

  /** Every suffix in the table is denoted at its position by bytes before `lim`. */
  ghost predicate TableOk(p: Bytes, lim: nat, es: seq<Entry>)
  {
    forall i :: 0 <= i < |es| ==> es[i].pos < POINTER_LIMIT && Denotes(p, es[i].pos, lim, Labels(es[i].name))
  }

  /** A name from `pos` on is spelled out up to `j`, where `rest` is still to be written, or
      an empty label has ended it before. */
  ghost predicate Underway(p: Bytes, pos: nat, v: Bytes, j: nat, rest: Bytes)
  {
    Reaches(p, pos, v, j, rest) || Denotes(p, pos, j, Labels(v))
  }

  /** Every suffix among these entries is underway. */
  ghost predicate TablePending(p: Bytes, j: nat, rest: Bytes, es: seq<Entry>)
  {
    forall i :: 0 <= i < |es| ==>
      es[i].pos < POINTER_LIMIT && |es[i].name| > |rest| && Underway(p, es[i].pos, es[i].name, j, rest)
  }

  lemma TableFrame(p: Bytes, q: Bytes, lim: nat, lim': nat, es: seq<Entry>)
    requires TableOk(p, lim, es) && lim <= |p| && lim <= lim' <= |q| && p[..lim] == q[..lim]
    ensures TableOk(q, lim', es)
  {
    forall i | 0 <= i < |es| ensures Denotes(q, es[i].pos, lim', Labels(es[i].name)) {
      DenotesFrame(p, q, es[i].pos, lim, lim', Labels(es[i].name));
    }
  }

  /** The first label of the rest, which may be empty, was written at `j`. */
  predicate FirstWritten(q: Bytes, j: nat, rest: Bytes, d: nat)
  {
    && d == DotAt(rest) < |rest| && j + 1 + d <= |q|
    && if d > 0 then LabelAt(q, j, rest[..d]) else q[j] == 0
  }

  /** A name that is spelled out up to there goes on, or has come to an end. */
  lemma NameFurther(p: Bytes, q: Bytes, pos: nat, v: Bytes, j: nat, rest: Bytes, d: nat)
    requires Reaches(p, pos, v, j, rest) && j <= |p| && j <= |q| && p[..j] == q[..j] && FirstWritten(q, j, rest, d)
    ensures d > 0 ==> Reaches(q, pos, v, j + 1 + d, rest[d + 1..])
    ensures d == 0 ==> Denotes(q, pos, j + 1, Labels(v))
  {
    ReachesFrame(p, q, pos, v, j, rest);
    if d > 0 {
      hide DotAt, Reaches, LabelAt;
      ReachesFurther(q, pos, v, j, rest);
    } else {
      assert Labels(rest) == [] && Denotes(q, j, j + 1, []);
      hide DotAt, Reaches, Labels, Denotes;
      ReachesDenotes(q, pos, v, j, rest, j + 1);
    }
  }

  lemma UnderwayFurther(p: Bytes, q: Bytes, pos: nat, v: Bytes, j: nat, rest: Bytes, d: nat)
    requires Underway(p, pos, v, j, rest) && j <= |p| && j <= |q| && p[..j] == q[..j] && FirstWritten(q, j, rest, d)
    ensures Underway(q, pos, v, j + 1 + d, rest[d + 1..])
  {
    hide Reaches, Denotes, Labels;
    if Reaches(p, pos, v, j, rest) {
      NameFurther(p, q, pos, v, j, rest, d);
    } else {
      DenotesFrame(p, q, pos, j, j + 1 + d, Labels(v));
    }
  }

  lemma UnderwayDone(p: Bytes, q: Bytes, pos: nat, v: Bytes, j: nat, rest: Bytes, lim: nat)
    requires Underway(p, pos, v, j, rest) && j <= |p| && j <= lim <= |q| && p[..j] == q[..j] && Denotes(q, j, lim, Labels(rest))
    ensures Denotes(q, pos, lim, Labels(v))
  {
    hide Reaches, Denotes, Labels;
    if Reaches(p, pos, v, j, rest) {
      ReachesFrame(p, q, pos, v, j, rest);
      ReachesDenotes(q, pos, v, j, rest, lim);
    } else {
      DenotesFrame(p, q, pos, j, lim, Labels(v));
    }
  }

  /** The pending suffixes after one more label of the rest was written. */
  lemma PendingFurther(p: Bytes, q: Bytes, j: nat, rest: Bytes, d: nat, es: seq<Entry>)
    requires TablePending(p, j, rest, es) && j <= |p| && j <= |q| && p[..j] == q[..j] && FirstWritten(q, j, rest, d)
    ensures TablePending(q, j + 1 + d, rest[d + 1..], es)
  {
    hide Underway, LabelAt, DotAt;
    forall i | 0 <= i < |es| ensures Underway(q, es[i].pos, es[i].name, j + 1 + d, rest[d + 1..]) {
      UnderwayFurther(p, q, es[i].pos, es[i].name, j, rest, d);
    }
  }

  /** The pending suffixes once the rest is denoted. */
  lemma PendingDone(p: Bytes, q: Bytes, j: nat, rest: Bytes, es: seq<Entry>, lim: nat)
    requires TablePending(p, j, rest, es) && j <= |p| && j <= lim <= |q| && p[..j] == q[..j] && Denotes(q, j, lim, Labels(rest))
    ensures TableOk(q, lim, es)
  {
    hide Underway, Denotes, Labels;
    forall i | 0 <= i < |es| ensures Denotes(q, es[i].pos, lim, Labels(es[i].name)) {
      UnderwayDone(p, q, es[i].pos, es[i].name, j, rest, lim);
    }
  }

  /** Writes a length byte and a label. */
  method PutLabel(buf: array<Byte>, j: nat, text: Bytes) returns (next: nat)
    requires j + 1 + |text| <= buf.Length && |text| <= MAX_LABEL
    modifies buf
    ensures next == j + 1 + |text| && buf[..j] == old(buf[..j])
    ensures buf[j] == |text| && buf[j + 1..next] == text
    ensures text != [] ==> LabelAt(buf[..], j, text)
  {
    buf[j] := |text|;
    var k := 0;
    while k < |text|
      invariant k <= |text| && buf[..j] == old(buf[..j]) && buf[j] == |text|
      invariant buf[j + 1..j + 1 + k] == text[..k]
    {
      buf[j + 1 + k] := text[k];
      k := k + 1;
    }
    next := j + 1 + |text|;
    assert text[..k] == text;
    assert buf[..][j + 1..next] == buf[j + 1..next];
  }

  /** APPEND16 of a position with the two pointer bits set. */
  method PutPointer(buf: array<Byte>, j: nat, pos: nat)
    requires j + 2 <= buf.Length && pos < POINTER_LIMIT
    modifies buf
    ensures buf[..j] == old(buf[..j]) && buf[j] > MAX_LABEL && Target(buf[..], j) == pos
  {
    buf[j] := 0xc0 + pos / 256;
    buf[j + 1] := pos % 256;
  }

  /** A pointer to something denoted further ahead denotes the same. */
  lemma PointerDenotes(p: Bytes, q: Bytes, pos: nat, lim: nat, j: nat, labels: seq<Bytes>)
    requires Denotes(p, pos, lim, labels) && lim <= j && j + 2 <= |q| && j <= |p| && p[..j] == q[..j]
    requires q[j] > MAX_LABEL && Target(q, j) == pos
    ensures Denotes(q, j, j + 2, labels) && After(q, j, j + 2, labels) == j + 2
  {
    assert p[..lim] == p[..j][..lim] == q[..j][..lim] == q[..lim];
    DenotesFrame(p, q, pos, lim, j, labels);
  }

  /** The last label and the terminating zero. */
  lemma FinalLabel(q: Bytes, j: nat, text: Bytes, end: nat)
    requires DotAt(text) == |text| && end <= |q|
    requires if text == [] then j < |q| && q[j] == 0 && end == j + 1
             else LabelAt(q, j, text) && end == j + 2 + |text| && q[end - 1] == 0
    ensures Denotes(q, j, end, Labels(text)) && After(q, j, end, Labels(text)) == end
  {
    if text != [] {
      assert Labels(text) == [text];
      assert Denotes(q, end - 1, end, []);
      LabelThen(q, j, text, end, []);
    }
  }

  /** The suffixes in the table. */
  function NamesOf(es: seq<Entry>): seq<Bytes>
  {
    seq(|es|, i requires 0 <= i < |es| => es[i].name)
  }

  /** No empty label is written before the name comes to an end or to a suffix that is
      known. */
  predicate Complete(names: seq<Bytes>, name: Bytes)
    decreases |name|
  {
    var d := DotAt(name);
    name in names || d == |name| || (d > 0 && Complete(names, name[d + 1..]))
  }

  /** A name without an empty label is complete; one that is only a dot is if and only if
      it is known. */
  lemma {:induction false} CompleteIs(names: seq<Bytes>, name: Bytes)
    ensures WellFormed(name) ==> Complete(names, name)
    ensures name == [DOT] ==> (Complete(names, name) <==> name in names)
    decreases |name|
  {
    if DotAt(name) < |name| {
      CompleteIs(names, name[DotAt(name) + 1..]);
    }
  }

  /** The suffixes in the table after a name was written. */
  function Learn(names: seq<Bytes>, name: Bytes): seq<Bytes>
    decreases |name|
  {
    if name in names then names
    else
      var d, more := DotAt(name), if |names| < MAX_LABELS then names + [name] else names;
      if d < |name| then Learn(more, name[d + 1..]) else more
  }

  /** The name itself between labels, and whether it will be complete. */
  ghost predicate Spelled(p: Bytes, pos: nat, name: Bytes, j: nat, rest: Bytes, names: seq<Bytes>)
  {
    || (Reaches(p, pos, name, j, rest) && (Complete(names, name) <==> Complete(names, rest)))
    || (Denotes(p, pos, j, Labels(name)) && !Complete(names, name))
  }

  /** The state of the encoder between labels: `name` was started at `j0` and is
      spelled out up to `j`, with `rest` still to be written; `known` are the
      entries from before, `added` those of this name. */
  ghost predicate Encoding(p: Bytes, j0: nat, name: Bytes, j: nat, rest: Bytes, known: seq<Entry>, added: seq<Entry>)
  {
    && j0 <= j <= |p| && |rest| <= |name|
    && Spelled(p, j0, name, j, rest, NamesOf(known))
    && TableOk(p, j0, known) && TablePending(p, j, rest, added)
  }

  /** A name was written from `start` to `end`. The packet denotes its labels, and reading
      them ends at `end` exactly if the name is complete. */
  ghost predicate Placed(p: Bytes, name: Bytes, start: nat, end: nat, names: seq<Bytes>)
  {
    && start < end <= |p| && Denotes(p, start, end, Labels(name))
    && (After(p, start, end, Labels(name)) == end <==> Complete(names, name))
  }

  lemma PlacedFrame(p: Bytes, q: Bytes, name: Bytes, start: nat, end: nat, names: seq<Bytes>)
    requires Placed(p, name, start, end, names) && end <= |q| && p[..end] == q[..end]
    ensures Placed(q, name, start, end, names)
  {
    DenotesFrame(p, q, start, end, end, Labels(name));
  }

  /** The state when a name is complete up to `end`. */
  ghost predicate Encoded(p: Bytes, j0: nat, name: Bytes, end: nat, known: seq<Entry>, es: seq<Entry>)
  {
    Placed(p, name, j0, end, NamesOf(known)) && TableOk(p, end, es)
  }

  lemma SpelledFurther(p: Bytes, q: Bytes, pos: nat, name: Bytes, j: nat, rest: Bytes, d: nat, names: seq<Bytes>)
    requires Spelled(p, pos, name, j, rest, names) && j <= |p| && j <= |q| && p[..j] == q[..j]
    requires FirstWritten(q, j, rest, d) && rest !in names
    ensures Spelled(q, pos, name, j + 1 + d, rest[d + 1..], names)
  {
    assert Complete(names, rest) <==> d > 0 && Complete(names, rest[d + 1..]);
    hide Reaches, Denotes, Labels, Complete;
    if Reaches(p, pos, name, j, rest) && (Complete(names, name) <==> Complete(names, rest)) {
      NameFurther(p, q, pos, name, j, rest, d);
    } else {
      DenotesFrame(p, q, pos, j, j + 1 + d, Labels(name));
    }
  }

  lemma SpelledDone(p: Bytes, q: Bytes, pos: nat, name: Bytes, j: nat, rest: Bytes, end: nat, names: seq<Bytes>)
    requires Spelled(p, pos, name, j, rest, names) && j <= |p| && j < end <= |q| && p[..j] == q[..j]
    requires Complete(names, rest) && Denotes(q, j, end, Labels(rest)) && After(q, j, end, Labels(rest)) == end
    ensures pos <= j && Placed(q, name, pos, end, names)
  {
    hide Reaches, Denotes, Labels, Complete, After;
    if Reaches(p, pos, name, j, rest) && (Complete(names, name) <==> Complete(names, rest)) {
      ReachesFrame(p, q, pos, name, j, rest);
      ReachesDenotes(q, pos, name, j, rest, end);
    } else {
      DenotesFrame(p, q, pos, j, end, Labels(name));
      DenotesBounds(p, pos, j, Labels(name));
    }
  }

  lemma DenotesBounds(p: Bytes, pos: nat, lim: nat, labels: seq<Bytes>)
    requires Denotes(p, pos, lim, labels)
    ensures pos < lim && After(p, pos, lim, labels) <= lim
  {
  }

  lemma EncodeNext(p: Bytes, q: Bytes, j0: nat, name: Bytes, j: nat, rest: Bytes, d: nat,
                   known: seq<Entry>, added: seq<Entry>, extra: seq<Entry>)
    requires Encoding(p, j0, name, j, rest, known, added) && j <= |q| && p[..j] == q[..j]
    requires FirstWritten(q, j, rest, d) && rest !in NamesOf(known)
    requires extra == [] || (extra == [Entry(rest, j)] && j < POINTER_LIMIT)
    ensures Encoding(q, j0, name, j + 1 + d, rest[d + 1..], known, added + extra)
  {
    hide Reaches, LabelAt, DotAt, Denotes, Labels, Spelled, NamesOf;
    SpelledFurther(p, q, j0, name, j, rest, d, NamesOf(known));
    assert p[..j0] == p[..j][..j0] == q[..j][..j0] == q[..j0];
    TableFrame(p, q, j0, j0, known);
    PendingFurther(p, q, j, rest, d, added);
    if extra != [] {
      ReachesSelf(p, j, rest);
      NameFurther(p, q, j, rest, j, rest, d);
    }
  }

  lemma ReachesSelf(p: Bytes, pos: nat, v: Bytes)
    ensures Reaches(p, pos, v, pos, v)
  {
  }

  /** Once the rest is denoted, the whole name is, and so are all suffixes. */
  lemma EncodeDone(p: Bytes, q: Bytes, j0: nat, name: Bytes, j: nat, rest: Bytes, end: nat,
                   known: seq<Entry>, added: seq<Entry>, extra: seq<Entry>)
    requires Encoding(p, j0, name, j, rest, known, added) && j < end <= |q| && p[..j] == q[..j]
    requires Complete(NamesOf(known), rest) && Denotes(q, j, end, Labels(rest)) && After(q, j, end, Labels(rest)) == end
    requires extra == [] || (extra == [Entry(rest, j)] && j < POINTER_LIMIT)
    ensures Encoded(q, j0, name, end, known, known + added + extra)
  {
    hide Underway, Spelled, Complete, Denotes, Labels, After, NamesOf, Placed;
    assert p[..j0] == p[..j][..j0] == q[..j][..j0] == q[..j0];
    TableFrame(p, q, j0, end, known);
    PendingDone(p, q, j, rest, added, end);
    SpelledDone(p, q, j0, name, j, rest, end, NamesOf(known));
  }

  /** An entry found for the rest is one from before this name. */
  lemma KnownEntry(p: Bytes, j0: nat, name: Bytes, j: nat, rest: Bytes, known: seq<Entry>, added: seq<Entry>, ref: nat)
    requires Encoding(p, j0, name, j, rest, known, added)
    requires exists i :: 0 <= i < |known + added| && (known + added)[i] == Entry(rest, ref)
    ensures ref < POINTER_LIMIT && Denotes(p, ref, j0, Labels(rest)) && rest in NamesOf(known)
  {
    forall k | |known| <= k < |known + added| ensures (known + added)[k].name != rest {
      assert (known + added)[k] == added[k - |known|];
    }
    var i :| 0 <= i < |known + added| && (known + added)[i] == Entry(rest, ref);
    assert known[i] == Entry(rest, ref) && NamesOf(known)[i] == rest;
  }

  /** One label with its length in front; lengths are bytes, so a longer label
      than any the encoder accepts is cut off here. */
  function LabelBytes(text: Bytes): Bytes
  {
    [if |text| <= MAX_LABEL then |text| else MAX_LABEL] + text
  }

  /** Every label is short enough. */
  predicate LabelsFit(name: Bytes)
    decreases |name|
  {
    var d := DotAt(name);
    d <= MAX_LABEL && (d < |name| ==> LabelsFit(name[d + 1..]))
  }

  /** The encoding of a name without compression. */
  function Plain(name: Bytes): (r: Bytes)
    ensures r != []
    decreases |name|
  {
    var d := DotAt(name);
    if d < |name| then LabelBytes(name[..d]) + Plain(name[d + 1..])
    else LabelBytes(name) + (if name == [] then [] else [0])
  }

  ghost predicate NoZeros(name: Bytes)
  {
    forall i :: 0 <= i < |name| ==> name[i] != 0
  }

  ghost function EntriesOf(table: LabelTable?): seq<Entry>
    reads table
  {
    if table == null then [] else table.entries
  }

  /** dnsname_to_labels: writes `name` from `j0` on, giving a known suffix by a
      pointer. Returns the index behind it, -1 for a label that is too long and -2
      when the name or the buffer is. The terminating zero is written without a
      check, so it may land at index `bufLen`. */
  method DnsnameToLabels(buf: array<Byte>, bufLen: nat, j0: nat, name: Bytes, table: LabelTable?) returns (r: int)
    requires j0 <= bufLen < buf.Length && bufLen <= POINTER_LIMIT && NoZeros(name)
    requires TableOk(buf[..], j0, EntriesOf(table))
    modifies buf, table
    ensures buf[..j0] == old(buf[..j0])
    ensures -2 <= r <= bufLen + 1
    ensures r >= 0 ==> Encoded(buf[..], j0, name, r, old(EntriesOf(table)), EntriesOf(table))
    ensures table != null && r >= 0 ==> NamesOf(table.entries) == Learn(NamesOf(old(table.entries)), name)
    ensures table == null && r >= 0 ==> buf[j0..r] == Plain(name)
    ensures |name| > 255 ==> r == -2
    ensures r >= 0 ==> r <= j0 + |name| + 2
    ensures |name| <= 255 && LabelsFit(name) && j0 + |name| + 2 <= bufLen ==> r >= 0
    ensures table == null ==> (r >= 0 <==> |name| <= 255 && LabelsFit(name) && j0 + |name| + 1 <= bufLen)
  {
    if |name| > 255 {
      return -2;
    }
    var j: nat, rest := j0, name;
    ghost var known: seq<Entry>, added: seq<Entry> := EntriesOf(table), [];
    assert known + added == known && buf[..][j0..j0] == [];
    MidwayStart(buf[..], j0, name, known, table == null);
    hide Midway, Finished, Encoded, TableOk, NamesOf, Learn, DotAt, Plain, LabelsFit;
    while true
      invariant j0 <= j <= bufLen && buf[..j0] == old(buf[..j0]) && NoZeros(rest)
      invariant Midway(buf[..], j0, name, j, rest, known, added, table == null) && EntriesOf(table) == known + added
      decreases |rest|
    {
      if table != null {
        var ref := table.GetPos(rest);
        LearnNext(known + added, rest, ref);
        if ref >= 0 {
          MidwayFits(buf[..], j0, name, j, rest, known, added, false);
          r := EmitPointer(buf, bufLen, j0, name, j, rest, ref, known, added);
          FinishedIs(buf[..], j0, name, r, known, EntriesOf(table), false);
          return;
        }
      } else {
        NoNames(known + added, rest);
      }
      var d := DotAt(rest);
      MidwayFits(buf[..], j0, name, j, rest, known, added, table == null);
      FitNext(rest, d);
      if d > MAX_LABEL {
        return -1;
      }
      if j + d + 1 > bufLen {
        return -2;
      }
      if d == |rest| {
        r := EmitLast(buf, j0, name, j, rest, table, known, added);
        FinishedIs(buf[..], j0, name, r, known, EntriesOf(table), table == null);
        return;
      }
      j, added := EmitLabel(buf, j0, name, j, rest, rest[..d], rest[d + 1..], table, known, added);
      rest := rest[d + 1..];
    }
  }

  /** The encoder between labels: also the bytes of a name that is written without a table,
      or what the table has yet to learn. */
  ghost predicate Midway(p: Bytes, j0: nat, name: Bytes, j: nat, rest: Bytes, known: seq<Entry>, added: seq<Entry>, plain: bool)
  {
    && Encoding(p, j0, name, j, rest, known, added)
    && j + |rest| == j0 + |name| && (LabelsFit(rest) <==> LabelsFit(name))
    && (plain ==> p[j0..j] + Plain(rest) == Plain(name))
    && (!plain ==> Learn(NamesOf(known + added), rest) == Learn(NamesOf(known), name))
  }

  /** The encoder behind a name that ends at `end`. */
  ghost predicate Finished(p: Bytes, j0: nat, name: Bytes, end: int, known: seq<Entry>, es: seq<Entry>, plain: bool)
  {
    && j0 < end <= |p| && Encoded(p, j0, name, end, known, es) && end <= j0 + |name| + 2
    && (plain ==> p[j0..end] == Plain(name))
    && (!plain ==> NamesOf(es) == Learn(NamesOf(known), name))
  }

  lemma MidwayStart(p: Bytes, j0: nat, name: Bytes, known: seq<Entry>, plain: bool)
    requires j0 <= |p| && TableOk(p, j0, known)
    ensures Midway(p, j0, name, j0, name, known, [], plain)
  {
    hide Denotes, Labels, Plain, Learn;
    SpelledNone(p, j0, name, NamesOf(known));
    hide Spelled;
    assert p[j0..j0] + Plain(name) == Plain(name) && known + [] == known;
  }

  lemma MidwayFits(p: Bytes, j0: nat, name: Bytes, j: nat, rest: Bytes, known: seq<Entry>, added: seq<Entry>, plain: bool)
    requires Midway(p, j0, name, j, rest, known, added, plain)
    ensures j + |rest| == j0 + |name| && (LabelsFit(rest) <==> LabelsFit(name))
  {
  }

  lemma FinishedIs(p: Bytes, j0: nat, name: Bytes, end: int, known: seq<Entry>, es: seq<Entry>, plain: bool)
    ensures Finished(p, j0, name, end, known, es, plain) ==>
              && j0 < end <= |p| && Encoded(p, j0, name, end, known, es) && end <= j0 + |name| + 2
              && (plain ==> p[j0..end] == Plain(name))
              && (!plain ==> NamesOf(es) == Learn(NamesOf(known), name))
  {
  }

  lemma SpelledNone(p: Bytes, j0: nat, name: Bytes, names: seq<Bytes>)
    ensures Spelled(p, j0, name, j0, name, names)
  {
    ReachesSelf(p, j0, name);
  }

  lemma NoNames(es: seq<Entry>, rest: Bytes)
    requires es == []
    ensures rest !in NamesOf(es)
  {
  }

  /** What the table learns from the rest, given whether it is there. */
  lemma LearnNext(es: seq<Entry>, rest: Bytes, ref: int)
    requires ref >= 0 ==> exists i :: 0 <= i < |es| && es[i] == Entry(rest, ref)
    requires ref < 0 ==> forall i :: 0 <= i < |es| ==> es[i].name != rest
    ensures ref >= 0 ==> Learn(NamesOf(es), rest) == NamesOf(es)
    ensures ref < 0 ==> rest !in NamesOf(es)
  {
    if ref >= 0 {
      var i :| 0 <= i < |es| && es[i] == Entry(rest, ref);
      assert NamesOf(es)[i] == rest;
    }
  }

  /** What it learns when the rest is not there and was remembered. */
  lemma LearnOne(es: seq<Entry>, rest: Bytes, j: nat, after: seq<Entry>)
    requires rest !in NamesOf(es) && after == es + (if |es| < MAX_LABELS then [Entry(rest, j)] else [])
    ensures var d := DotAt(rest);
            Learn(NamesOf(es), rest) == if d < |rest| then Learn(NamesOf(after), rest[d + 1..]) else NamesOf(after)
  {
    assert NamesOf(after) == if |es| < MAX_LABELS then NamesOf(es) + [rest] else NamesOf(es);
  }

  lemma FitNext(rest: Bytes, d: nat)
    requires d == DotAt(rest)
    ensures LabelsFit(rest) <==> d <= MAX_LABEL && (d < |rest| ==> LabelsFit(rest[d + 1..]))
  {
  }

  method EmitPointer(buf: array<Byte>, bufLen: nat, j0: nat, ghost name: Bytes, j: nat, ghost rest: Bytes, ref: nat,
                     ghost known: seq<Entry>, ghost added: seq<Entry>) returns (r: int)
    requires bufLen < buf.Length && Midway(buf[..], j0, name, j, rest, known, added, false)
    requires exists i :: 0 <= i < |known + added| && (known + added)[i] == Entry(rest, ref)
    modifies buf
    ensures buf[..j0] == old(buf[..j0]) && r == if j + 2 <= bufLen then j + 2 else -2
    ensures r >= 0 ==> Finished(buf[..], j0, name, r, known, known + added, false)
  {
    if j + 2 > bufLen {
      return -2;
    }
    ghost var p := buf[..];
    KnownEntry(p, j0, name, j, rest, known, added, ref);
    hide Midway, Finished, NamesOf, Denotes, Labels;
    PutPointer(buf, j, ref);
    PointerWritten(p, buf[..], j0, name, j, rest, ref, known, added);
    return j + 2;
  }

  lemma PointerWritten(p: Bytes, q: Bytes, j0: nat, name: Bytes, j: nat, rest: Bytes, ref: nat,
                       known: seq<Entry>, added: seq<Entry>)
    requires Midway(p, j0, name, j, rest, known, added, false) && Denotes(p, ref, j0, Labels(rest)) && rest in NamesOf(known)
    requires |p| == |q| && j + 2 <= |q| && p[..j] == q[..j] && q[j] > MAX_LABEL && Target(q, j) == ref
    ensures j0 <= j && p[..j0] == q[..j0] && Finished(q, j0, name, j + 2, known, known + added, false)
  {
    hide Encoding, Encoded, Denotes, Labels, Complete, Learn, NamesOf, After, Midway;
    KnownSuffix(NamesOf(known), rest);
    StillThere(known, added, rest);
    KnownSuffix(NamesOf(known + added), rest);
    MidwayEncoding(p, j0, name, j, rest, known, added, false);
    MidwayFits(p, j0, name, j, rest, known, added, false);
    MidwayLearns(p, j0, name, j, rest, known, added);
    Prefixes(p, q, j0, j);
    PointerDenotes(p, q, ref, j0, j, Labels(rest));
    EncodeDone(p, q, j0, name, j, rest, j + 2, known, added, []);
    assert known + added + [] == known + added;
  }

  lemma KnownSuffix(names: seq<Bytes>, rest: Bytes)
    requires rest in names
    ensures Complete(names, rest) && Learn(names, rest) == names
  {
  }

  lemma MidwayLearns(p: Bytes, j0: nat, name: Bytes, j: nat, rest: Bytes, known: seq<Entry>, added: seq<Entry>)
    requires Midway(p, j0, name, j, rest, known, added, false)
    ensures Learn(NamesOf(known + added), rest) == Learn(NamesOf(known), name)
  {
  }

  lemma StillThere(known: seq<Entry>, added: seq<Entry>, rest: Bytes)
    requires rest in NamesOf(known)
    ensures rest in NamesOf(known + added)
  {
    var i :| 0 <= i < |known| && NamesOf(known)[i] == rest;
    assert NamesOf(known + added)[i] == rest;
  }

  /** The common part of two versions of a buffer. */
  lemma Prefixes(p: Bytes, q: Bytes, lo: nat, hi: nat)
    requires lo <= hi <= |p| && |p| == |q| && p[..hi] == q[..hi]
    ensures p[..lo] == q[..lo]
  {
    assert p[..lo] == p[..hi][..lo] && q[..lo] == q[..hi][..lo];
  }

  /** Two versions of a buffer agree before index `n`. */
  ghost predicate SamePrefix(p: Bytes, q: Bytes, n: nat)
  {
    n <= |p| == |q| && p[..n] == q[..n]
  }

  /** The first label of a name that has more, and the rest. */
  predicate Split(rest: Bytes, d: nat, text: Bytes, tail: Bytes)
  {
    d == DotAt(rest) < |rest| && d <= MAX_LABEL && text == rest[..d] && tail == rest[d + 1..]
  }

  /** A length byte and a label, which may be empty. */
  predicate WrittenAt(q: Bytes, j: nat, text: Bytes)
  {
    j + 1 + |text| <= |q| && q[j] == |text| && q[j + 1..j + 1 + |text|] == text
  }

  /** Remembers the suffix and writes its first label. */
  method EmitLabel(buf: array<Byte>, j0: nat, ghost name: Bytes, j: nat, rest: Bytes, text: Bytes, tail: Bytes,
                   table: LabelTable?, ghost known: seq<Entry>, ghost added: seq<Entry>)
    returns (next: nat, ghost more: seq<Entry>)
    requires Split(rest, |text|, text, tail) && j + 1 + |text| <= buf.Length && j < POINTER_LIMIT
    requires Midway(buf[..], j0, name, j, rest, known, added, table == null) && EntriesOf(table) == known + added
    requires rest !in NamesOf(known + added)
    modifies buf, table
    ensures next == j + 1 + |text| && SamePrefix(old(buf[..]), buf[..], j0)
    ensures EntriesOf(table) == known + more
    ensures Midway(buf[..], j0, name, next, tail, known, more, table == null)
  {
    hide DotAt, LabelAt, Midway, NamesOf, Learn, Split;
    SplitIs(rest, text, tail);
    ghost var p := buf[..];
    ghost var extra := Remember(table, rest, j);
    more := added + extra;
    assert EntriesOf(table) == known + more;
    next := PutLabel(buf, j, text);
    MidwayNext(p, buf[..], j0, name, j, rest, text, tail, known, added, more, table == null);
  }

  lemma SplitIs(rest: Bytes, text: Bytes, tail: Bytes)
    requires Split(rest, |text|, text, tail)
    ensures |text| <= MAX_LABEL && DotAt(rest) == |text| < |rest| && rest[|text| + 1..] == tail
  {
  }

  lemma MidwayNext(p: Bytes, q: Bytes, j0: nat, name: Bytes, j: nat, rest: Bytes, text: Bytes, tail: Bytes,
                   known: seq<Entry>, added: seq<Entry>, more: seq<Entry>, plain: bool)
    requires Midway(p, j0, name, j, rest, known, added, plain) && SamePrefix(p, q, j)
    requires Split(rest, |text|, text, tail) && WrittenAt(q, j, text) && rest !in NamesOf(known + added)
    requires more == added || (more == added + [Entry(rest, j)] && j < POINTER_LIMIT)
    requires !plain ==> Learn(NamesOf(known + added), rest) == Learn(NamesOf(known + more), tail)
    ensures SamePrefix(p, q, j0)
    ensures Midway(q, j0, name, j + 1 + |text|, tail, known, more, plain)
  {
    hide Midway, Encoding, NamesOf, Learn, Plain, LabelsFit, LabelBytes, DotAt;
    MidwayEncoding(p, j0, name, j, rest, known, added, plain);
    NotKnown(known, added, known + added, rest);
    EncodingNext(p, q, j0, name, j, rest, text, tail, known, added, more);
    LabelPlain(rest, text, tail);
    BytesNext(p, q, j0, j, text, Plain(rest), Plain(tail));
    MidwayFold(p, q, j0, name, j, rest, j + 1 + |text|, tail, known, added, more, plain);
  }

  lemma EncodingNext(p: Bytes, q: Bytes, j0: nat, name: Bytes, j: nat, rest: Bytes, text: Bytes, tail: Bytes,
                     known: seq<Entry>, added: seq<Entry>, more: seq<Entry>)
    requires Encoding(p, j0, name, j, rest, known, added) && SamePrefix(p, q, j)
    requires Split(rest, |text|, text, tail) && WrittenAt(q, j, text) && rest !in NamesOf(known)
    requires more == added || (more == added + [Entry(rest, j)] && j < POINTER_LIMIT)
    ensures Encoding(q, j0, name, j + 1 + |text|, tail, known, more)
  {
    hide Encoding, NamesOf, DotAt;
    assert FirstWritten(q, j, rest, |text|);
    hide FirstWritten;
    if more == added {
      EncodeNext(p, q, j0, name, j, rest, |text|, known, added, []);
      assert added + [] == added;
    } else {
      EncodeNext(p, q, j0, name, j, rest, |text|, known, added, [Entry(rest, j)]);
    }
  }

  lemma MidwayEncoding(p: Bytes, j0: nat, name: Bytes, j: nat, rest: Bytes, known: seq<Entry>, added: seq<Entry>, plain: bool)
    requires Midway(p, j0, name, j, rest, known, added, plain)
    ensures Encoding(p, j0, name, j, rest, known, added) && j0 <= j <= |p|
  {
  }

  /** The first label of a name in its encoding. */
  lemma LabelPlain(rest: Bytes, text: Bytes, tail: Bytes)
    requires Split(rest, |text|, text, tail)
    ensures |tail| == |rest| - |text| - 1 && Plain(rest) == LabelBytes(text) + Plain(tail)
    ensures LabelsFit(rest) <==> LabelsFit(tail)
  {
  }

  lemma BytesNext(p: Bytes, q: Bytes, j0: nat, j: nat, text: Bytes, whole: Bytes, more: Bytes)
    requires j0 <= j && SamePrefix(p, q, j) && WrittenAt(q, j, text) && |text| <= MAX_LABEL && whole == LabelBytes(text) + more
    ensures SamePrefix(p, q, j0) && q[j0..j + 1 + |text|] + more == p[j0..j] + whole
  {
    Prefixes(p, q, j0, j);
    Written(p, q, j0, j, text);
    hide LabelBytes;
    Regroup(p[j0..j], LabelBytes(text), more);
  }

  lemma MidwayFold(p: Bytes, q: Bytes, j0: nat, name: Bytes, j: nat, rest: Bytes, next: nat, tail: Bytes,
                   known: seq<Entry>, added: seq<Entry>, more: seq<Entry>, plain: bool)
    requires Midway(p, j0, name, j, rest, known, added, plain) && Encoding(q, j0, name, next, tail, known, more)
    requires next + |tail| == j + |rest| && (LabelsFit(rest) <==> LabelsFit(tail)) && j0 <= j <= |p| && j0 <= next <= |q|
    requires plain ==> q[j0..next] + Plain(tail) == p[j0..j] + Plain(rest)
    requires !plain ==> Learn(NamesOf(known + added), rest) == Learn(NamesOf(known + more), tail)
    ensures Midway(q, j0, name, next, tail, known, more, plain)
  {
    hide Encoding, NamesOf, Learn, Plain, LabelsFit;
  }

  /** Adds a suffix to the table, if there is one with room. */
  method Remember(table: LabelTable?, rest: Bytes, j: nat) returns (ghost extra: seq<Entry>)
    modifies table
    requires rest !in NamesOf(EntriesOf(table))
    ensures extra == [] || extra == [Entry(rest, j)]
    ensures EntriesOf(table) == old(EntriesOf(table)) + extra
    ensures table != null ==>
              var d := DotAt(rest);
              Learn(old(NamesOf(table.entries)), rest) == if d < |rest| then Learn(NamesOf(table.entries), rest[d + 1..]) else NamesOf(table.entries)
  {
    extra := [];
    if table != null {
      extra := if |table.entries| < MAX_LABELS then [Entry(rest, j)] else [];
      ghost var es := table.entries;
      table.Add(rest, j);
      LearnOne(es, rest, j, table.entries);
    }
  }

  /** Writes the last label, which may be empty, and the terminating zero unless
      the empty label was one already. */
  method EmitLast(buf: array<Byte>, j0: nat, ghost name: Bytes, j: nat, rest: Bytes, table: LabelTable?,
                  ghost known: seq<Entry>, ghost added: seq<Entry>) returns (r: int)
    requires |rest| == DotAt(rest) <= MAX_LABEL && j + 1 + |rest| < buf.Length && j < POINTER_LIMIT
    requires Midway(buf[..], j0, name, j, rest, known, added, table == null) && EntriesOf(table) == known + added
    requires NoZeros(rest) && rest !in NamesOf(known + added)
    modifies buf, table
    ensures buf[..j0] == old(buf[..j0]) && r == j + 1 + |rest| + (if rest == [] then 0 else 1)
    ensures Finished(buf[..], j0, name, r, known, EntriesOf(table), table == null)
  {
    ghost var p := buf[..];
    hide Denotes, Labels, After, DotAt, Midway, Finished, Plain, LabelAt, NamesOf, Learn;
    ghost var extra := Remember(table, rest, j);
    r := PutLast(buf, j, rest);
    FinalLabel(buf[..], j, rest, r);
    LastWritten(p, buf[..], j0, name, j, rest, r, known, added, extra, table == null);
  }

  lemma LastWritten(p: Bytes, q: Bytes, j0: nat, name: Bytes, j: nat, rest: Bytes, r: nat,
                    known: seq<Entry>, added: seq<Entry>, extra: seq<Entry>, plain: bool)
    requires Midway(p, j0, name, j, rest, known, added, plain) && |p| == |q| && p[..j] == q[..j]
    requires |rest| == DotAt(rest) && j < r <= |q| && r <= j + |rest| + 2
    requires Denotes(q, j, r, Labels(rest)) && After(q, j, r, Labels(rest)) == r && q[j..r] == Plain(rest)
    requires extra == [] || (extra == [Entry(rest, j)] && j < POINTER_LIMIT)
    requires !plain ==> Learn(NamesOf(known + added), rest) == NamesOf(known + added + extra)
    ensures j0 <= j && q[..j0] == p[..j0] && Finished(q, j0, name, r, known, known + added + extra, plain)
  {
    assert Complete(NamesOf(known), rest);
    hide Denotes, Labels, After, DotAt, Encoding, Plain, Encoded, Complete, NamesOf, Learn, LabelsFit;
    EncodingBounds(p, j0, name, j, rest, known, added);
    Prefixes(p, q, j0, j);
    EncodeDone(p, q, j0, name, j, rest, r, known, added, extra);
    JoinSlices(p, q, j0, j, r);
  }

  lemma NotKnown(known: seq<Entry>, added: seq<Entry>, es: seq<Entry>, rest: Bytes)
    requires es == known + added
    ensures rest !in NamesOf(es) ==> rest !in NamesOf(known)
  {
    assert forall i :: 0 <= i < |known| ==> NamesOf(es)[i] == NamesOf(known)[i];
  }

  lemma JoinSlices(p: Bytes, q: Bytes, lo: nat, mid: nat, hi: nat)
    requires lo <= mid <= hi <= |q| && |p| == |q| && p[..mid] == q[..mid]
    ensures q[lo..hi] == p[lo..mid] + q[mid..hi]
  {
    assert p[lo..mid] == p[..mid][lo..] == q[..mid][lo..] == q[lo..mid];
  }

  method PutLast(buf: array<Byte>, j: nat, rest: Bytes) returns (r: nat)
    requires |rest| == DotAt(rest) <= MAX_LABEL && j + 1 + |rest| < buf.Length && NoZeros(rest)
    modifies buf
    ensures buf[..j] == old(buf[..j]) && r == j + 1 + |rest| + (if rest == [] then 0 else 1)
    ensures buf[r - 1] == 0 && (rest == [] ==> buf[j] == 0) && (rest != [] ==> LabelAt(buf[..], j, rest))
    ensures buf[j..r] == Plain(rest)
  {
    assert Plain(rest) == LabelBytes(rest) + (if rest == [] then [] else [0]);
    hide Plain, DotAt;
    var k := PutLabel(buf, j, rest);
    assert buf[j..k] == LabelBytes(rest);
    if rest != [] { assert buf[k - 1] == buf[j + 1..k][|rest| - 1] == rest[|rest| - 1]; }
    if k == 0 || buf[k - 1] != 0 {
      ghost var q := buf[..];
      buf[k] := 0;
      k := k + 1;
      LabelFrame(q, buf[..], j, rest);
      assert buf[j..k] == q[j..k - 1] + [0];
    }
    r := k;
  }

  /** The bytes of a name after one more label. */
  lemma Written(p: Bytes, q: Bytes, j0: nat, j: nat, text: Bytes)
    requires j0 <= j && j + 1 + |text| <= |q| && |p| == |q| && p[..j] == q[..j] && |text| <= MAX_LABEL
    requires q[j] == |text| && q[j + 1..j + 1 + |text|] == text
    ensures q[j0..j + 1 + |text|] == p[j0..j] + LabelBytes(text)
  {
    assert p[j0..j] == p[..j][j0..] == q[..j][j0..] == q[j0..j];
    assert q[j0..j + 1 + |text|] == q[j0..j] + [q[j]] + q[j + 1..j + 1 + |text|];
  }

  lemma EncodingBounds(p: Bytes, j0: nat, name: Bytes, j: nat, rest: Bytes, known: seq<Entry>, added: seq<Entry>)
    requires Encoding(p, j0, name, j, rest, known, added)
    ensures j0 <= j <= |p|
  {
  }

  lemma LabelFrame(q: Bytes, q': Bytes, j: nat, text: Bytes)
    requires LabelAt(q, j, text) && |q'| == |q| && q'[..j + 1 + |text|] == q[..j + 1 + |text|]
    ensures LabelAt(q', j, text)
  {
    var n := j + 1 + |text|;
    assert q'[j] == q'[..n][j] == q[..n][j] == q[j];
    assert q'[j + 1..n] == q'[..n][j + 1..] == q[..n][j + 1..] == q[j + 1..n];
  }
}
