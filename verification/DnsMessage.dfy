/** Whole DNS messages of libevent/evdns.c: every name written into a message
    with the shared compression table parses back. */
module DnsMessage {
  import opened ByteStrings
  import opened DnsNames
  import opened DnsParse
  import opened DnsEncode

  const MAX_RESPONSE: nat := 512

  /** What is written between names: record type, class and the like. */
  datatype Item = Item(name: Bytes, trailer: Bytes)

  /** What an item takes without compression, or somewhat less. */
  function Size(item: Item): nat {
    |item.name| + 2 + |item.trailer|
  }

  function Sizes(items: seq<Item>, n: nat): (r: nat)
    requires n <= |items|
  {
    if n == 0 then 0 else Sizes(items, n - 1) + Size(items[n - 1])
  }

  lemma {:induction false} SizesGrow(items: seq<Item>, n: nat, m: nat)
    requires n <= m <= |items|
    ensures Sizes(items, n) <= Sizes(items, m)
  {
    if n < m {
      SizesGrow(items, n, m - 1);
    }
  }

  /** The encoder takes the name. */
  predicate Regular(item: Item) {
    |item.name| <= 255 && LabelsFit(item.name)
  }

  /** The suffixes that the table knows after the first `n` items. */
  function Taught(items: seq<Item>, n: nat): seq<Bytes>
    requires n <= |items|
  {
    if n == 0 then [] else Learn(Taught(items, n - 1), items[n - 1].name)
  }

  /** Some bytes stand in a packet. */
  ghost predicate StandsAt(p: Bytes, at: nat, data: Bytes)
  {
    at + |data| <= |p| && p[at..at + |data|] == data
  }

  lemma StandsFrame(p: Bytes, q: Bytes, at: nat, data: Bytes, n: nat)
    requires StandsAt(p, at, data) && at + |data| <= n <= |p| && n <= |q| && p[..n] == q[..n]
    ensures StandsAt(q, at, data)
  {
    assert p[at..at + |data|] == p[..n][at..at + |data|] == q[..n][at..at + |data|] == q[at..at + |data|];
  }

  lemma TaughtNext(items: seq<Item>, n: nat)
    requires n < |items|
    ensures Taught(items, n + 1) == Learn(Taught(items, n), items[n].name)
  {
  }

  /** A name survives in a message: it has no empty label, or it is only a dot and the
      table knows that, so that it is written as a pointer. */
  predicate Survives(items: seq<Item>, i: nat)
    requires i < |items|
  {
    WellFormed(items[i].name) || (items[i].name == [DOT] && [DOT] in Taught(items, i))
  }

  /** The first `n` names and trailers fill the stretch from `j0` to `j` without
      gaps. */
  ghost predicate Consecutive(items: seq<Item>, starts: seq<nat>, ends: seq<nat>, n: nat, j0: nat, j: nat)
  {
    && n <= |items| && |starts| == |ends| == n
    && (forall i :: 0 <= i < n ==> starts[i] == if i == 0 then j0 else ends[i - 1] + |items[i - 1].trailer|)
    && j == if n == 0 then j0 else ends[n - 1] + |items[n - 1].trailer|
  }

  /** Copies bytes that are known to fit. */
  method PutBytes(buf: array<Byte>, j: nat, data: Bytes)
    requires j + |data| <= buf.Length
    modifies buf
    ensures buf[..j] == old(buf[..j]) && buf[j..j + |data|] == data
  {
    for k := 0 to |data|
      invariant buf[..j] == old(buf[..j]) && buf[j..j + k] == data[..k]
    {
      buf[j + k] := data[k];
    }
    assert data[..|data|] == data;
  }

  lemma SamePrefixStep(q: Bytes, r: Bytes, n: nat, m: nat)
    requires SamePrefix(q, r, m) && n <= m
    ensures forall p :: SamePrefix(p, q, n) ==> SamePrefix(p, r, n)
  {
    Prefixes(q, r, n, m);
  }

  /** Writes names and trailers one after the other, as
      evdns_server_request_format_response does, and cuts the response to 512 bytes if one
      does not fit in the buffer or they end behind that. Every name that ends within the
      response parses from it to its labels up to the first empty one; it comes back, up to a
      trailing dot and with the index behind it, if and only if it survives; and what goes
      behind a name stands there. */
  method WriteMessage(buf: array<Byte>, bufLen: nat, j0: nat, items: seq<Item>)
    returns (len: nat, cut: bool, ghost starts: seq<nat>, ghost ends: seq<nat>, ghost end: nat)
    requires j0 <= MAX_RESPONSE <= bufLen < buf.Length && bufLen <= POINTER_LIMIT
    requires forall i :: 0 <= i < |items| ==> NoZeros(items[i].name)
    modifies buf
    ensures SamePrefix(old(buf[..]), buf[..], j0)
    ensures Consecutive(items, starts, ends, |starts|, j0, end) && end <= bufLen + 1
    ensures cut <==> |starts| < |items| || end > MAX_RESPONSE
    ensures (forall i :: 0 <= i < |items| ==> Regular(items[i])) && j0 + Sizes(items, |items|) <= MAX_RESPONSE ==> !cut
    ensures len == if cut then MAX_RESPONSE else end
    ensures AllParse(buf[..len], items, starts, ends)
  {
    var j;
    j, starts, ends, end := WriteItems(buf, bufLen, j0, items);
    ProgressConsecutive(buf[..], items, |starts|, starts, ends, j0, end);
    cut := j < 0 || j > MAX_RESPONSE;
    len := if cut then MAX_RESPONSE else j;
    ParseAll(buf[..], items, |starts|, starts, ends, j0, end, len);
    assert buf[..][..len] == buf[..len];
  }

  /** The items, until one does not fit; `end` is behind the last that did. */
  method WriteItems(buf: array<Byte>, bufLen: nat, j0: nat, items: seq<Item>)
    returns (r: int, ghost starts: seq<nat>, ghost ends: seq<nat>, ghost end: nat)
    requires j0 <= bufLen < buf.Length && bufLen <= POINTER_LIMIT
    requires forall i :: 0 <= i < |items| ==> NoZeros(items[i].name)
    modifies buf
    ensures SamePrefix(old(buf[..]), buf[..], j0) && -2 <= r && end <= bufLen + 1
    ensures |starts| <= |items| && Progress(buf[..], items, |starts|, starts, ends, j0, end)
    ensures r >= 0 <==> |starts| == |items|
    ensures r >= 0 ==> r == end && end <= j0 + Sizes(items, |items|)
    ensures (forall i :: 0 <= i < |items| ==> Regular(items[i])) && j0 + Sizes(items, |items|) <= bufLen ==> r >= 0
  {
    hide Progress, TableOk, NoZeros, Regular, Learn, Taught, NamesOf, Size;
    var table := new LabelTable();
    r, starts, ends, end := j0, [], [], j0;
    ghost var p0 := buf[..];
    assert SamePrefix(p0, buf[..], j0);
    NoProgress(buf[..], items, j0);
    ghost var easy := (forall i :: 0 <= i < |items| ==> Regular(items[i])) && j0 + Sizes(items, |items|) <= bufLen;
    var i := 0;
    while i < |items| && r >= 0
      invariant i <= |items| && -2 <= r && j0 <= end <= bufLen + 1 && fresh(table) && SamePrefix(p0, buf[..], j0)
      invariant |starts| <= |items| && Progress(buf[..], items, |starts|, starts, ends, j0, end)
      invariant r >= 0 ==> r == end && |starts| == i && TableOk(buf[..], r, table.entries) && NamesOf(table.entries) == Taught(items, i)
      invariant r < 0 ==> |starts| < |items|
      invariant r >= 0 ==> r <= j0 + Sizes(items, i)
      invariant easy ==> r >= 0
    {
      SizesGrow(items, i, |items|);
      SizesGrow(items, i + 1, |items|);
      if r > bufLen {
        r := -2;
      } else {
        r, starts, ends := WriteNext(buf, bufLen, j0, r, items, i, table, starts, ends);
        end := if r >= 0 then r else end;
      }
      i := i + 1;
    }
  }

  lemma NoProgress(p: Bytes, items: seq<Item>, j0: nat)
    requires j0 <= |p|
    ensures Progress(p, items, 0, [], [], j0, j0) && NamesOf([]) == Taught(items, 0) && TableOk(p, j0, [])
  {
  }

  /** Every name that ends within the packet parses to its labels, and comes back with its
      end exactly if it survives; every trailer that ends within it is there. */
  ghost predicate AllParse(p: Bytes, items: seq<Item>, starts: seq<nat>, ends: seq<nat>)
  {
    && |starts| == |ends| <= |items|
    && (forall i :: 0 <= i < |starts| && ends[i] <= |p| ==> ParsesBack(p, items, i, starts[i], ends[i]))
    && (forall i :: 0 <= i < |starts| && ends[i] + |items[i].trailer| <= |p| ==> StandsAt(p, ends[i], items[i].trailer))
  }

  ghost predicate ParsesBack(p: Bytes, items: seq<Item>, i: nat, start: nat, end: nat)
    requires i < |items|
  {
    var name, r := items[i].name, Parse(p, start, 0, [], 256, -1);
    && r.Good? && r.name == Joined([], Labels(name)) && start < r.next <= end
    && (r == Good(Undotted(name), end) <==> Survives(items, i))
  }

  lemma NameBack(p: Bytes, items: seq<Item>, i: nat, start: nat, end: nat)
    requires i < |items| && |items[i].name| <= 255 && Placed(p, items[i].name, start, end, Taught(items, i))
    ensures ParsesBack(p, items, i, start, end)
  {
    var name := items[i].name;
    ParseName(p, start, end, name);
    CompleteIs(Taught(items, i), name);
    JoinExact(name);
    hide Parse, Joined, Labels, WellFormed, Complete, Taught, Undotted, Denotes, After;
  }

  /** The first `n` items fill the stretch from `j0` to `j` without gaps, each name
      between its start and its end and its trailer behind it. */
  ghost predicate Progress(p: Bytes, items: seq<Item>, n: nat, starts: seq<nat>, ends: seq<nat>, j0: nat, j: nat)
    decreases n
  {
    && |starts| == |ends| == n <= |items| && j0 <= j <= |p|
    && if n == 0 then j == j0
       else
         var item := items[n - 1];
         && |item.name| <= 255 && j == ends[n - 1] + |item.trailer| && StandsAt(p, ends[n - 1], item.trailer)
         && Placed(p, item.name, starts[n - 1], ends[n - 1], Taught(items, n - 1))
         && Progress(p, items, n - 1, starts[..n - 1], ends[..n - 1], j0, starts[n - 1])
  }

  lemma {:induction false} ProgressFrame(p: Bytes, q: Bytes, items: seq<Item>, n: nat, starts: seq<nat>,
                                         ends: seq<nat>, j0: nat, j: nat)
    requires Progress(p, items, n, starts, ends, j0, j) && SamePrefix(p, q, j)
    ensures Progress(q, items, n, starts, ends, j0, j)
    decreases n
  {
    if n > 0 {
      hide Placed;
      var item, start, end := items[n - 1], starts[n - 1], ends[n - 1];
      PlacedBounds(p, item.name, start, end, Taught(items, n - 1));
      Prefixes(p, q, start, j);
      Prefixes(p, q, end, j);
      PlacedFrame(p, q, item.name, start, end, Taught(items, n - 1));
      StandsFrame(p, q, end, item.trailer, j);
      ProgressFrame(p, q, items, n - 1, starts[..n - 1], ends[..n - 1], j0, start);
    }
  }

  lemma PlacedBounds(p: Bytes, name: Bytes, start: nat, end: nat, names: seq<Bytes>)
    requires Placed(p, name, start, end, names)
    ensures start < end <= |p|
  {
  }

  lemma ProgressNext(p: Bytes, q: Bytes, items: seq<Item>, n: nat, starts: seq<nat>, ends: seq<nat>,
                     j0: nat, j: nat, r: nat)
    requires Progress(p, items, n, starts, ends, j0, j) && n < |items|
    requires j <= r <= |q| && SamePrefix(p, q, j) && |items[n].name| <= 255
    requires r - |items[n].trailer| >= j && Placed(q, items[n].name, j, r - |items[n].trailer|, Taught(items, n))
    requires StandsAt(q, r - |items[n].trailer|, items[n].trailer)
    ensures Progress(q, items, n + 1, starts + [j], ends + [r - |items[n].trailer|], j0, r)
  {
    hide Placed;
    ProgressFrame(p, q, items, n, starts, ends, j0, j);
    assert (starts + [j])[..n] == starts && (ends + [r - |items[n].trailer|])[..n] == ends;
  }

  /** The next item. */
  method WriteNext(buf: array<Byte>, bufLen: nat, j0: nat, j: nat, items: seq<Item>, i: nat, table: LabelTable,
                   ghost starts: seq<nat>, ghost ends: seq<nat>)
    returns (r: int, ghost starts': seq<nat>, ghost ends': seq<nat>)
    requires j0 <= j <= bufLen < buf.Length && bufLen <= POINTER_LIMIT && i < |items| && NoZeros(items[i].name)
    requires |starts| == i && Progress(buf[..], items, i, starts, ends, j0, j) && TableOk(buf[..], j, table.entries)
    requires NamesOf(table.entries) == Taught(items, i)
    modifies buf, table
    ensures forall p :: SamePrefix(p, old(buf[..]), j0) ==> SamePrefix(p, buf[..], j0)
    ensures -2 <= r <= bufLen + 1
    ensures r >= 0 ==> j < r && |starts'| == i + 1 && Progress(buf[..], items, i + 1, starts', ends', j0, r)
    ensures r >= 0 ==> TableOk(buf[..], r, table.entries) && NamesOf(table.entries) == Taught(items, i + 1)
    ensures r >= 0 ==> r <= j + Size(items[i])
    ensures Regular(items[i]) && j + Size(items[i]) <= bufLen ==> r >= 0
    ensures r < 0 ==> starts' == starts && ends' == ends && Progress(buf[..], items, i, starts, ends, j0, j)
  {
    hide Progress, Placed, TableOk, Learn, NamesOf, Taught, NoZeros, Regular, Size;
    ghost var p := buf[..];
    starts', ends' := starts, ends;
    r := WriteItem(buf, bufLen, j, items[i], table);
    SamePrefixStep(p, buf[..], j0, j);
    if r >= 0 {
      TaughtNext(items, i);
      ProgressNext(p, buf[..], items, i, starts, ends, j0, j, r);
      starts', ends' := starts + [j], ends + [r - |items[i].trailer|];
    } else {
      ProgressFrame(p, buf[..], items, i, starts, ends, j0, j);
    }
  }

  /** One name and what follows it. */
  method WriteItem(buf: array<Byte>, bufLen: nat, j: nat, item: Item, table: LabelTable) returns (r: int)
    requires j <= bufLen < buf.Length && bufLen <= POINTER_LIMIT && NoZeros(item.name)
    requires TableOk(buf[..], j, table.entries)
    modifies buf, table
    ensures SamePrefix(old(buf[..]), buf[..], j) && -2 <= r <= bufLen + 1
    ensures r >= 0 ==> j < r && |item.name| <= 255 && TableOk(buf[..], r, table.entries)
    ensures r >= 0 ==> r <= j + Size(item)
    ensures Regular(item) && j + Size(item) <= bufLen ==> r >= 0
    ensures r >= 0 ==> r - |item.trailer| >= j && Placed(buf[..], item.name, j, r - |item.trailer|, NamesOf(old(table.entries)))
    ensures r >= 0 ==> NamesOf(table.entries) == Learn(NamesOf(old(table.entries)), item.name)
    ensures r >= 0 ==> StandsAt(buf[..], r - |item.trailer|, item.trailer)
  {
    hide Denotes, After, Labels, Complete, Plain, LabelsFit, NamesOf, Learn;
    r := DnsnameToLabels(buf, bufLen, j, item.name, table);
    if r < 0 || item.trailer == [] {
      return;
    }
    if r + |item.trailer| > bufLen {
      return -2;
    }
    ghost var p := buf[..];
    PutBytes(buf, r, item.trailer);
    Prefixes(p, buf[..], j, r);
    TableFrame(p, buf[..], r, r + |item.trailer|, table.entries);
    PlacedFrame(p, buf[..], item.name, j, r, NamesOf(old(table.entries)));
    r := r + |item.trailer|;
  }

  lemma {:induction false} ProgressConsecutive(p: Bytes, items: seq<Item>, n: nat, starts: seq<nat>,
                                               ends: seq<nat>, j0: nat, j: nat)
    requires Progress(p, items, n, starts, ends, j0, j)
    ensures Consecutive(items, starts, ends, n, j0, j)
    decreases n
  {
    if n > 0 {
      hide Placed;
      ProgressConsecutive(p, items, n - 1, starts[..n - 1], ends[..n - 1], j0, starts[n - 1]);
    }
  }

  /** Item `i` of those placed. */
  lemma {:induction false} ProgressAt(p: Bytes, items: seq<Item>, n: nat, starts: seq<nat>, ends: seq<nat>,
                                      j0: nat, j: nat, i: nat)
    requires Progress(p, items, n, starts, ends, j0, j) && i < n
    ensures |items[i].name| <= 255 && Placed(p, items[i].name, starts[i], ends[i], Taught(items, i)) && ends[i] <= j
    ensures StandsAt(p, ends[i], items[i].trailer)
    decreases n
  {
    hide Placed;
    if i < n - 1 {
      PlacedBounds(p, items[n - 1].name, starts[n - 1], ends[n - 1], Taught(items, n - 1));
      ProgressAt(p, items, n - 1, starts[..n - 1], ends[..n - 1], j0, starts[n - 1], i);
    }
  }

  /** All the names that were placed parse back from the packet, or from the front of it
      that they are in. */
  lemma ParseAll(p: Bytes, items: seq<Item>, n: nat, starts: seq<nat>, ends: seq<nat>, j0: nat, j: nat, len: nat)
    requires Progress(p, items, n, starts, ends, j0, j) && len <= |p|
    ensures AllParse(p[..len], items, starts, ends)
  {
    forall i | 0 <= i < n && ends[i] <= len ensures ParsesBack(p[..len], items, i, starts[i], ends[i]) {
      ProgressAt(p, items, n, starts, ends, j0, j, i);
      assert p[..ends[i]] == p[..len][..ends[i]];
      PlacedFrame(p, p[..len], items[i].name, starts[i], ends[i], Taught(items, i));
      NameBack(p[..len], items, i, starts[i], ends[i]);
    }
    forall i | 0 <= i < n && ends[i] + |items[i].trailer| <= len ensures StandsAt(p[..len], ends[i], items[i].trailer) {
      ProgressAt(p, items, n, starts, ends, j0, j, i);
      assert p[..len] == p[..len][..len];
      StandsFrame(p, p[..len], ends[i], items[i].trailer, len);
    }
  }

  /** What the encoding of a first label looks like in a packet. */
  lemma PlainDot(p: Bytes, pos: nat, name: Bytes, d: nat)
    requires LabelsFit(name) && d == DotAt(name) < |name| && pos + |Plain(name)| <= |p|
    requires p[pos..pos + |Plain(name)|] == Plain(name)
    ensures |Plain(name)| == 1 + d + |Plain(name[d + 1..])| && LabelsFit(name[d + 1..]) && d <= MAX_LABEL
    ensures p[pos] == d && p[pos + 1..pos + 1 + d] == name[..d]
    ensures p[pos + 1 + d..pos + |Plain(name)|] == Plain(name[d + 1..])
  {
    hide Plain, DotAt, LabelsFit;
    PlainSplit(name, d);
    PlainParts(p, pos, name[..d], Plain(name[d + 1..]));
  }

  lemma PlainSplit(name: Bytes, d: nat)
    requires LabelsFit(name) && d == DotAt(name) < |name|
    ensures d <= MAX_LABEL && LabelsFit(name[d + 1..])
    ensures Plain(name) == [d] + name[..d] + Plain(name[d + 1..])
  {
    assert LabelBytes(name[..d]) == [d] + name[..d];
  }

  /** What the encoding of the last label looks like in a packet. */
  lemma PlainLast(p: Bytes, pos: nat, name: Bytes)
    requires |name| == DotAt(name) <= MAX_LABEL && pos + |Plain(name)| <= |p|
    requires p[pos..pos + |Plain(name)|] == Plain(name)
    ensures |Plain(name)| == |name| + (if name == [] then 1 else 2)
    ensures p[pos] == |name| && p[pos + 1..pos + 1 + |name|] == name && p[pos + |Plain(name)| - 1] == 0
  {
    hide Plain, DotAt;
    var more: Bytes := if name == [] then [] else [0];
    PlainEnd(name);
    PlainParts(p, pos, name, more);
    if more != [] { assert p[pos + 1 + |name|..pos + 2 + |name|][0] == p[pos + 1 + |name|]; }
  }

  lemma PlainEnd(name: Bytes)
    requires |name| == DotAt(name) <= MAX_LABEL
    ensures Plain(name) == [|name|] + name + (if name == [] then [] else [0])
  {
    assert LabelBytes(name) == [|name|] + name;
  }

  /** What an uncompressed well-formed name denotes. */
  lemma {:induction false} PlainDenotes(p: Bytes, pos: nat, name: Bytes)
    requires WellFormed(name) && LabelsFit(name) && pos + |Plain(name)| <= |p|
    requires p[pos..pos + |Plain(name)|] == Plain(name)
    ensures Denotes(p, pos, pos + |Plain(name)|, Labels(name))
    ensures After(p, pos, pos + |Plain(name)|, Labels(name)) == pos + |Plain(name)|
    decreases |name|
  {
    hide Plain, DotAt, Labels, WellFormed, LabelsFit, Denotes, After;
    var d, n := DotAt(name), |Plain(name)|;
    WellFormedStep(name, d);
    LastFits(name, d);
    if d < |name| {
      LabelsStep(name, d);
      PlainDot(p, pos, name, d);
      PlainDenotes(p, pos + 1 + d, name[d + 1..]);
      LabelThen(p, pos, name[..d], pos + n, Labels(name[d + 1..]));
    } else {
      PlainLastDenotes(p, pos, name);
    }
  }

  lemma LastFits(name: Bytes, d: nat)
    requires LabelsFit(name) && d == DotAt(name)
    ensures d <= |name| && d <= MAX_LABEL
  {
  }

  lemma PlainLastDenotes(p: Bytes, pos: nat, name: Bytes)
    requires |name| == DotAt(name) <= MAX_LABEL && pos + |Plain(name)| <= |p|
    requires p[pos..pos + |Plain(name)|] == Plain(name)
    ensures Denotes(p, pos, pos + |Plain(name)|, Labels(name))
    ensures After(p, pos, pos + |Plain(name)|, Labels(name)) == pos + |Plain(name)|
  {
    hide Plain, DotAt, Labels, WellFormed, Denotes, After;
    PlainLast(p, pos, name);
    FinalLabel(p, pos, name, pos + |Plain(name)|);
  }

  lemma WellFormedStep(name: Bytes, d: nat)
    requires d == DotAt(name)
    ensures WellFormed(name) <==> (d < |name| ==> d > 0 && WellFormed(name[d + 1..]))
  {
  }

  lemma LabelsStep(name: Bytes, d: nat)
    requires 0 < d == DotAt(name) < |name|
    ensures Labels(name) == [name[..d]] + Labels(name[d + 1..])
  {
  }

  lemma PlainParts(p: Bytes, pos: nat, text: Bytes, more: Bytes)
    requires |text| <= MAX_LABEL && pos + 1 + |text| + |more| <= |p|
    requires p[pos..pos + 1 + |text| + |more|] == [|text|] + text + more
    ensures p[pos] == |text| && p[pos + 1..pos + 1 + |text|] == text
    ensures p[pos + 1 + |text|..pos + 1 + |text| + |more|] == more
  {
    var here, n := p[pos..pos + 1 + |text| + |more|], |text|;
    var w: Bytes := [n] + text + more;
    assert p[pos] == here[0] == w[0];
    assert here == w && w[1..1 + n] == text && w[1 + n..] == more;
    forall k | 0 <= k < n ensures p[pos + 1 + k] == text[k] {
      assert p[pos + 1 + k] == here[1 + k] == w[1 + k];
    }
    forall k | 0 <= k < |more| ensures p[pos + 1 + n + k] == more[k] {
      assert p[pos + 1 + n + k] == here[1 + n + k] == w[1 + n + k];
    }
  }

  /** An empty label ends the parse before the end of what was written. */
  lemma {:induction false} PlainCutShort(p: Bytes, pos: nat, name: Bytes, out: Bytes, cap: nat)
    requires !WellFormed(name) && LabelsFit(name) && pos + |Plain(name)| <= |p|
    requires p[pos..pos + |Plain(name)|] == Plain(name)
    ensures var r := Parse(p, pos, 0, out, cap, -1); r.Good? ==> r.next < pos + |Plain(name)|
    decreases |name|
  {
    hide Plain, DotAt, WellFormed, LabelsFit, Parse;
    var d := DotAt(name);
    WellFormedStep(name, d);
    PlainDot(p, pos, name, d);
    if d > 0 {
      PlainCutShort(p, pos + 1 + d, name[d + 1..], Lead(out) + name[..d], cap);
      ParseLabel(p, pos, d, out, cap);
    } else {
      ParseZero(p, pos, out, cap);
      assert Plain(name[d + 1..]) != [];
    }
  }

  lemma ParseZero(p: Bytes, pos: nat, out: Bytes, cap: nat)
    requires pos < |p| && p[pos] == 0
    ensures var r := Parse(p, pos, 0, out, cap, -1); r.Good? ==> r.next == pos + 1
  {
  }

  /** How the parser takes one label. */
  lemma ParseLabel(p: Bytes, pos: nat, d: nat, out: Bytes, cap: nat)
    requires pos + 1 + d <= |p| && p[pos] == d && 0 < d <= MAX_LABEL
    ensures Parse(p, pos, 0, out, cap, -1).Bad? ||
            Parse(p, pos, 0, out, cap, -1) == Parse(p, pos + 1 + d, 0, Lead(out) + p[pos + 1..pos + 1 + d], cap, -1)
  {
  }

  /** Without compression, a name with short labels parses back, up to a trailing
      dot and with the index behind it, exactly when it is well formed. */
  lemma PlainRoundTrip(p: Bytes, pos: nat, name: Bytes)
    requires LabelsFit(name) && |name| <= 255 && pos + |Plain(name)| <= |p|
    requires p[pos..pos + |Plain(name)|] == Plain(name)
    ensures Parse(p, pos, 0, [], 256, -1) == Good(Undotted(name), pos + |Plain(name)|) <==> WellFormed(name)
  {
    hide Plain, Parse, Labels, LabelsFit, DotAt, Denotes, Joined, After;
    if WellFormed(name) {
      PlainDenotes(p, pos, name);
      ParseName(p, pos, pos + |Plain(name)|, name);
      JoinExact(name);
    } else {
      PlainCutShort(p, pos, name, [], 256);
    }
  }

  /** The size of an uncompressed name. The encoder makes sure that all but a
      final zero fits, so the index it returns passes the end of the buffer by one
      exactly when the name does not end in a dot and all but the zero fills it. */
  lemma {:induction false} PlainLength(name: Bytes)
    ensures |Plain(name)| == |name| + 1 + (if Undotted(name) == name && name != [] then 1 else 0)
    decreases |name|
  {
    var d := DotAt(name);
    UndottedIs(name);
    if d < |name| {
      var rest := name[d + 1..];
      PlainLength(rest);
      UndottedIs(rest);
      assert rest != [] ==> name[|name| - 1] == rest[|rest| - 1];
      hide DotAt, Undotted;
    } else if name != [] {
      assert name[|name| - 1] != DOT;
    }
  }

  lemma UndottedIs(name: Bytes)
    ensures name != [] ==> (Undotted(name) == name <==> name[|name| - 1] != DOT)
  {
    if name != [] { assert |name[..|name| - 1]| < |name|; }
  }

  /** Two dots in a row cut a name short. */
  lemma DoubleDotIsCutShort()
    ensures var name: Bytes := [97, DOT, DOT, 98];
            var packet := Plain(name);
            !WellFormed(name) && packet == [1, 97, 0, 1, 98, 0]
            && Parse(packet, 0, 0, [], 256, -1) == Good([97], 3)
  {
    var name: Bytes := [97, DOT, DOT, 98];
    assert name[1..] == [DOT, DOT, 98] && name[2..] == [DOT, 98] && name[3..] == [98];
    assert DotAt(name) == 1 && DotAt(name[2..]) == 0 && DotAt([98]) == 1 by {
      DotIs(name, 1);
      DotIs(name[2..], 0);
      DotIs([98], 1);
    }
    assert name[2..][1..] == [98] && name[..1] == [97] && name[2..][..0] == [];
    assert Plain([98]) == [1, 98, 0];
    assert Plain([DOT, 98]) == [0, 1, 98, 0];
    var packet := Plain(name);
    assert packet == [1, 97, 0, 1, 98, 0];
    assert packet[1..2] == [97];
    assert Parse(packet, 2, 0, [97], 256, -1) == Good([97], 3);
  }

  /** A name that is only a dot does not survive the first time, and does the second: the
      pointer leads to the zero of the first. */
  lemma DotSurvivesTwice(first: Bytes, second: Bytes)
    ensures var items := [Item([DOT], first), Item([DOT], second)];
            !Survives(items, 0) && Survives(items, 1)
    ensures Parse([0, 0, 192, 0], 2, 0, [], 256, -1) == Good([], 4) && Undotted([DOT]) == []
  {
    var items := [Item([DOT], first), Item([DOT], second)];
    DotIs([DOT], 0);
    DotIs([], 0);
    assert [DOT][1..] == [] && Taught(items, 0) == [];
    assert Learn([], [DOT]) == Learn([[DOT]], []);
    assert Taught(items, 1) == Learn([], [DOT]) == [[DOT], []];
    var packet: Bytes := [0, 0, 192, 0];
    assert Parse(packet, 0, 1, [], 256, 4) == Good([], 4);
  }

  lemma DotIs(s: Bytes, d: nat)
    requires d <= |s| && (d < |s| ==> s[d] == DOT) && forall k :: 0 <= k < d ==> s[k] != DOT
    ensures DotAt(s) == d
  {
  }
}
