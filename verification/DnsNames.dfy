/** Domain names in DNS messages: what a stretch of a packet denotes under the
    compression scheme of section 4.1.4 of RFC 1035, and what the parser of
    libevent/evdns.c makes of it. */
module DnsNames {
  import opened ByteStrings

  const DOT: Byte := 46
  /** Compression pointers carry 14 bits. */
  const POINTER_LIMIT: nat := 0x4000
  const MAX_LABEL: nat := 63

  /** The index of the first dot from `i` on, or the length if there is none. */
  function DotFrom(s: Bytes, i: nat): (d: nat)
    requires i <= |s|
    ensures i <= d <= |s| && (d < |s| ==> s[d] == DOT)
    ensures forall k :: i <= k < d ==> s[k] != DOT
    decreases |s| - i
  {
    if i == |s| || s[i] == DOT then i else DotFrom(s, i + 1)
  }

  /** The index of the first dot, or the length if there is none. */
  function DotAt(s: Bytes): (d: nat)
    ensures d <= |s| && (d < |s| ==> s[d] == DOT)
    ensures forall k :: 0 <= k < d ==> s[k] != DOT
  {
    DotFrom(s, 0)
  }

  /** The labels of a dotted name up to the first empty one, where a reader stops; a
      trailing dot adds none. */
  function Labels(name: Bytes): (r: seq<Bytes>)
    decreases |name|
  {
    var d := DotAt(name);
    if d < |name| then if d == 0 then [] else [name[..d]] + Labels(name[d + 1..])
    else if name == [] then [] else [name]
  }

  /** No label is empty: no leading dot and no two dots in a row. */
  predicate WellFormed(name: Bytes)
    decreases |name|
  {
    var d := DotAt(name);
    d < |name| ==> d > 0 && WellFormed(name[d + 1..])
  }

  /** A name with its trailing dot, if any, taken off. */
  function Undotted(name: Bytes): Bytes
  {
    if name != [] && name[|name| - 1] == DOT then name[..|name| - 1] else name
  }

  function Target(p: Bytes, pos: nat): nat
    requires pos + 1 < |p|
  {
    (p[pos] as int % 64) * 256 + p[pos + 1]
  }

  /** A pointer has two bits set and then 14 bits, the high-order ones first. */
  lemma PointerFormat(p: Bytes, pos: nat, high: nat, low: nat)
    requires pos + 1 < |p| && high < 64 && p[pos] == 192 + high && p[pos + 1] == low
    ensures p[pos] > MAX_LABEL && Target(p, pos) == 256 * high + low
  {
  }

  /** A length byte and that many bytes. */
  predicate LabelAt(p: Bytes, pos: nat, text: Bytes)
  {
    && 0 < |text| <= MAX_LABEL
    && pos + 1 + |text| <= |p|
    && p[pos] == |text|
    && p[pos + 1..pos + 1 + |text|] == text
  }

  /** The bytes of `p` from `pos` on, none of them at `lim` or beyond, denote the
      labels: each is spelled out, or the rest is given by a pointer to something
      that lies entirely before the pointer. */
  ghost predicate Denotes(p: Bytes, pos: nat, lim: nat, labels: seq<Bytes>)
    decreases |labels|, lim
  {
    && pos < lim <= |p|
    && if p[pos] == 0 then labels == []
       else if p[pos] > MAX_LABEL then
         pos + 2 <= lim && Target(p, pos) < pos && Denotes(p, Target(p, pos), pos, labels)
       else
         && labels != [] && LabelAt(p, pos, labels[0]) && pos + 1 + |labels[0]| <= lim
         && Denotes(p, pos + 1 + |labels[0]|, lim, labels[1..])
  }

  /** Where reading goes on after such a name: behind the zero or the first
      pointer. */
  ghost function After(p: Bytes, pos: nat, lim: nat, labels: seq<Bytes>): (r: nat)
    requires Denotes(p, pos, lim, labels)
    ensures pos < r <= lim
    decreases |labels|
  {
    if p[pos] == 0 then pos + 1
    else if p[pos] > MAX_LABEL then pos + 2
    else After(p, pos + 1 + |labels[0]|, lim, labels[1..])
  }

  /** Only the bytes before the limit matter, and a larger limit does no harm. */
  lemma {:induction false} DenotesFrame(p: Bytes, q: Bytes, pos: nat, lim: nat, lim': nat, labels: seq<Bytes>)
    requires Denotes(p, pos, lim, labels) && lim <= lim' <= |q| && p[..lim] == q[..lim]
    ensures Denotes(q, pos, lim', labels)
    ensures After(q, pos, lim', labels) == After(p, pos, lim, labels)
    decreases |labels|, lim
  {
    assert forall i :: 0 <= i < lim ==> p[..lim][i] == p[i] && q[..lim][i] == q[i];
    if p[pos] == 0 {
    } else if p[pos] > MAX_LABEL {
      assert p[..pos] == p[..lim][..pos] == q[..lim][..pos] == q[..pos];
      DenotesFrame(p, q, Target(p, pos), pos, pos, labels);
    } else {
      var next := pos + 1 + |labels[0]|;
      assert p[pos + 1..next] == p[..lim][pos + 1..next] == q[..lim][pos + 1..next] == q[pos + 1..next];
      DenotesFrame(p, q, next, lim, lim', labels[1..]);
    }
  }

  /** Spelling out the labels of `v` from `pos` on leads to `j`, where `rest` is
      still to come. */
  ghost predicate Reaches(p: Bytes, pos: nat, v: Bytes, j: nat, rest: Bytes)
    decreases |v|
  {
    || (v == rest && pos == j)
    || var d := DotAt(v);
       0 < d < |v| && LabelAt(p, pos, v[..d]) && Reaches(p, pos + 1 + d, v[d + 1..], j, rest)
  }

  /** The next label of the rest has been written. */
  lemma {:induction false} ReachesFurther(p: Bytes, pos: nat, v: Bytes, j: nat, rest: Bytes)
    requires Reaches(p, pos, v, j, rest)
    requires var d := DotAt(rest); 0 < d < |rest| && LabelAt(p, j, rest[..d])
    ensures var d := DotAt(rest); Reaches(p, pos, v, j + 1 + d, rest[d + 1..])
    decreases |v|
  {
    hide DotAt, LabelAt;
    if !(v == rest && pos == j) {
      var d := DotAt(v);
      ReachesFurther(p, pos + 1 + d, v[d + 1..], j, rest);
    } else {
      var d := DotAt(v);
      assert Reaches(p, pos + 1 + d, v[d + 1..], j + 1 + d, v[d + 1..]);
    }
  }

  /** Once the rest is denoted, so is the whole. */
  lemma {:induction false} ReachesDenotes(p: Bytes, pos: nat, v: Bytes, j: nat, rest: Bytes, lim: nat)
    requires Reaches(p, pos, v, j, rest) && Denotes(p, j, lim, Labels(rest))
    ensures Denotes(p, pos, lim, Labels(v))
    ensures After(p, pos, lim, Labels(v)) == After(p, j, lim, Labels(rest))
    decreases |v|
  {
    hide DotAt;
    if !(v == rest && pos == j) {
      var d := DotAt(v);
      ReachesDenotes(p, pos + 1 + d, v[d + 1..], j, rest, lim);
      LabelThen(p, pos, v[..d], lim, Labels(v[d + 1..]));
      assert Labels(v) == [v[..d]] + Labels(v[d + 1..]);
    }
  }

  /** A label in front of what is already denoted. */
  lemma LabelThen(p: Bytes, pos: nat, text: Bytes, lim: nat, labels: seq<Bytes>)
    requires LabelAt(p, pos, text) && Denotes(p, pos + 1 + |text|, lim, labels)
    ensures Denotes(p, pos, lim, [text] + labels)
    ensures After(p, pos, lim, [text] + labels) == After(p, pos + 1 + |text|, lim, labels)
  {
    assert ([text] + labels)[1..] == labels;
  }

  lemma {:induction false} ReachesFrame(p: Bytes, q: Bytes, pos: nat, v: Bytes, j: nat, rest: Bytes)
    requires Reaches(p, pos, v, j, rest) && j <= |p| && j <= |q| && p[..j] == q[..j]
    ensures pos <= j && Reaches(q, pos, v, j, rest)
    decreases |v|
  {
    if !(v == rest && pos == j) {
      var d := DotAt(v);
      ReachesFrame(p, q, pos + 1 + d, v[d + 1..], j, rest);
      assert p[pos] == p[..j][pos] == q[..j][pos] == q[pos];
      assert p[pos + 1..pos + 1 + d] == p[..j][pos + 1..pos + 1 + d] == q[..j][pos + 1..pos + 1 + d];
    }
  }
}
