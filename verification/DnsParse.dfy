/** The name parser of libevent/evdns.c. */
module DnsParse {
  import opened ByteStrings
  import opened DnsNames

  /** The parser's outcome: the name and the index behind it, or an error. */
  datatype Parsed = Bad | Good(name: Bytes, next: int)

  /** The rest of a parse: `j` is the index in the packet, `jumps` the pointers
      followed so far, `out` the name so far, `cap` the size of the output, and
      `end` the index behind the first pointer, or -1. */
  function Parse(p: Bytes, j: nat, jumps: nat, out: Bytes, cap: nat, end: int): Parsed
    requires jumps <= |p|
    decreases |p| - jumps, |p| - j
  {
    if j >= |p| then Bad
    else if p[j] == 0 then
      if |out| >= cap then Bad else Good(out, if end < 0 then j + 1 else end)
    else if p[j] > MAX_LABEL then
      if j + 1 >= |p| || Target(p, j) >= |p| || jumps + 1 > |p| then Bad
      else Parse(p, Target(p, j), jumps + 1, out, cap, if end < 0 then j + 2 else end)
    else
      var lead := Lead(out);
      if (out != [] && |out| + 1 >= cap) || |lead| + p[j] >= cap || j + 1 + p[j] > |p| then Bad
      else Parse(p, j + 1 + p[j], jumps, lead + p[j + 1..j + 1 + p[j]], cap, end)
  }

  /** One turn of it. */
  lemma ParseStep(p: Bytes, j: nat, jumps: nat, out: Bytes, cap: nat, end: int)
    requires jumps <= |p|
    ensures j >= |p| ==> Parse(p, j, jumps, out, cap, end) == Bad
    ensures j < |p| && p[j] == 0 ==>
              Parse(p, j, jumps, out, cap, end) == if |out| >= cap then Bad else Good(out, if end < 0 then j + 1 else end)
    ensures j < |p| && p[j] > MAX_LABEL ==>
              Parse(p, j, jumps, out, cap, end) ==
              if j + 1 >= |p| || Target(p, j) >= |p| || jumps + 1 > |p| then Bad
              else Parse(p, Target(p, j), jumps + 1, out, cap, if end < 0 then j + 2 else end)
    ensures j < |p| && 0 < p[j] <= MAX_LABEL ==>
              var lead := Lead(out);
              Parse(p, j, jumps, out, cap, end) ==
              if (out != [] && |out| + 1 >= cap) || |lead| + p[j] >= cap || j + 1 + p[j] > |p| then Bad
              else Parse(p, j + 1 + p[j], jumps, lead + p[j + 1..j + 1 + p[j]], cap, end)
  {
  }

  /** name_parse: a loop over labels and pointers. */
  method NameParse(packet: Bytes, idx: nat, cap: nat) returns (r: Parsed)
    ensures r == Parse(packet, idx, 0, [], cap, -1)
  {
    hide Parse;
    var nameEnd, j, ptrCount, out := -1, idx, 0, [];
    while true
      invariant 0 <= j && 0 <= ptrCount <= |packet|
      invariant Parse(packet, idx, 0, [], cap, -1) == Parse(packet, j, ptrCount, out, cap, nameEnd)
      decreases |packet| - ptrCount, |packet| - j
    {
      ParseStep(packet, j, ptrCount, out, cap, nameEnd);
      if j >= |packet| {
        return Bad;
      }
      var labelLen := packet[j];
      j := j + 1;
      if labelLen == 0 {
        break;
      }
      if labelLen > MAX_LABEL {
        if j >= |packet| {
          return Bad;
        }
        var low := packet[j];
        j := j + 1;
        if nameEnd < 0 {
          nameEnd := j;
        }
        j := (labelLen as int % 64) * 256 + low;
        if j >= |packet| {
          return Bad;
        }
        ptrCount := ptrCount + 1;
        if ptrCount > |packet| {
          return Bad;
        }
        continue;
      }
      if out != [] {
        if |out| + 1 >= cap {
          return Bad;
        }
        out := out + [DOT];
      }
      if |out| + labelLen >= cap || j + labelLen > |packet| {
        return Bad;
      }
      out := out + packet[j..j + labelLen];
      j := j + labelLen;
    }
    if |out| >= cap {
      return Bad;
    }
    return Good(out, if nameEnd < 0 then j else nameEnd);
  }

  /** The labels put behind a name with dots between. */
  function Joined(out: Bytes, labels: seq<Bytes>): Bytes
    decreases |labels|
  {
    if labels == [] then out
    else Joined(Lead(out) + labels[0], labels[1..])
  }

  lemma {:induction false} JoinedGrows(out: Bytes, labels: seq<Bytes>)
    ensures |out| <= |Joined(out, labels)|
    ensures labels != [] ==> |out| + |labels[0]| + (if out == [] then 0 else 1) <= |Joined(out, labels)|
    decreases |labels|
  {
    if labels != [] {
      JoinedGrows(Lead(out) + labels[0], labels[1..]);
    }
  }

  lemma JoinedStep(out: Bytes, labels: seq<Bytes>)
    ensures labels == [] ==> Joined(out, labels) == out
    ensures labels != [] ==> Joined(out, labels) == Joined(Lead(out) + labels[0], labels[1..])
  {
  }

  /** Whatever a stretch of packet denotes, the parser returns, with the index
      behind it; the limit on jumps never gets in the way. */
  lemma {:induction false} ParseDenoted(p: Bytes, pos: nat, lim: nat, labels: seq<Bytes>, jumps: nat, out: Bytes,
                                        cap: nat, end: int)
    requires Denotes(p, pos, lim, labels) && jumps + lim <= |p| && |Joined(out, labels)| < cap
    ensures Parse(p, pos, jumps, out, cap, end) ==
            Good(Joined(out, labels), if end < 0 then After(p, pos, lim, labels) else end)
    decreases |labels|, lim
  {
    JoinedGrows(out, labels);
    JoinedStep(out, labels);
    hide Joined, DotAt;
    if p[pos] == 0 {
    } else if p[pos] > MAX_LABEL {
      ParseDenoted(p, Target(p, pos), pos, labels, jumps + 1, out, cap, if end < 0 then pos + 2 else end);
    } else {
      ParseDenoted(p, pos + 1 + |labels[0]|, lim, labels[1..], jumps, Lead(out) + labels[0], cap, end);
    }
  }

  /** Reading from `j` on takes these labels from the packet and follows so many pointers. */
  ghost predicate Reads(p: Bytes, j: nat, labels: seq<Bytes>, hops: nat)
    decreases hops, |labels|
  {
    && j < |p|
    && if p[j] == 0 then labels == [] && hops == 0
       else if p[j] > MAX_LABEL then hops > 0 && j + 1 < |p| && Reads(p, Target(p, j), labels, hops - 1)
       else labels != [] && LabelAt(p, j, labels[0]) && Reads(p, j + 1 + |labels[0]|, labels[1..], hops)
  }

  /** Where reading goes on: behind the zero or the first pointer. */
  ghost function Behind(p: Bytes, j: nat, labels: seq<Bytes>, hops: nat): int
    requires Reads(p, j, labels, hops)
    decreases |labels|
  {
    if p[j] == 0 then j + 1
    else if p[j] > MAX_LABEL then j + 2
    else Behind(p, j + 1 + |labels[0]|, labels[1..], hops)
  }

  /** What the parser returns was in the packet. */
  lemma {:induction false} ParseWasThere(p: Bytes, j: nat, jumps: nat, out: Bytes, cap: nat, end: int)
      returns (labels: seq<Bytes>, hops: nat)
    requires jumps <= |p| && Parse(p, j, jumps, out, cap, end).Good?
    ensures Reads(p, j, labels, hops) && jumps + hops <= |p| && |Joined(out, labels)| < cap
    ensures Parse(p, j, jumps, out, cap, end) == Good(Joined(out, labels), if end < 0 then Behind(p, j, labels, hops) else end)
    decreases |p| - jumps, |p| - j
  {
    if p[j] == 0 {
      labels, hops := [], 0;
    } else if p[j] > MAX_LABEL {
      labels, hops := ParseWasThere(p, Target(p, j), jumps + 1, out, cap, if end < 0 then j + 2 else end);
      hops := hops + 1;
    } else {
      var text := p[j + 1..j + 1 + p[j]];
      labels, hops := ParseWasThere(p, j + 1 + p[j], jumps, Lead(out) + text, cap, end);
      LabelInFront(p, j, text, labels, hops);
      JoinedStep(out, [text] + labels);
      hide Joined;
      assert ([text] + labels)[1..] == labels;
      labels := [text] + labels;
    }
  }

  lemma LabelInFront(p: Bytes, j: nat, text: Bytes, labels: seq<Bytes>, hops: nat)
    requires LabelAt(p, j, text) && Reads(p, j + 1 + |text|, labels, hops)
    ensures Reads(p, j, [text] + labels, hops)
    ensures Behind(p, j, [text] + labels, hops) == Behind(p, j + 1 + |text|, labels, hops)
  {
    assert ([text] + labels)[1..] == labels;
  }

  /** And what is there it returns, if there are no more pointers than bytes and the name
      fits. */
  lemma {:induction false} ParseFinds(p: Bytes, j: nat, labels: seq<Bytes>, hops: nat, jumps: nat, out: Bytes, cap: nat, end: int)
    requires Reads(p, j, labels, hops) && jumps + hops <= |p| && |Joined(out, labels)| < cap
    ensures Parse(p, j, jumps, out, cap, end) == Good(Joined(out, labels), if end < 0 then Behind(p, j, labels, hops) else end)
    decreases hops, |labels|
  {
    JoinedGrows(out, labels);
    JoinedStep(out, labels);
    hide Joined;
    if p[j] == 0 {
    } else if p[j] > MAX_LABEL {
      ReadsInside(p, Target(p, j), labels, hops - 1);
      ParseFinds(p, Target(p, j), labels, hops - 1, jumps + 1, out, cap, if end < 0 then j + 2 else end);
    } else {
      ParseFinds(p, j + 1 + |labels[0]|, labels[1..], hops, jumps, Lead(out) + labels[0], cap, end);
    }
  }

  lemma ReadsInside(p: Bytes, j: nat, labels: seq<Bytes>, hops: nat)
    requires Reads(p, j, labels, hops)
    ensures j < |p|
  {
  }

  /** The parser returns a name exactly if it can be read from the packet with no more
      pointers than the packet has bytes, and is shorter than the output. */
  lemma ParseExact(p: Bytes, j: nat, cap: nat, name: Bytes, next: int)
    ensures Parse(p, j, 0, [], cap, -1) == Good(name, next) <==>
            exists labels, hops: nat :: Reads(p, j, labels, hops) && hops <= |p| && name == Joined([], labels) && |name| < cap
                                        && next == Behind(p, j, labels, hops)
  {
    if Parse(p, j, 0, [], cap, -1) == Good(name, next) {
      var labels, hops := ParseWasThere(p, j, 0, [], cap, -1);
      assert Reads(p, j, labels, hops);
    }
    if labels, hops: nat :| Reads(p, j, labels, hops) && hops <= |p| && name == Joined([], labels) && |name| < cap
                            && next == Behind(p, j, labels, hops) {
      ParseFinds(p, j, labels, hops, 0, [], cap, -1);
    }
  }

  /** Splitting a well-formed name into labels and joining them gives it back,
      without its trailing dot. */
  lemma {:induction false} JoinLabels(out: Bytes, name: Bytes)
    requires WellFormed(name)
    ensures Joined(out, Labels(name)) == if name == [] then out else Lead(out) + Undotted(name)
    decreases |name|
  {
    hide DotAt, Labels, WellFormed, Undotted, Joined;
    var d := DotAt(name);
    if d < |name| {
      var rest := name[d + 1..];
      FirstLabel(name);
      JoinedStep(out, Labels(name));
      UndottedSplit(name, d);
      JoinLabels(Lead(out) + name[..d], rest);
      Regroup(Lead(out), name[..d], Undotted(rest));
    } else {
      OneLabel(out, name);
    }
  }

  lemma OneLabel(out: Bytes, name: Bytes)
    requires DotAt(name) == |name|
    ensures Joined(out, Labels(name)) == if name == [] then out else Lead(out) + Undotted(name)
  {
    if name != [] {
      assert Labels(name)[1..] == [];
      assert name[|name| - 1] != DOT;
    }
  }

  lemma FirstLabel(name: Bytes)
    requires WellFormed(name) && DotAt(name) < |name|
    ensures var d, labels := DotAt(name), Labels(name);
            && 0 < d && name[d] == DOT && WellFormed(name[d + 1..])
            && labels != [] && labels[0] == name[..d] && labels[1..] == Labels(name[d + 1..])
  {
    assert Labels(name)[1..] == Labels(name[DotAt(name) + 1..]);
  }

  /** What goes in front of the next label. */
  function Lead(out: Bytes): Bytes
  {
    if out == [] then [] else out + [DOT]
  }

  lemma UndottedSplit(name: Bytes, d: nat)
    requires d < |name| && name[d] == DOT
    ensures Undotted(name) == if name[d + 1..] == [] then name[..d] else name[..d] + [DOT] + Undotted(name[d + 1..])
  {
    assert name == name[..d] + [DOT] + name[d + 1..];
  }

  /** The labels of a name behind another make no more than the name, and fall short of it
      if it is not well formed. */
  lemma {:induction false} JoinShort(out: Bytes, name: Bytes)
    ensures |Joined(out, Labels(name))| <= |Lead(out)| + |name|
    ensures !WellFormed(name) && out != [] ==> |Joined(out, Labels(name))| < |Lead(out)| + |Undotted(name)|
    decreases |name|
  {
    var d := DotAt(name);
    if d == |name| {
      assert name != [] ==> Labels(name)[1..] == [];
    } else if d > 0 {
      assert Labels(name)[1..] == Labels(name[d + 1..]);
      JoinShort(Lead(out) + name[..d], name[d + 1..]);
      UndottedSplit(name, d);
    }
  }

  /** What a reader makes of a name is the name, up to a trailing dot, if and only if no
      label is empty or there is nothing but a dot. */
  lemma JoinExact(name: Bytes)
    ensures Joined([], Labels(name)) == Undotted(name) <==> WellFormed(name) || name == [DOT]
  {
    if WellFormed(name) {
      JoinLabels([], name);
      assert [] + Undotted(name) == Undotted(name);
    } else {
      var d := DotAt(name);
      if d > 0 {
        assert Labels(name)[1..] == Labels(name[d + 1..]);
        hide Labels, DotAt;
        JoinShort([] + name[..d], name[d + 1..]);
        UndottedSplit(name, d);
      } else {
        assert Undotted(name) == [] <==> |name| == 1;
      }
    }
  }

  /** A stretch denoting the labels of a name of up to 255 bytes parses to them in the 256
      bytes the callers provide. */
  lemma ParseName(p: Bytes, pos: nat, lim: nat, name: Bytes)
    requires |name| <= 255 && Denotes(p, pos, lim, Labels(name))
    ensures Parse(p, pos, 0, [], 256, -1) == Good(Joined([], Labels(name)), After(p, pos, lim, Labels(name)))
  {
    JoinShort([], name);
    hide Parse, Joined, Labels, WellFormed;
    ParseDenoted(p, pos, lim, Labels(name), 0, [], 256, -1);
  }
}
