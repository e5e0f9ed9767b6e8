/** Whole runs of buffer operations on two buffers: whatever storage strategies
    the operations choose, the buffers denote the strings that plain sequence
    operations give. */
module EvbufferRun {
  import opened ByteStrings
  import opened Chains
  import opened Evbuffer
  import EvbufferTransfer
  import EvbufferPullup

  /** The buffer an operation works on; it may move bytes in from the other. */
  datatype Side = Left | Right

  function Other(side: Side): Side
  {
    if side == Left then Right else Left
  }

  datatype Act =
    | Add(data: Bytes)
    | Prepend(data: Bytes)
    | Drain(len: nat)
    | Pullup(size: int)
    | AddBuffer
    | PrependBuffer
    | RemoveBuffer(datlen: nat)
    | Freeze(atFront: bool, on: bool)

  datatype Op = Op(side: Side, act: Act)

  /** One value for each buffer. */
  datatype Pair<T> = Pair(left: T, right: T) {
    function Get(side: Side): T
    {
      if side == Left then left else right
    }

    function Put(side: Side, x: T): Pair<T>
    {
      if side == Left then this.(left := x) else this.(right := x)
    }
  }

  /** What is known of a buffer: its string, which ends are frozen, and whether it may have
      an empty chain before one with data. */
  datatype Text = Text(bytes: Bytes, frozenStart: bool, frozenEnd: bool, gaps: bool)

  type Texts = Pair<Text>

  function Min(a: nat, b: nat): nat
  {
    if a < b then a else b
  }

  /** What one operation means; a frozen end makes it do nothing. Prepending a whole
      buffer, or nothing, can leave a gap, and chains that move take theirs along. */
  function Apply(s: Texts, op: Op): Texts
  {
    var (on, from) := ApplyOn(s.Get(op.side), s.Get(Other(op.side)), op.act);
    s.Put(op.side, on).Put(Other(op.side), from)
  }

  function ApplyOn(on: Text, from: Text, act: Act): (Text, Text)
  {
    match act
    case Add(data) => (if on.frozenEnd then on else on.(bytes := on.bytes + data), from)
    case Prepend(data) =>
      (if on.frozenStart then on else on.(bytes := data + on.bytes, gaps := on.gaps || data == []), from)
    case Drain(len) => (if on.frozenStart then on else on.(bytes := on.bytes[Min(len, |on.bytes|)..]), from)
    case Pullup(_) => (on, from)
    case AddBuffer =>
      if on.frozenEnd || from.frozenStart then (on, from)
      else (on.(bytes := on.bytes + from.bytes, gaps := on.gaps || from.gaps), from.(bytes := [], gaps := false))
    case PrependBuffer =>
      if on.frozenStart || from.frozenStart then (on, from)
      else (on.(bytes := from.bytes + on.bytes, gaps := true), from.(bytes := [], gaps := false))
    case RemoveBuffer(n) =>
      if on.frozenEnd || from.frozenStart then (on, from)
      else
        var k := Min(n, |from.bytes|);
        (on.(bytes := on.bytes + from.bytes[..k], gaps := on.gaps || from.gaps), from.(bytes := from.bytes[k..]))
    case Freeze(true, b) => (on.(frozenStart := b), from)
    case Freeze(false, b) => (on.(frozenEnd := b), from)
  }

  function Replay(s: Texts, ops: seq<Op>): Texts
  {
    if ops == [] then s else Apply(Replay(s, ops[..|ops| - 1]), ops[|ops| - 1])
  }

  /** The bytes an operation brings in from outside. */
  function Incoming(act: Act): nat
  {
    match act
    case Add(data) => |data|
    case Prepend(data) => |data|
    case _ => 0
  }

  function AllIncoming(ops: seq<Op>): nat
  {
    if ops == [] then 0 else AllIncoming(ops[..|ops| - 1]) + Incoming(ops[|ops| - 1].act)
  }

  function Size(s: Texts): nat
  {
    |s.left.bytes| + |s.right.bytes|
  }

  lemma ApplyOnBound(on: Text, from: Text, act: Act)
    ensures |ApplyOn(on, from, act).0.bytes| + |ApplyOn(on, from, act).1.bytes| <= |on.bytes| + |from.bytes| + Incoming(act)
  {
  }

  lemma ApplyBound(s: Texts, op: Op)
    ensures Size(Apply(s, op)) <= Size(s) + Incoming(op.act)
  {
    hide ApplyOn, Incoming;
    ApplyOnBound(s.Get(op.side), s.Get(Other(op.side)), op.act);
  }

  lemma {:induction false} SizeBound(s: Texts, ops: seq<Op>)
    ensures Size(Replay(s, ops)) <= Size(s) + AllIncoming(ops)
  {
    hide Apply;
    if ops != [] {
      SizeBound(s, ops[..|ops| - 1]);
      ApplyBound(Replay(s, ops[..|ops| - 1]), ops[|ops| - 1]);
    }
  }

  /** Bytes are moved out only of a buffer that cannot have gaps. */
  ghost predicate Clear(s: Texts, ops: seq<Op>)
  {
    forall i :: 0 <= i < |ops| && ops[i].act.RemoveBuffer? ==> !Replay(s, ops[..i]).Get(Other(ops[i].side)).gaps
  }

  /** A buffer is in order and as is known of it. */
  ghost predicate Shows(buf: Buffer, t: Text)
    reads buf
  {
    && buf.Valid() && buf.Contents() == t.bytes
    && buf.freezeStart == t.frozenStart && buf.freezeEnd == t.frozenEnd && (!t.gaps ==> buf.NoGaps())
  }

  ghost predicate Denote(left: Buffer, right: Buffer, s: Texts)
    reads left, right
  {
    left != right && Shows(left, s.left) && Shows(right, s.right)
  }

  /** An operation does no harm: only moving part of the bytes out can, and does exactly
      if the source is not movable. */
  predicate Harmless(left: Buffer, right: Buffer, op: Op)
    reads left, right
  {
    if op.side == Left then HarmlessOn(left, right, op.act) else HarmlessOn(right, left, op.act)
  }

  predicate HarmlessOn(dst: Buffer, src: Buffer, act: Act)
    reads dst, src
  {
    act.RemoveBuffer? && !dst.freezeEnd && !src.freezeStart && 0 < act.datlen < src.totalLen ==>
      EvbufferTransfer.Movable(src.chains, src.lwd, act.datlen, AllEmpty(dst.chains))
  }

  /** Any run, as far as its operations do no harm: the two buffers denote the strings
      that the plain operations give. It goes on to the end if bytes are only moved out
      of buffers that cannot have gaps. */
  method Run(left: Buffer, right: Buffer, ops: seq<Op>, ghost s: Texts) returns (done: nat)
    requires Denote(left, right, s) && left.totalLen + right.totalLen + AllIncoming(ops) <= CHAIN_ROOM
    modifies left`chains, left`lwd, left`last, left`totalLen, left`freezeStart, left`freezeEnd
    modifies right`chains, right`lwd, right`last, right`totalLen, right`freezeStart, right`freezeEnd
    ensures done <= |ops| && Denote(left, right, Replay(s, ops[..done]))
    ensures done < |ops| ==> !Harmless(left, right, ops[done])
    ensures Clear(s, ops) ==> done == |ops|
  {
    hide Flatten, LastWithData, Packed, Replay, Apply, AllIncoming, Clear, Harmless;
    RunNone(s, ops);
    done := 0;
    while done < |ops|
      invariant done <= |ops| && Denote(left, right, Replay(s, ops[..done]))
    {
      StepBound(s, ops, done);
      ClearStep(left, right, ops, done, s);
      if !Harmless(left, right, ops[done]) {
        return;
      }
      Step(left, right, ops[done], Replay(s, ops[..done]));
      done := done + 1;
    }
    assert ops[..done] == ops;
  }

  lemma ClearStep(left: Buffer, right: Buffer, ops: seq<Op>, i: nat, s: Texts)
    requires i < |ops| && Denote(left, right, Replay(s, ops[..i]))
    ensures Clear(s, ops) ==> Harmless(left, right, ops[i])
  {
    var op := ops[i];
    if Clear(s, ops) && op.act.RemoveBuffer? {
      var src, dst := if op.side == Left then right else left, if op.side == Left then left else right;
      if op.act.datlen < src.totalLen {
        PackedMoves(src, op.act.datlen, AllEmpty(dst.chains));
      }
    }
  }

  lemma RunNone(s: Texts, ops: seq<Op>)
    ensures Replay(s, ops[..0]) == s
  {
    assert ops[..0] == [];
  }

  lemma {:induction false} IncomingPrefix(ops: seq<Op>, i: nat)
    requires i <= |ops|
    ensures AllIncoming(ops[..i]) <= AllIncoming(ops)
    decreases |ops| - i
  {
    if i < |ops| {
      IncomingPrefix(ops, i + 1);
      assert ops[..i + 1][..i] == ops[..i];
    } else {
      assert ops[..i] == ops;
    }
  }

  lemma StepBound(s: Texts, ops: seq<Op>, i: nat)
    requires i < |ops| && Size(s) + AllIncoming(ops) <= CHAIN_ROOM
    ensures Replay(s, ops[..i + 1]) == Apply(Replay(s, ops[..i]), ops[i])
    ensures Size(Replay(s, ops[..i])) + Incoming(ops[i].act) <= CHAIN_ROOM
  {
    hide Apply;
    assert ops[..i + 1][..i] == ops[..i];
    SizeBound(s, ops[..i]);
    IncomingPrefix(ops, i + 1);
  }

  /** One operation that does no harm. */
  method Step(left: Buffer, right: Buffer, op: Op, ghost s: Texts)
    requires Denote(left, right, s) && Harmless(left, right, op) && Size(s) + Incoming(op.act) <= CHAIN_ROOM
    modifies left`chains, left`lwd, left`last, left`totalLen, left`freezeStart, left`freezeEnd
    modifies right`chains, right`lwd, right`last, right`totalLen, right`freezeStart, right`freezeEnd
    ensures Denote(left, right, Apply(s, op))
  {
    hide ApplyOn, Flatten, HarmlessOn;
    if op.side == Left {
      On(left, right, op.act, s.left, s.right);
    } else {
      On(right, left, op.act, s.right, s.left);
    }
  }

  /** One operation on a buffer, with the other to move from. */
  method On(buf: Buffer, other: Buffer, act: Act, ghost on: Text, ghost from: Text)
    requires buf != other && Shows(buf, on) && Shows(other, from) && HarmlessOn(buf, other, act)
    requires |on.bytes| + |from.bytes| + Incoming(act) <= CHAIN_ROOM
    modifies buf`chains, buf`lwd, buf`last, buf`totalLen, buf`freezeStart, buf`freezeEnd
    modifies other`chains, other`lwd, other`last, other`totalLen
    ensures Shows(buf, ApplyOn(on, from, act).0) && Shows(other, ApplyOn(on, from, act).1)
  {
    hide Shows, ApplyOn, HarmlessOn, Flatten;
    match act
    case AddBuffer => MoveIn(buf, other, act, on, from);
    case PrependBuffer => MoveIn(buf, other, act, on, from);
    case RemoveBuffer(_) => MovePart(buf, other, act, on, from);
    case _ =>
      AloneIs(on, from, act);
      Alone(buf, act, on);
  }

  /** An operation on a single buffer. */
  function ApplyAlone(on: Text, act: Act): Text
  {
    ApplyOn(on, on, act).0
  }

  predicate IsAlone(act: Act)
  {
    !act.AddBuffer? && !act.PrependBuffer? && !act.RemoveBuffer?
  }

  lemma AloneIs(on: Text, from: Text, act: Act)
    requires IsAlone(act)
    ensures ApplyOn(on, from, act) == (ApplyAlone(on, act), from)
  {
  }

  method Alone(buf: Buffer, act: Act, ghost on: Text)
    requires Shows(buf, on) && IsAlone(act) && |on.bytes| + Incoming(act) <= CHAIN_ROOM
    modifies buf`chains, buf`lwd, buf`last, buf`totalLen, buf`freezeStart, buf`freezeEnd
    ensures Shows(buf, ApplyAlone(on, act))
  {
    hide Flatten, LastWithData, Packed;
    match act
    case Add(data) =>
      var ok := buf.Add(data);
    case Prepend(data) =>
      var ok := buf.Prepend(data);
    case Drain(len) =>
      var ok := buf.Drain(len);
    case Pullup(size) =>
      var r := EvbufferPullup.Pullup(buf, size);
    case Freeze(true, b) => buf.freezeStart := b;
    case Freeze(false, b) => buf.freezeEnd := b;
  }

  /** All of the other buffer is moved. */
  method MoveIn(buf: Buffer, other: Buffer, act: Act, ghost on: Text, ghost from: Text)
    requires buf != other && Shows(buf, on) && Shows(other, from) && (act.AddBuffer? || act.PrependBuffer?)
    requires |on.bytes| + |from.bytes| <= CHAIN_ROOM
    modifies buf`chains, buf`lwd, buf`last, buf`totalLen
    modifies other`chains, other`lwd, other`last, other`totalLen
    ensures Shows(buf, ApplyOn(on, from, act).0) && Shows(other, ApplyOn(on, from, act).1)
  {
    hide Flatten, LastWithData, Packed;
    MoveNone(on.bytes, from.bytes);
    var ok;
    if act.AddBuffer? {
      ok := EvbufferTransfer.AddBuffer(buf, other);
    } else {
      ok := EvbufferTransfer.PrependBuffer(buf, other);
    }
  }

  /** Part of it is. */
  method MovePart(buf: Buffer, other: Buffer, act: Act, ghost on: Text, ghost from: Text)
    requires buf != other && Shows(buf, on) && Shows(other, from) && act.RemoveBuffer? && HarmlessOn(buf, other, act)
    requires |on.bytes| + |from.bytes| <= CHAIN_ROOM
    modifies buf`chains, buf`lwd, buf`last, buf`totalLen
    modifies other`chains, other`lwd, other`last, other`totalLen
    ensures Shows(buf, ApplyOn(on, from, act).0) && Shows(other, ApplyOn(on, from, act).1)
  {
    hide Flatten, LastWithData, Packed, EvbufferTransfer.Movable, AllEmpty;
    MoveNone(on.bytes, from.bytes);
    var r, aborted := EvbufferTransfer.RemoveBuffer(other, buf, act.datlen);
  }

  lemma MoveNone(on: Bytes, from: Bytes)
    ensures on + from[..0] == on && from[0..] == from
    ensures |from| == 0 ==> from == [] && on + from == on && from + on == on
  {
  }

  lemma PackedMoves(buf: Buffer, n: nat, dstEmpty: bool)
    requires buf.Valid() && buf.NoGaps() && n < buf.totalLen
    ensures EvbufferTransfer.Movable(buf.chains, buf.lwd, n, dstEmpty)
  {
    EvbufferTransfer.Passed(buf.chains, buf.lwd, n);
    EvbufferTransfer.PackedIsMovable(buf.chains, buf.lwd, n, dstEmpty);
  }
}
