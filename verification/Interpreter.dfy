/** The meaning of a message body, and how instructions are grouped into frames. */
module Interpreter {
  import opened Types
  import opened Wire
  import opened GreedyScan

  // ---- instructions and frames ----

  function OpsOfFrame(f: Frame): seq<Op> {
    match f
    case DataFrame(bytes) => Lits(bytes)
    case IndexFrame(indexes) => Refs(indexes)
    case EndFrame => []
  }

  function OpsOf(frames: seq<Frame>): seq<Op> {
    if frames == [] then [] else OpsOfFrame(frames[0]) + OpsOf(frames[1..])
  }

  lemma {:induction false} OpsOfConcat(xs: seq<Frame>, ys: seq<Frame>)
    ensures OpsOf(xs + ys) == OpsOf(xs) + OpsOf(ys)
  {
    hide OpsOfFrame;
    if xs == [] {
      assert xs + ys == ys;
    } else {
      OpsOfConcat(xs[1..], ys);
      assert (xs + ys)[1..] == xs[1..] + ys;
      Assoc(OpsOfFrame(xs[0]), OpsOf(xs[1..]), OpsOf(ys));
    }
  }

  lemma OpsOfPush(frames: seq<Frame>, f: Frame)
    ensures OpsOf(frames + [f]) == OpsOf(frames) + OpsOfFrame(f)
  {
    OpsOfConcat(frames, [f]);
    assert [f][1..] == [];
    assert OpsOf([f]) == OpsOfFrame(f) + [];
  }

  /** One more instruction: it joins the last frame when that is of its kind, otherwise it opens a new one. */
  function AddOp(frames: seq<Frame>, op: Op): seq<Frame> {
    var n := |frames| - 1;
    match op
    case Lit(b) =>
      if n >= 0 && frames[n].DataFrame? then frames[..n] + [DataFrame(frames[n].bytes + [b])]
      else frames + [DataFrame([b])]
    case Ref(k) =>
      if n >= 0 && frames[n].IndexFrame? then frames[..n] + [IndexFrame(frames[n].indexes + [k])]
      else frames + [IndexFrame([k])]
  }

  /** The coarsest grouping of instructions into frames: literal and reference runs alternate. */
  function Group(ops: seq<Op>): seq<Frame> {
    if ops == [] then [] else AddOp(Group(ops[..|ops| - 1]), ops[|ops| - 1])
  }

  lemma AddOpMeaning(frames: seq<Frame>, op: Op)
    ensures OpsOf(AddOp(frames, op)) == OpsOf(frames) + [op]
  {
    hide OpsOf;
    var n := |frames| - 1;
    var frames' := AddOp(frames, op);
    if n >= 0 && (if op.Lit? then frames[n].DataFrame? else frames[n].IndexFrame?) {
      assert frames == frames[..n] + [frames[n]];
      OpsOfPush(frames[..n], frames[n]);
      OpsOfPush(frames[..n], frames'[n]);
      assert OpsOfFrame(frames'[n]) == OpsOfFrame(frames[n]) + [op];
      Assoc(OpsOf(frames[..n]), OpsOfFrame(frames[n]), [op]);
    } else {
      OpsOfPush(frames, frames'[n + 1]);
      assert OpsOfFrame(frames'[n + 1]) == [op];
    }
  }

  /** Grouping loses nothing. */
  lemma {:induction false} GroupMeaning(ops: seq<Op>)
    ensures OpsOf(Group(ops)) == ops
  {
    if ops == [] {
    } else {
      hide OpsOf, AddOp;
      GroupMeaning(ops[..|ops| - 1]);
      AddOpMeaning(Group(ops[..|ops| - 1]), ops[|ops| - 1]);
    }
  }

  /** Frames that cannot be joined: none is empty, and data and indexes alternate. */
  ghost predicate Alternates(frames: seq<Frame>) {
    && (forall i :: 0 <= i < |frames| ==> OpsOfFrame(frames[i]) != [])
    && (forall i :: 0 <= i < |frames| - 1 ==> frames[i].DataFrame? != frames[i + 1].DataFrame?)
  }

  /** Grouping makes as few frames as possible. */
  lemma {:induction false} GroupAlternates(ops: seq<Op>)
    ensures Alternates(Group(ops))
  {
    if ops != [] {
      hide Alternates, AddOp;
      GroupAlternates(ops[..|ops| - 1]);
      AddOpAlternates(Group(ops[..|ops| - 1]), ops[|ops| - 1]);
    }
  }

  lemma AddOpAlternates(frames: seq<Frame>, op: Op)
    requires Alternates(frames)
    ensures Alternates(AddOp(frames, op))
  {
    var n := |frames| - 1;
    assert n >= 0 ==> OpsOfFrame(frames[n]) != [];
    if n >= 0 && frames[n].DataFrame? == op.Lit? {
      LastGrows(frames[n], op);
      ReplaceLast(frames, AddOp([frames[n]], op)[0]);
      assert AddOp(frames, op) == frames[..n] + AddOp([frames[n]], op);
    } else {
      OpensFrame(op);
      OneFrameMore(frames, AddOp([], op)[0]);
      assert AddOp(frames, op) == frames + AddOp([], op);
    }
  }

  lemma LastGrows(f: Frame, op: Op)
    requires OpsOfFrame(f) != [] && f.DataFrame? == op.Lit?
    ensures |AddOp([f], op)| == 1
    ensures OpsOfFrame(AddOp([f], op)[0]) != [] && AddOp([f], op)[0].DataFrame? == f.DataFrame?
  {
    assert [f][..0] == [];
    assert |OpsOfFrame(AddOp([f], op)[0])| > 0;
  }

  lemma OpensFrame(op: Op)
    ensures |AddOp([], op)| == 1 && OpsOfFrame(AddOp([], op)[0]) == [op] && AddOp([], op)[0].DataFrame? == op.Lit?
  {
  }

  lemma ReplaceLast(frames: seq<Frame>, f: Frame)
    requires Alternates(frames) && frames != [] && OpsOfFrame(f) != []
    requires f.DataFrame? == frames[|frames| - 1].DataFrame?
    ensures Alternates(frames[..|frames| - 1] + [f])
  {
    hide OpsOfFrame;
  }

  lemma OneFrameMore(frames: seq<Frame>, f: Frame)
    requires Alternates(frames) && OpsOfFrame(f) != []
    requires frames != [] ==> f.DataFrame? != frames[|frames| - 1].DataFrame?
    ensures Alternates(frames + [f])
  {
    hide OpsOfFrame;
  }

  lemma GroupPush(ops: seq<Op>, op: Op)
    ensures Group(ops + [op]) == AddOp(Group(ops), op)
  {
  }

  // ---- interpreting bodies ----

  /** What writeToFile makes of a message: the bytes it appends and whether it met the End header, or an error. */
  datatype Written = Broken | Wrote(bytes: seq<byte>, ended: bool)

  function Prepend(bytes: seq<byte>, w: Written): Written {
    match w case Broken => Broken case Wrote(more, ended) => Wrote(bytes + more, ended)
  }

  function Decode(body: seq<byte>, reference: Option<seq<byte>>, bs: nat): Written
    decreases |body|
  {
    match ParseFrame(body)
    case Exhausted => Wrote([], false)
    case Malformed => Broken
    case Got(EndFrame, _) => Wrote([], true)
    case Got(f, rest) =>
      match Apply(OpsOfFrame(f), reference, bs)
      case None => Broken
      case Some(bytes) => Prepend(bytes, Decode(rest, reference, bs))
  }

  /** Bodies the writer refuses: an incomplete header, an unknown kind of frame, more data announced than there is, a
      number of indexes that is negative or more than there are. After an End header nothing is read. */
  lemma MalformedFails(body: seq<byte>, reference: Option<seq<byte>>, bs: nat)
    ensures 0 < |body| < 42 ==> Decode(body, reference, bs) == Broken
    ensures |body| >= 42 && (body[0] != 0 || body[1] > 2) ==> Decode(body, reference, bs) == Broken
    ensures |body| >= 42 && body[0] == 0 ==>
              var len := ParseHeader(body).len;
              && (body[1] == 0 && len > |body| - 42 ==> Decode(body, reference, bs) == Broken)
              && (body[1] == 1 && (len < 0 || 8 * len > |body| - 42) ==> Decode(body, reference, bs) == Broken)
              && (body[1] == 2 ==> Decode(body, reference, bs) == Wrote([], true))
  {
    if |body| >= 42 {
      KindOf(body);
    }
    hide ParseHeader, ParseIndexes, Apply;
  }

  /** The kind of a frame is in the second byte of its header. */
  lemma KindOf(body: seq<byte>)
    requires |body| >= 42
    ensures var flag := ParseHeader(body).flag;
            if body[0] == 0 then flag == body[1] else flag < 0 || flag > 255
  {
    HeaderOf(body);
    FlagRange(body[0..2]);
    assert ParseHeader(body).flag == Int16Value(body[0..2]);
    FlagBytes(ParseHeader(body).flag);
    hide Int64At, PrintHeader, ParseHeader, Int16Value, Int64Value;
  }

  lemma FlagBytes(flag: int)
    requires -0x8000 <= flag < 0x8000
    ensures if flag % 0x1_0000 / 256 == 0 then flag == flag % 256 else flag < 0 || flag > 255
  {
  }

  lemma FlagRange(p: seq<byte>)
    requires |p| == 2
    ensures -0x8000 <= Int16Value(p) < 0x8000
  {
    WordSizes();
    BigEndianOf(p);
  }

  /** Decoding a printed list of frames is applying their instructions; what follows is decoded as it stands. */
  lemma {:induction false} DecodeFrames(frames: seq<Frame>, suffix: seq<byte>, reference: Option<seq<byte>>, bs: nat)
    requires forall i :: 0 <= i < |frames| ==> FitsInt64(frames[i]) && !frames[i].EndFrame?
    ensures Decode(PrintFrames(frames) + suffix, reference, bs)
         == match Apply(OpsOf(frames), reference, bs)
            case None => Broken
            case Some(bytes) => Prepend(bytes, Decode(suffix, reference, bs))
  {
    hide PrintFrame, ParseFrame, OpsOfFrame;
    if frames == [] {
      assert PrintFrames(frames) + suffix == suffix;
      PrependNothing(Decode(suffix, reference, bs));
    } else {
      var f, others := frames[0], frames[1..];
      DecodeFrames(others, suffix, reference, bs);
      assert PrintFrames(frames) + suffix == PrintFrame(f) + (PrintFrames(others) + suffix);
      FrameRoundTrip(f, PrintFrames(others) + suffix);
      ApplyConcat(OpsOfFrame(f), OpsOf(others), reference, bs);
      var first, more := Apply(OpsOfFrame(f), reference, bs), Apply(OpsOf(others), reference, bs);
      if first.Some? && more.Some? {
        PrependTwice(first.value, more.value, Decode(suffix, reference, bs));
      }
    }
  }

  lemma PrependNothing(w: Written)
    ensures Prepend([], w) == w
  {
  }

  lemma PrependTwice(xs: seq<byte>, ys: seq<byte>, w: Written)
    ensures Prepend(xs, Prepend(ys, w)) == Prepend(xs + ys, w)
  {
  }

  // ---- whole messages ----

  /** A message body as the receiver gets it. The last message holds an End header and, behind it, a second copy of
      its last frame: MarkAsLast flushes without clearing the buffer and Serialize flushes again. */
  function Body(ops: seq<Op>, last: bool): seq<byte> {
    var frames := Group(ops);
    if !last then PrintFrames(frames)
    else PrintFrames(frames + [EndFrame] + (if frames == [] then [] else [frames[|frames| - 1]]))
  }

  predicate OpsFit(ops: seq<Op>) {
    |ops| < INT64_LIMIT && forall i :: 0 <= i < |ops| && ops[i].Ref? ==> IsInt64(ops[i].index)
  }

  /** A data or index frame with at most `limit` entries. */
  predicate FrameFits(f: Frame, limit: int) {
    match f
    case DataFrame(bytes) => |bytes| <= limit
    case IndexFrame(indexes) => |indexes| <= limit && forall j :: 0 <= j < |indexes| ==> IsInt64(indexes[j])
    case EndFrame => false
  }

  predicate FramesFit(frames: seq<Frame>, limit: int) {
    forall i :: 0 <= i < |frames| ==> FrameFits(frames[i], limit)
  }

  lemma AddOpFits(frames: seq<Frame>, op: Op, limit: nat)
    requires FramesFit(frames, limit) && (op.Ref? ==> IsInt64(op.index))
    ensures FramesFit(AddOp(frames, op), limit + 1)
  {
  }

  lemma {:induction false} GroupFits(ops: seq<Op>)
    requires OpsFit(ops)
    ensures FramesFit(Group(ops), |ops|)
  {
    if ops != [] {
      hide FramesFit, AddOp;
      var most := ops[..|ops| - 1];
      GroupFits(most);
      AddOpFits(Group(most), ops[|ops| - 1], |most|);
    }
  }

  /** What the receiver decodes from a message is exactly its instructions, and End exactly in the last one: the
      repeated frame is never read. */
  lemma DecodeBody(ops: seq<Op>, last: bool, reference: Option<seq<byte>>, bs: nat)
    requires OpsFit(ops)
    ensures Decode(Body(ops, last), reference, bs)
         == match Apply(ops, reference, bs) case None => Broken case Some(bytes) => Wrote(bytes, last)
  {
    hide PrintFrames, Group, Apply, ParseFrame;
    var frames := Group(ops);
    var again := if frames == [] then [] else [frames[|frames| - 1]];
    GroupFits(ops);
    GroupMeaning(ops);
    FramesFitInt64(frames, |ops|);
    var suffix := if last then PrintFrame(EndFrame) + PrintFrames(again) else [];
    DecodeFrames(frames, suffix, reference, bs);
    if last {
      LastBody(frames, again);
      FrameRoundTrip(EndFrame, PrintFrames(again));
    } else {
      assert PrintFrames(frames) + [] == PrintFrames(frames);
    }
    assert Decode(suffix, reference, bs) == Wrote([], last);
    var out := Apply(ops, reference, bs);
    assert out.Some? ==> out.value + [] == out.value;
  }

  lemma FramesFitInt64(frames: seq<Frame>, limit: int)
    requires FramesFit(frames, limit) && limit < INT64_LIMIT
    ensures forall i :: 0 <= i < |frames| ==> FitsInt64(frames[i]) && !frames[i].EndFrame?
  {
  }

  lemma LastBody(frames: seq<Frame>, again: seq<Frame>)
    ensures PrintFrames(frames + [EndFrame] + again)
         == PrintFrames(frames) + (PrintFrame(EndFrame) + PrintFrames(again))
  {
    hide PrintFrames, PrintFrame;
    PrintFramesConcat(frames + [EndFrame], again);
    PrintFramesPush(frames, EndFrame);
    assert PrintFrames(frames) + PrintFrame(EndFrame) + PrintFrames(again)
        == PrintFrames(frames) + (PrintFrame(EndFrame) + PrintFrames(again));
  }
}
