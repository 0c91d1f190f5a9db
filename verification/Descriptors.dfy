/** DataDesc of lfs/lfs.go: an instruction buffer with two intermediate buffers, and its serialized form. */
module Descriptors {
  import opened Types
  import opened Wire
  import opened Interpreter

  datatype Mode = DataMode | IndexMode

  /** A serialized message: the global header and the body. */
  function Packet(fileIndex: int, offset: int, seqNo: int, streams: int, body: seq<byte>): (p: seq<byte>)
    ensures |p| == HEADER_SIZE + |body|
  {
    PrintHeader(Header(DATA, fileIndex, offset, seqNo, streams, |body|)) + body
  }

  lemma PacketLayout(fileIndex: int, offset: int, seqNo: int, streams: int, body: seq<byte>)
    ensures IsPacket(Packet(fileIndex, offset, seqNo, streams, body), fileIndex, offset, seqNo, streams)
    ensures Packet(fileIndex, offset, seqNo, streams, body)[42..] == body
  {
    hide PrintHeader, Int64At;
    HeaderLayout(Header(DATA, fileIndex, offset, seqNo, streams, |body|), body);
  }

  /** Deserialize after Serialize gives back the file index, the offset, the sequence number, the stream count and the
      body. */
  lemma PacketRoundTrip(fileIndex: int, offset: int, seqNo: int, streams: int, body: seq<byte>)
    requires IsInt64(fileIndex) && IsInt64(offset) && IsInt64(seqNo) && IsInt64(streams)
    ensures var p := Packet(fileIndex, offset, seqNo, streams, body);
            && ParseHeader(p) == Header(DATA, fileIndex, offset, seqNo, streams, Wrap64(|body|))
            && p[HEADER_SIZE..] == body
  {
    HeaderRoundTrip(Header(DATA, fileIndex, offset, seqNo, streams, |body|), body);
  }

  class DataDesc {
    const fileIndex: int
    const offset: int
    const seqNo: int
    const streams: int
    var mode: Mode
    var iBuff: seq<int>
    var readBuf: seq<byte>
    var data: seq<byte>

    /** The frames in `data`. */
    ghost var flushed: seq<Frame>
    /** The instructions written so far. */
    ghost var ops: seq<Op>
    /** MarkAsLast was called. */
    ghost var closed: bool
    /** Write was called: `data` holds a frame that did not go through the intermediate buffers. */
    ghost var raw: bool

    /** The frame the next flush appends, if any. The buffer of the other mode may be stale and does not show here. */
    ghost function Pending(): seq<Frame>
      reads this
    {
      if mode.DataMode? then (if readBuf == [] then [] else [DataFrame(readBuf)])
      else if iBuff == [] then [] else [IndexFrame(iBuff)]
    }

    ghost predicate Valid()
      reads this
    {
      && data == PrintFrames(flushed)
      && (mode.IndexMode? ==> iBuff != [])
      && (mode.DataMode? && iBuff != [] ==> readBuf != [])
      && (!closed ==> OpsOf(flushed + Pending()) == ops)
      && (!raw && !closed ==> flushed + Pending() == Group(ops) && (Pending() == [] ==> flushed == []))
      && (!raw && closed ==>
            var frames := Group(ops);
            && flushed == frames + [EndFrame]
            && Pending() == if frames == [] then [] else [frames[|frames| - 1]])
    }

    /** NewDataDesc panics on a zero stream count. */
    constructor (fileIndex: int, offset: int, seqNo: int, streams: int)
      requires streams != 0
      ensures Valid() && !closed && !raw && ops == [] && flushed == []
      ensures mode == DataMode && readBuf == []
      ensures this.fileIndex == fileIndex && this.offset == offset && this.seqNo == seqNo && this.streams == streams
    {
      this.fileIndex, this.offset, this.seqNo, this.streams := fileIndex, offset, seqNo, streams;
      mode, iBuff, readBuf, data := DataMode, [], [], [];
      flushed, ops, closed, raw := [], [], false, false;
    }

    /** The descriptor of a serialized message. */
    constructor FromWire(p: seq<byte>)
      requires |p| >= HEADER_SIZE
      ensures var h := ParseHeader(p);
              fileIndex == h.fileIndex && offset == h.offset && seqNo == h.seqNo && streams == h.streams
      ensures data == p[HEADER_SIZE..]
    {
      var h := ParseHeader(p);
      fileIndex, offset, seqNo, streams := h.fileIndex, h.offset, h.seqNo, h.streams;
      mode, iBuff, readBuf, data := DataMode, [], [], p[HEADER_SIZE..];
      flushed, ops, closed, raw := [], [], false, false;
    }

    /** Appends the active buffer to `data` without clearing it; what is cleared is the other mode's buffer. */
    method Flush()
      requires data == PrintFrames(flushed)
      modifies this
      ensures data == PrintFrames(flushed) && flushed == old(flushed) + old(Pending())
      ensures mode == old(mode) && ops == old(ops) && closed == old(closed) && raw == old(raw)
      ensures readBuf == if old(Pending()) != [] && mode.IndexMode? then [] else old(readBuf)
      ensures iBuff == if old(Pending()) != [] && mode.DataMode? then [] else old(iBuff)
    {
      hide PrintFrames;
      if mode == DataMode && |readBuf| != 0 {
        data := data + PrintHeader(FrameHeader(DATA, |readBuf|));
        data := data + readBuf;
        iBuff := [];
        FlushedOnce(flushed, DataFrame(readBuf), data);
        flushed := flushed + [DataFrame(readBuf)];
      } else if mode == IndexMode && |iBuff| != 0 {
        data := data + PrintHeader(FrameHeader(INDEX, |iBuff|));
        data := data + PrintIndexes(iBuff);
        readBuf := [];
        FlushedOnce(flushed, IndexFrame(iBuff), data);
        flushed := flushed + [IndexFrame(iBuff)];
      }
    }

    method WriteByte(b: byte)
      requires Valid() && !closed
      modifies this
      ensures Valid() && ops == old(ops) + [Lit(b)]
      ensures !closed && raw == old(raw)
      ensures mode == DataMode
      ensures readBuf == (if old(mode) == DataMode then old(readBuf) else []) + [b]
    {
      hide PrintFrames, OpsOf, Group, AddOp;
      ghost var before, pending := flushed, Pending();
      if mode == IndexMode {
        Flush();
        mode := DataMode;
      }
      readBuf := readBuf + [b];
      ops := ops + [Lit(b)];
      WroteOne(before, pending, flushed, DataFrame(readBuf), old(ops), Lit(b), raw);
    }

    method WriteIndex(i: int)
      requires Valid() && !closed
      modifies this
      ensures Valid() && ops == old(ops) + [Ref(i)]
      ensures !closed && raw == old(raw)
      ensures mode == IndexMode && readBuf == old(readBuf)
    {
      hide PrintFrames, OpsOf, Group, AddOp;
      ghost var before, pending := flushed, Pending();
      if mode == DataMode {
        Flush();
        mode := IndexMode;
      }
      iBuff := iBuff + [i];
      ops := ops + [Ref(i)];
      WroteOne(before, pending, flushed, IndexFrame(iBuff), old(ops), Ref(i), raw);
    }

    /** Appends a data frame directly. */
    method Write(b: seq<byte>)
      requires Valid() && !closed
      modifies this
      ensures Valid() && !closed && raw
      ensures flushed == old(flushed) + [DataFrame(b)] && Pending() == old(Pending())
      ensures ops == OpsOf(old(flushed) + [DataFrame(b)] + old(Pending()))
    {
      data := data + PrintHeader(FrameHeader(DATA, |b|));
      data := data + b;
      FlushedOnce(flushed, DataFrame(b), data);
      flushed, raw := flushed + [DataFrame(b)], true;
      ops := OpsOf(flushed + Pending());
    }

    /** The size rollV3 looks at: the data buffer, stale or not. */
    method Len() returns (n: nat)
      ensures n == |readBuf|
    {
      n := |readBuf|;
    }

    method MarkAsLast()
      requires Valid() && !closed
      modifies this
      ensures Valid() && closed && raw == old(raw) && ops == old(ops)
      ensures flushed == old(flushed + Pending()) + [EndFrame] && Pending() == old(Pending())
    {
      hide PrintFrames, OpsOf, Group;
      ghost var before, pending := flushed, Pending();
      Flush();
      data := data + PrintHeader(FrameHeader(END, 0));
      PrintFramesPush(flushed, EndFrame);
      if !raw {
        ClosedOnce(before, pending, ops);
      }
      flushed, closed := flushed + [EndFrame], true;
    }

    /** The bytes sent: whatever was flushed, and the active buffer once more. */
    method Serialize() returns (p: seq<byte>)
      requires Valid() && streams != 0
      modifies this
      ensures p == Packet(fileIndex, offset, seqNo, streams, PrintFrames(old(flushed + Pending())))
      ensures !old(raw) ==> p == Packet(fileIndex, offset, seqNo, streams, Body(old(ops), old(closed)))
      ensures IsPacket(p, fileIndex, offset, seqNo, streams) && IsBody(p[42..], old(flushed + Pending()))
    {
      BodyLayout(flushed + Pending());
      PacketLayout(fileIndex, offset, seqNo, streams, PrintFrames(flushed + Pending()));
      hide IsPacket, IsBody;
      ghost var before := flushed;
      Flush();
      var header := Header(DATA, fileIndex, offset, seqNo, streams, |data|);
      p := PrintHeader(header);
      p := p + data;
    }
  }

  /** Deserialize: input without a complete global header is an error. */
  method Deserialize(p: seq<byte>) returns (r: Option<DataDesc>)
    ensures r.Some? <==> |p| >= HEADER_SIZE
    ensures r.Some? ==>
              var dd, h := r.value, ParseHeader(p);
              && fresh(dd) && dd.fileIndex == h.fileIndex && dd.offset == h.offset && dd.seqNo == h.seqNo
              && dd.streams == h.streams && dd.data == p[HEADER_SIZE..]
  {
    if |p| < HEADER_SIZE {
      return None;
    }
    var dd := new DataDesc.FromWire(p);
    r := Some(dd);
  }

  lemma FlushedOnce(flushed: seq<Frame>, f: Frame, data: seq<byte>)
    requires f.DataFrame? ==>
               data == PrintFrames(flushed) + PrintHeader(FrameHeader(DATA, |f.bytes|)) + f.bytes
    requires f.IndexFrame? ==>
               data == PrintFrames(flushed) + PrintHeader(FrameHeader(INDEX, |f.indexes|)) + PrintIndexes(f.indexes)
    requires !f.EndFrame?
    ensures data == PrintFrames(flushed + [f])
  {
    hide PrintFrames, PrintHeader, PrintIndexes;
    PrintFramesPush(flushed, f);
    match f {
      case DataFrame(bytes) => Assoc(PrintFrames(flushed), PrintHeader(FrameHeader(DATA, |bytes|)), bytes);
      case IndexFrame(indexes) =>
        Assoc(PrintFrames(flushed), PrintHeader(FrameHeader(INDEX, |indexes|)), PrintIndexes(indexes));
    }
  }

  predicate Opens(f: Frame, op: Op) {
    match op
    case Lit(b) => f == DataFrame([b])
    case Ref(k) => f == IndexFrame([k])
  }

  /** Writing one instruction extends both readings of the buffer: its meaning and its canonical grouping. `flushed`
      and `pending` are the frames before, `flushed'` and `open` those after. */
  lemma WroteOne(flushed: seq<Frame>, pending: seq<Frame>, flushed': seq<Frame>, open: Frame, ops: seq<Op>, op: Op,
                 raw: bool)
    requires OpsOf(flushed + pending) == ops
    requires !raw ==> flushed + pending == Group(ops) && (pending == [] ==> flushed == [])
    requires if op.Lit? then open.DataFrame? else open.IndexFrame?
    requires
      || (|pending| == 1 && pending[0].DataFrame? && op.Lit? && flushed' == flushed
          && open.bytes == pending[0].bytes + [op.b])
      || (|pending| == 1 && pending[0].IndexFrame? && op.Ref? && flushed' == flushed
          && open.indexes == pending[0].indexes + [op.index])
      || (|pending| == 1 && pending[0].DataFrame? != op.Lit? && !pending[0].EndFrame?
          && flushed' == flushed + pending && Opens(open, op))
      || (pending == [] && flushed' == flushed + pending && Opens(open, op))
    ensures OpsOf(flushed' + [open]) == ops + [op]
    ensures !raw ==> flushed' + [open] == Group(ops + [op])
  {
    hide OpsOf, Group;
    var before := flushed + pending;
    if pending == [] {
      assert before == flushed;
      assert flushed' == flushed;
      OpsOfPush(flushed, open);
      assert OpsOfFrame(open) == [op];
      assert flushed == [] ==> [open] == AddOp([], op) && flushed' + [open] == [open];
    } else {
      assert flushed' + [open] == AddOp(before, op);
      AddOpMeaning(before, op);
    }
    GroupPush(ops, op);
  }

  lemma ClosedOnce(flushed: seq<Frame>, pending: seq<Frame>, ops: seq<Op>)
    requires |pending| <= 1 && flushed + pending == Group(ops) && (pending == [] ==> flushed == [])
    ensures var frames := Group(ops); pending == if frames == [] then [] else [frames[|frames| - 1]]
  {
  }

  /** A message whose serialized form is that of the given instructions. */
  ghost predicate Carries(dd: DataDesc, fileIndex: int, offset: int, i: int, streams: int, ops: seq<Op>, last: bool)
    reads dd
  {
    && dd.Valid()
    && dd.fileIndex == fileIndex && dd.offset == offset && dd.seqNo == i && dd.streams == streams
    && PrintFrames(dd.flushed + dd.Pending()) == Body(ops, last)
  }

  ghost predicate AllCarry(sent: seq<DataDesc>, fileIndex: int, offset: int, streams: int, parts: seq<seq<Op>>)
    reads sent
  {
    && |sent| == |parts|
    && (forall i, j :: 0 <= i < j < |sent| ==> sent[i] != sent[j])
    && forall i :: 0 <= i < |sent| ==>
         Carries(sent[i], fileIndex, offset, i, streams, parts[i], i == |sent| - 1)
  }
}
