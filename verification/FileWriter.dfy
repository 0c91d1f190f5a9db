/** FileWriter of workers/writers.go over mutable temporary files, proved equal to the state machine on values. */
module FileWriters {
  import opened Types
  import opened Wire
  import opened GreedyScan
  import opened Interpreter
  import opened WriterMachine
  import opened Merging
  import opened BlockHash

  // ---- the writer ----

  /** A temporary file with the reordering state of its stream. */
  class TmpFile {
    var seqNo: int
    var dataBuf: map<int, seq<byte>>
    var content: seq<byte>
    var closed: bool

    constructor ()
      ensures View() == NEW_STREAM
    {
      seqNo, dataBuf, content, closed := 0, map[], [], false;
    }

    ghost function View(): Stream
      reads this
    {
      Stream(seqNo, dataBuf, content, closed)
    }

    /** Writing to a closed file fails. */
    method Append(bytes: seq<byte>) returns (ok: bool)
      modifies this`content
      ensures ok == !(closed && bytes != [])
      ensures content == if ok then old(content) + bytes else old(content)
    {
      if closed && bytes != [] {
        return false;
      }
      content := content + bytes;
      ok := true;
    }

    /** Closing twice fails. */
    method Close() returns (ok: bool)
      modifies this`closed
      ensures ok == !old(closed) && closed
    {
      ok := !closed;
      closed := true;
    }
  }

  datatype ReadResult = Continue | EndOfStream | ReadError

  datatype Status = Waiting | Finished | Error

  datatype Turn = Next | Leave | Abort

  /** The reference file of a writer. */
  function OpenedFor(state: FileState, present: seq<byte>): (r: Option<seq<byte>>)
    ensures r.Some? <==> state.Diff?
    ensures r.Some? ==> r.value == present
  {
    if state.Diff? then Some(present) else None
  }

  class FileWriter {
    /** The file opened for reference; there is one only for a file in state Diff. */
    const reference: Option<seq<byte>>
    const blockSize: nat
    var fileMap: map<int, TmpFile>
    var streams: int

    /** NewFileWriter, and the beginning of Start: the file that is present is opened for reference only in state
        Diff. */
    constructor (streams: int, state: FileState, present: seq<byte>, blockSize: nat)
      ensures Valid() && View() == Writer(streams, map[]) && this.blockSize == blockSize
      ensures reference == OpenedFor(state, present)
    {
      this.streams, this.blockSize := streams, blockSize;
      reference := if state == Diff then Some(present) else None;
      fileMap := map[];
    }

    /** No two streams share a temporary file. */
    ghost predicate Valid()
      reads this
    {
      forall o, o' :: o in fileMap && o' in fileMap && o != o' ==> fileMap[o] != fileMap[o']
    }

    ghost function View(): Writer
      reads this, fileMap.Values
    {
      Writer(streams, map o | o in fileMap :: fileMap[o].View())
    }

    /** The index branch of writeToFile: seek and copy, block by block. */
    method CopyBlocks(t: TmpFile, indexes: seq<int>) returns (ok: bool)
      modifies t`content
      ensures var blocks := Apply(Refs(indexes), reference, blockSize);
              && ok == (blocks.Some? && !(t.closed && blocks.value != []))
              && (ok ==> t.content == old(t.content) + blocks.value)
    {
      ghost var copied: seq<byte> := [];
      for k := 0 to |indexes|
        invariant Apply(Refs(indexes[..k]), reference, blockSize) == Some(copied)
        invariant t.content == old(t.content) + copied
        invariant t.closed ==> copied == []
      {
        ApplyRef(indexes, k, reference, blockSize);
        var block := Block(reference, indexes[k], blockSize);
        if block.None? {
          return false;
        }
        var appended := t.Append(block.value);
        if !appended {
          return false;
        }
        copied := copied + block.value;
      }
      assert indexes[..|indexes|] == indexes;
      ok := true;
    }

    /** writeToFile: reads frames until the body is exhausted or End is met. */
    method WriteToFile(t: TmpFile, body: seq<byte>) returns (r: ReadResult)
      modifies t`content
      ensures match Put(old(t.View()), body, reference, blockSize)
              case Broken => r == ReadError
              case Wrote(bytes, ended) =>
                r == (if ended then EndOfStream else Continue) && t.content == old(t.content) + bytes
    {
      hide Decode, ParseFrame, Apply, OpsOfFrame;
      var rest := body;
      ghost var written: seq<byte> := [];
      PrependNothing(Decode(body, reference, blockSize));
      while true
        invariant Decode(body, reference, blockSize) == Prepend(written, Decode(rest, reference, blockSize))
        invariant t.content == old(t.content) + written && (t.closed ==> written == [])
        decreases |rest|
      {
        DecodeStep(written, rest, reference, blockSize);
        var parsed := ParseFrame(rest);
        match parsed {
          case Exhausted =>
            return Continue;
          case Malformed =>
            return ReadError;
          case Got(f, next) =>
            if f.EndFrame? {
              return EndOfStream;
            }
            ghost var bytes := Apply(OpsOfFrame(f), reference, blockSize);
            var ok := WriteFrame(t, f);
            if !ok {
              return ReadError;
            }
            written := written + bytes.value;
            rest := next;
        }
      }
    }

    /** The loop over cached messages. */
    method DrainCached(t: TmpFile) returns (turn: Turn)
      modifies t, this`streams
      ensures Reaches(Drain(old(t.View()), old(streams), reference, blockSize), turn, t.View(), streams)
    {
      hide Put, Drain;
      while t.seqNo in t.dataBuf
        invariant Drain(t.View(), streams, reference, blockSize)
               == Drain(old(t.View()), old(streams), reference, blockSize)
        decreases |t.dataBuf|, if t.closed then 0 else 1
      {
        DrainStep(t.View(), streams, reference, blockSize);
        var r := WriteToFile(t, t.dataBuf[t.seqNo]);
        if r == ReadError {
          return Abort;
        }
        if r == EndOfStream {
          var closedNow := t.Close();
          if !closedNow {
            return Abort;
          }
          streams := streams - 1;
          if streams == 0 {
            return Leave;
          }
          continue;
        }
        t.dataBuf := t.dataBuf - {t.seqNo};
        t.seqNo := t.seqNo + 1;
      }
      DrainNothing(t.View(), streams, reference, blockSize);
      turn := Next;
    }

    /** The WSQ branch of Start, for the stream the message belongs to. */
    method HandleMessage(t: TmpFile, seqNo: int, body: seq<byte>) returns (turn: Turn)
      modifies t, this`streams
      ensures Reaches(Handle(old(t.View()), old(streams), seqNo, body, reference, blockSize), turn, t.View(), streams)
    {
      hide Put, Drain;
      if seqNo == t.seqNo {
        var r := WriteToFile(t, body);
        if r == ReadError {
          return Abort;
        }
        if r == EndOfStream {
          var closedNow := t.Close();
          if !closedNow {
            return Abort;
          }
          streams := streams - 1;
          return if streams == 0 then Leave else Next;
        }
        t.seqNo := t.seqNo + 1;
        turn := DrainCached(t);
      } else {
        t.dataBuf := t.dataBuf[seqNo := body];
        turn := Next;
      }
    }

    /** One message: a stream that is new gets a temporary file first. */
    method OnMessage(c: Chunk) returns (turn: Turn)
      requires Valid()
      modifies this, fileMap.Values
      ensures Valid() && fresh(fileMap.Values - old(fileMap.Values))
      ensures Responds(Receive(old(View()), c, reference, blockSize), turn, View())
    {
      hide Handle;
      ghost var before := View();
      if c.offset !in fileMap {
        var created := new TmpFile();
        fileMap := fileMap[c.offset := created];
      }
      var tmpF := fileMap[c.offset];
      assert tmpF.View() == StreamAt(before, c.offset);
      turn := HandleMessage(tmpF, c.seqNo, c.body);
      forall o | o in fileMap && o != c.offset ensures fileMap[o].View() == before.files[o] {
        assert fileMap[o] != tmpF;
      }
      assert View().files == before.files[c.offset := tmpF.View()];
    }

    /** The offsets in the order in which the map hands them out, then sorted, then copied one behind the other. */
    method Rebuild() returns (dst: seq<byte>, ok: bool)
      requires Valid()
      ensures var files := Contents(View().files);
              if |files| == 1 && 0 !in files then !ok else ok && IsDestination(dst, files)
    {
      ghost var files := Contents(View().files);
      SameSize(files, fileMap);
      if |fileMap| == 1 {
        if 0 !in fileMap {
          return [], false;
        }
        return fileMap[0].content, true;
      }
      var tmpOffsets: seq<int> := Collect(fileMap.Keys);
      tmpOffsets := SortOffsets(tmpOffsets);
      assert Lists(tmpOffsets, files.Keys);
      dst := CopyAll(tmpOffsets);
      ok := true;
    }

    /** Copies the temporary files one behind the other. */
    method CopyAll(tmpOffsets: seq<int>) returns (dst: seq<byte>)
      requires Valid() && Lists(tmpOffsets, fileMap.Keys)
      ensures dst == ConcatListed(Contents(View().files), tmpOffsets)
    {
      hide Lists;
      ghost var files := Contents(View().files);
      ListedKeys(tmpOffsets, fileMap.Keys);
      dst := [];
      for k := 0 to |tmpOffsets|
        invariant dst == Concat(files, tmpOffsets[..k])
      {
        assert tmpOffsets[..k + 1] == tmpOffsets[..k] + [tmpOffsets[k]];
        ConcatPush(files, tmpOffsets[..k], tmpOffsets[k]);
        dst := dst + fileMap[tmpOffsets[k]].content;
      }
      assert tmpOffsets[..|tmpOffsets|] == tmpOffsets;
    }

    /** Start: receives until it leaves its loop, then rebuilds the destination file. The channel's messages are given
        in the order of their arrival; if they run out, the writer keeps waiting. */
    method Start(inbox: seq<Chunk>) returns (status: Status, dst: seq<byte>)
      requires Valid() && fileMap == map[]
      modifies this
      ensures var p := Run(Writer(old(streams), map[]), inbox, reference, blockSize);
              && (p.Going? ==> status == Waiting)
              && (p.Crashed? ==> status == Error)
              && (p.Complete? ==>
                    if |p.files| == 1 && 0 !in p.files then status == Error
                    else status == Finished && IsDestination(dst, p.files))
    {
      ghost var w0 := Writer(streams, map[]);
      assert View() == w0 && inbox[0..] == inbox;
      hide Receive, Contents, View;
      dst := [];
      var t := 0;
      while t < |inbox|
        invariant t <= |inbox| && Valid() && fresh(fileMap.Values)
        invariant Run(w0, inbox, reference, blockSize) == Run(View(), inbox[t..], reference, blockSize)
      {
        assert inbox[t..][0] == inbox[t] && inbox[t..][1..] == inbox[t + 1..];
        var turn := OnMessage(inbox[t]);
        t := t + 1;
        if turn == Abort {
          return Error, dst;
        }
        if turn == Leave {
          var ok;
          dst, ok := Rebuild();
          return if ok then Finished else Error, dst;
        }
      }
      status := Waiting;
    }

    method WriteFrame(t: TmpFile, f: Frame) returns (ok: bool)
      requires !f.EndFrame?
      modifies t`content
      ensures var bytes := Apply(OpsOfFrame(f), reference, blockSize);
              && ok == (bytes.Some? && !(t.closed && bytes.value != []))
              && (ok ==> t.content == old(t.content) + bytes.value)
    {
      match f {
        case DataFrame(bytes) =>
          ApplyLits(bytes, reference, blockSize);
          ok := t.Append(bytes);
        case IndexFrame(indexes) =>
          ok := CopyBlocks(t, indexes);
      }
    }
  }

  lemma SameSize<A, B>(xs: map<int, A>, ys: map<int, B>)
    requires xs.Keys == ys.Keys
    ensures |xs| == |ys|
  {
  }

  ghost predicate Responds(p: Progress, turn: Turn, w: Writer) {
    match p
    case Going(w') => turn == Next && w == w'
    case Complete(files) => turn == Leave && Contents(w.files) == files
    case Crashed => turn == Abort
  }

  /** What handling a message leaves, on values. */
  ghost predicate Reaches(r: Handled, turn: Turn, s: Stream, streams: int) {
    match r
    case Kept(s', n) => turn == Next && s == s' && streams == n
    case AllEnded(s') => turn == Leave && s == s'
    case Failed => turn == Abort
  }

  /** Decoding one frame behind what is already written. */
  lemma DecodeStep(written: seq<byte>, rest: seq<byte>, reference: Option<seq<byte>>, bs: nat)
    ensures var all, parsed := Prepend(written, Decode(rest, reference, bs)), ParseFrame(rest);
            if parsed.Exhausted? then all == Wrote(written, false)
            else if parsed.Malformed? then all == Broken
            else if parsed.frame.EndFrame? then all == Wrote(written, true)
            else
              var bytes := Apply(OpsOfFrame(parsed.frame), reference, bs);
              if bytes.None? then all == Broken
              else all == Prepend(written + bytes.value, Decode(parsed.rest, reference, bs))
  {
    hide ParseFrame, Apply, OpsOfFrame;
    assert written + [] == written;
    var parsed := ParseFrame(rest);
    if parsed.Got? && !parsed.frame.EndFrame? {
      var bytes := Apply(OpsOfFrame(parsed.frame), reference, bs);
      if bytes.Some? {
        PrependTwice(written, bytes.value, Decode(parsed.rest, reference, bs));
      }
    }
  }

  lemma DrainNothing(s: Stream, streams: int, reference: Option<seq<byte>>, bs: nat)
    requires s.next !in s.cache
    ensures Drain(s, streams, reference, bs) == Kept(s, streams)
  {
  }

  /** One pass through the loop over cached messages. */
  lemma DrainStep(s: Stream, streams: int, reference: Option<seq<byte>>, bs: nat)
    requires s.next in s.cache
    ensures |s.cache - {s.next}| < |s.cache|
    ensures Drain(s, streams, reference, bs)
         == match Put(s, s.cache[s.next], reference, bs)
            case Broken => Failed
            case Wrote(bytes, ended) =>
              var file := s.file + bytes;
              if !ended then
                Drain(Stream(s.next + 1, s.cache - {s.next}, file, s.closed), streams, reference, bs)
              else if s.closed then Failed
              else if streams - 1 == 0 then AllEnded(Stream(s.next, s.cache, file, true))
              else Drain(Stream(s.next, s.cache, file, true), streams - 1, reference, bs)
  {
  }

  /** The effect of reference number k on the blocks copied before it, and on the whole array if it fails. */
  lemma ApplyRef(indexes: seq<int>, k: nat, reference: Option<seq<byte>>, bs: nat)
    requires k < |indexes| && Apply(Refs(indexes[..k]), reference, bs).Some?
    ensures var before, block := Apply(Refs(indexes[..k]), reference, bs).value, Block(reference, indexes[k], bs);
            var whole := Apply(Refs(indexes), reference, bs);
            && Apply(Refs(indexes[..k + 1]), reference, bs)
               == (if block.None? then None else Some(before + block.value))
            && (block.None? ==> whole.None?)
            && (block.Some? && before + block.value != [] ==> whole.None? || whole.value != [])
  {
    hide Block;
    var xs, op, ys := Refs(indexes[..k]), Ref(indexes[k]), Refs(indexes[k + 1..]);
    assert Refs(indexes[..k + 1]) == xs + [op];
    assert Refs(indexes) == xs + [op] + ys;
    var block := Block(reference, indexes[k], bs);
    ApplyConcat(xs, [op], reference, bs);
    ApplyConcat(xs + [op], ys, reference, bs);
    assert [op][1..] == [];
    assert block.Some? ==> block.value + [] == block.value;
  }
}
