/** The delta encoder of workers/readers.go. */
module RollReaders {
  import opened Types
  import opened Readers
  import opened GreedyScan
  import opened MessageCuts
  import opened Descriptors
  import Adler32
  import BlockHash
  import RollingHash

  // ---- the loop on values ----

  /** Where the loop stands: `src` is the window, the buffer and the unread file; `done` and `cur` hold the messages
      sent and the open one; `lits` and `refs` count the instructions written. */
  ghost predicate Scanning(section: seq<byte>, table: Table, bs: nat, done: seq<seq<Op>>, cur: seq<Op>,
                           src: seq<byte>, lits: nat, refs: nat)
  {
    && 0 < bs <= |src| && bs <= |section|
    && done + Cuts(src, table, bs, cur) == Cuts(section, table, bs, [])
    && lits + CountLits(Scan(src, table, bs)) == CountLits(Scan(section, table, bs))
    && refs + CountRefs(Scan(src, table, bs)) == CountRefs(Scan(section, table, bs))
  }

  /** After the loop: `last` is what the last message has to hold. */
  ghost predicate Finished(section: seq<byte>, table: Table, bs: nat, done: seq<seq<Op>>, last: seq<Op>, lits: nat,
                           refs: nat)
  {
    && 0 < bs <= |section|
    && done + [last] == Cuts(section, table, bs, [])
    && lits == CountLits(Scan(section, table, bs)) && refs == CountRefs(Scan(section, table, bs))
  }

  lemma ScanStarts(section: seq<byte>, table: Table, bs: nat)
    requires 0 < bs <= |section|
    ensures Scanning(section, table, bs, [], [], section, 0, 0)
  {
  }

  lemma ScanCuts(section: seq<byte>, table: Table, bs: nat, done: seq<seq<Op>>, cur: seq<Op>, src: seq<byte>,
                 lits: nat, refs: nat)
    requires Scanning(section, table, bs, done, cur, src, lits, refs) && TrailingLits(cur) > bs
    ensures Scanning(section, table, bs, done + [cur], [], src, lits, refs)
  {
  }

  lemma CountPush(op: Op, ops: seq<Op>)
    ensures CountLits([op] + ops) == (if op.Lit? then 1 else 0) + CountLits(ops)
    ensures CountRefs([op] + ops) == (if op.Ref? then 1 else 0) + CountRefs(ops)
  {
  }

  lemma {:induction false} CountOfLits(bytes: seq<byte>)
    ensures CountLits(Lits(bytes)) == |bytes| && CountRefs(Lits(bytes)) == 0
  {
    if bytes != [] {
      CountOfLits(bytes[1..]);
      assert Lits(bytes)[1..] == Lits(bytes[1..]);
    }
  }

  lemma ScanHits(section: seq<byte>, table: Table, bs: nat, done: seq<seq<Op>>, cur: seq<Op>, src: seq<byte>,
                 lits: nat, refs: nat)
    requires Scanning(section, table, bs, done, cur, src, lits, refs) && TrailingLits(cur) <= bs
    requires Hit(src, table, bs)
    ensures var cur' := cur + [Ref(BlockHit(src, table, bs))];
            if |src| - bs > bs then Scanning(section, table, bs, done, cur', src[bs..], lits, refs + 1)
            else Finished(section, table, bs, done, cur' + Lits(src[bs..]), lits + |src| - bs, refs + 1)
  {
    hide CountLits, CountRefs;
    var op := Ref(BlockHit(src, table, bs));
    if |src| - bs > bs {
      CountPush(op, Scan(src[bs..], table, bs));
    } else {
      CountPush(op, Lits(src[bs..]));
      CountOfLits(src[bs..]);
    }
  }

  lemma ScanMisses(section: seq<byte>, table: Table, bs: nat, done: seq<seq<Op>>, cur: seq<Op>, src: seq<byte>,
                   lits: nat, refs: nat)
    requires Scanning(section, table, bs, done, cur, src, lits, refs) && TrailingLits(cur) <= bs
    requires !Hit(src, table, bs)
    ensures if |src| > bs then Scanning(section, table, bs, done, cur + [Lit(src[0])], src[1..], lits + 1, refs)
            else Finished(section, table, bs, done, cur + Lits(src), lits + |src|, refs)
  {
    hide CountLits, CountRefs;
    if |src| > bs {
      CountPush(Lit(src[0]), Scan(src[1..], table, bs));
    } else {
      CountOfLits(src);
    }
  }

  // ---- messages on the channel ----

  /** The descriptor of message number i with the given instructions. */
  ghost predicate IsMessage(dd: DataDesc, fileIndex: int, offset: int, i: int, streams: int, ops: seq<Op>, last: bool)
    reads dd
  {
    && dd.Valid() && !dd.raw && dd.ops == ops && dd.closed == last
    && dd.fileIndex == fileIndex && dd.offset == offset && dd.seqNo == i && dd.streams == streams
  }

  /** Consecutively numbered distinct descriptors; only a last one with `ended` carries End. */
  ghost predicate AreMessages(sent: seq<DataDesc>, fileIndex: int, offset: int, streams: int, parts: seq<seq<Op>>,
                              ended: bool)
    reads sent
  {
    && |sent| == |parts|
    && (forall i, j :: 0 <= i < j < |sent| ==> sent[i] != sent[j])
    && forall i :: 0 <= i < |sent| ==>
         IsMessage(sent[i], fileIndex, offset, i, streams, parts[i], ended && i == |sent| - 1)
  }

  /** The open descriptor: as long as the last run is literal, its Len is the length of that run. */
  ghost predicate IsOpen(dd: DataDesc, fileIndex: int, offset: int, i: int, streams: int, bs: nat)
    reads dd
  {
    && IsMessage(dd, fileIndex, offset, i, streams, dd.ops, false)
    && |dd.readBuf| <= bs + 1
    && (|dd.readBuf| > bs ==> dd.mode == DataMode)
    && TrailingLits(dd.ops) == (if dd.mode == DataMode then |dd.readBuf| else 0)
  }

  /** The open descriptor becomes the next message; a stream starts with none. */
  lemma OneMessageMore(sent: seq<DataDesc>, dd: DataDesc, fileIndex: int, offset: int, streams: int,
                       parts: seq<seq<Op>>)
    requires AreMessages(sent, fileIndex, offset, streams, parts, false) && dd !in sent
    requires IsMessage(dd, fileIndex, offset, |sent|, streams, dd.ops, false)
    ensures AreMessages(sent + [dd], fileIndex, offset, streams, parts + [dd.ops], false)
  {
    hide IsMessage;
  }

  lemma NoMessages(fileIndex: int, offset: int, streams: int)
    ensures AreMessages([], fileIndex, offset, streams, [], false)
  {
  }

  lemma RunWithin(dd: DataDesc, i: int, bs: nat)
    requires IsOpen(dd, dd.fileIndex, dd.offset, i, dd.streams, bs) && |dd.readBuf| <= bs
    ensures TrailingLits(dd.ops) <= bs
  {
  }

  lemma TrailingPush(ops: seq<Op>, op: Op)
    ensures TrailingLits(ops + [op]) == if op.Lit? then TrailingLits(ops) + 1 else 0
  {
  }

  class RollReader {
    var indexCnt: nat
    var dataCnt: nat
    var msgCnt: nat
    var hMap: Table

    constructor ()
      ensures indexCnt == dataCnt == msgCnt == 0 && hMap == map[]
    {
      indexCnt, dataCnt, msgCnt, hMap := 0, 0, 0, map[];
    }

    /** The hash map for fast sum lookup: a later block replaces an earlier one with the same sum. */
    method BuildTable(weak: seq<nat>)
      modifies this`hMap
      ensures hMap == TableOf(weak)
    {
      hMap := map[];
      for i := 0 to |weak|
        invariant hMap == TableOf(weak[..i])
      {
        assert weak[..i + 1][..i] == weak[..i];
        hMap := hMap[weak[i] := i];
      }
      assert weak[..|weak|] == weak;
    }

    /** MATCH: write the index and open a window behind the matched block, if more than a block is left. */
    method Match(index: nat, bs: nat, rh: RollingHash.Radler32, br: Reader, buf: seq<byte>, dd: DataDesc,
                 ghost i: int)
      returns (buf': seq<byte>, more: bool)
      requires rh.Valid() && 0 < bs && |buf| <= bs
      requires IsOpen(dd, dd.fileIndex, dd.offset, i, dd.streams, bs) && |dd.readBuf| <= bs
      modifies this`indexCnt, rh, br, dd
      ensures rh.Valid() && rh.Logical() + buf' + br.rest == old(buf + br.rest)
      ensures IsOpen(dd, dd.fileIndex, dd.offset, i, dd.streams, bs) && dd.ops == old(dd.ops) + [Ref(index)]
      ensures indexCnt == old(indexCnt) + 1
      ensures more <==> |old(buf + br.rest)| > bs
      ensures if more then |rh.Logical()| == bs && |buf'| <= bs else br.rest == []
    {
      hide TrailingLits, DataDesc.Valid, DataDesc.Pending, RollingHash.Radler32.Valid, RollingHash.Radler32.Logical;
      TrailingPush(dd.ops, Ref(index));
      dd.WriteIndex(index);
      indexCnt := indexCnt + 1;
      rh.Reset();
      buf' := buf;
      if |buf'| < bs {
        var chunk := br.CopyN(bs - |buf'|);
        buf' := buf' + chunk;
        if |chunk| == 0 {
          return buf', false;
        }
      }
      rh.Write(buf');
      buf' := br.CopyN(bs);
      more := |buf'| != 0;
    }

    /** NO MATCH: roll one byte in and write the byte that leaves, unless the file is exhausted. */
    method Miss(bs: nat, rh: RollingHash.Radler32, br: Reader, buf: seq<byte>, dd: DataDesc, ghost i: int)
      returns (buf': seq<byte>, more: bool)
      requires rh.Valid() && 0 < bs == |rh.Logical()| && |buf| <= bs
      requires IsOpen(dd, dd.fileIndex, dd.offset, i, dd.streams, bs) && |dd.readBuf| <= bs
      modifies this`dataCnt, rh, br, dd
      ensures rh.Valid() && |rh.Logical()| == bs && |buf'| <= bs
      ensures IsOpen(dd, dd.fileIndex, dd.offset, i, dd.streams, bs)
      ensures more <==> old(buf + br.rest) != []
      ensures more ==>
                && dd.ops == old(dd.ops) + [Lit(old(rh.Logical())[0])]
                && rh.Logical() + buf' + br.rest == old(rh.Logical() + buf + br.rest)[1..]
                && dataCnt == old(dataCnt) + 1
      ensures !more ==>
                && dd.ops == old(dd.ops) && rh.Logical() == old(rh.Logical()) && buf' + br.rest == []
                && dataCnt == old(dataCnt)
    {
      hide TrailingLits, DataDesc.Valid, DataDesc.Pending, RollingHash.Radler32.Valid;
      buf' := buf;
      if |buf'| == 0 {
        buf' := br.CopyN(bs);
        if |buf'| == 0 {
          return buf', false;
        }
      }
      ghost var window, rest := rh.Logical(), br.rest;
      var nb := buf'[0];
      buf' := buf'[1..];
      var ob := rh.Roll(nb);
      Rolled(window, nb, buf', rest);
      TrailingPush(dd.ops, Lit(ob));
      dd.WriteByte(ob);
      dataCnt := dataCnt + 1;
      more := true;
    }

    /** Writes one literal per byte. */
    method WriteLiterals(bytes: seq<byte>, dd: DataDesc)
      requires dd.Valid() && !dd.closed && !dd.raw
      modifies this`dataCnt, dd
      ensures dd.Valid() && !dd.closed && !dd.raw
      ensures dd.ops == old(dd.ops) + Lits(bytes)
      ensures dataCnt == old(dataCnt) + |bytes|
    {
      hide DataDesc.Valid, DataDesc.Pending;
      for k := 0 to |bytes|
        invariant dd.Valid() && !dd.closed && !dd.raw
        invariant dd.ops == old(dd.ops) + Lits(bytes[..k])
        invariant dataCnt == old(dataCnt) + k
      {
        LitsPush(bytes, k);
        Assoc(old(dd.ops), Lits(bytes[..k]), [Lit(bytes[k])]);
        dd.WriteByte(bytes[k]);
        dataCnt := dataCnt + 1;
      }
      assert bytes[..|bytes|] == bytes;
    }

    /** The trailing data: first what is left in the window, then what is left in the buffer. */
    method Tail(rh: RollingHash.Radler32, buf: seq<byte>, dd: DataDesc)
      requires rh.Valid() && dd.Valid() && !dd.closed && !dd.raw
      modifies this`dataCnt, rh, dd
      ensures dd.Valid() && dd.closed && !dd.raw
      ensures dd.ops == old(dd.ops + Lits(rh.Logical() + buf))
      ensures dataCnt == old(dataCnt + |rh.Logical()| + |buf|)
    {
      hide DataDesc.Valid, DataDesc.Pending, RollingHash.Radler32.Valid, RollingHash.Radler32.Logical;
      var rhWindow := rh.GetWindow();
      LitsConcat(rhWindow, buf);
      Assoc(dd.ops, Lits(rhWindow), Lits(buf));
      WriteLiterals(rhWindow, dd);
      WriteLiterals(buf, dd);
      dd.MarkAsLast();
    }

    /** Fills the first window and the look-ahead buffer. */
    method Open(section: seq<byte>, bs: nat)
      returns (rh: RollingHash.Radler32, br: Reader, buf: seq<byte>, full: bool)
      ensures fresh(rh) && fresh(br) && rh.Valid()
      ensures full <==> |section| >= bs
      ensures |buf| <= bs && rh.Logical() + buf + br.rest == section
      ensures full ==> |rh.Logical()| == bs && (buf == [] <==> bs == 0 || |section| == bs)
    {
      hide RollingHash.Radler32.Valid, RollingHash.Radler32.Logical;
      br := new Reader(section);
      rh := new RollingHash.Radler32();
      buf := [];
      var chunk := br.CopyN(bs);
      rh.Write(chunk);
      full := |chunk| == bs;
      buf := br.CopyN(bs);
      assert rh.Logical() == chunk;
      Assoc(chunk, buf, br.rest);
    }

    /** One pass through the loop body: look the window up, then take the MATCH or the NO MATCH branch. */
    method Step(ghost section: seq<byte>, bs: nat, rh: RollingHash.Radler32, br: Reader, buf0: seq<byte>, dd: DataDesc,
                ghost i: int, ghost done: seq<seq<Op>>, ghost lits0: nat, ghost refs0: nat)
      returns (buf: seq<byte>, more: bool, ghost lits: nat, ghost refs: nat)
      requires rh.Valid() && 0 < bs == |rh.Logical()| && |buf0| <= bs
      requires IsOpen(dd, dd.fileIndex, dd.offset, i, dd.streams, bs) && |dd.readBuf| <= bs
      requires Scanning(section, hMap, bs, done, dd.ops, rh.Logical() + buf0 + br.rest, lits0, refs0)
      modifies this`dataCnt, this`indexCnt, rh, br, dd
      ensures rh.Valid() && IsOpen(dd, dd.fileIndex, dd.offset, i, dd.streams, bs)
      ensures more ==>
                && |rh.Logical()| == bs && |buf| <= bs
                && |buf| + |br.rest| < |buf0| + |old(br.rest)|
                && Scanning(section, hMap, bs, done, dd.ops, rh.Logical() + buf + br.rest, lits, refs)
      ensures !more ==>
                var tail := rh.Logical() + buf;
                Finished(section, hMap, bs, done, dd.ops + Lits(tail), lits + |tail|, refs)
      ensures dataCnt - old(dataCnt) == lits - lits0 && indexCnt - old(indexCnt) == refs - refs0
    {
      hide DataDesc.Valid, DataDesc.Pending, RollingHash.Radler32.Valid, RollingHash.Radler32.Logical;
      hide Cuts, Scan, TrailingLits, CountLits, CountRefs, Scanning, Finished;
      ghost var src := rh.Logical() + buf0 + br.rest;
      WindowHit(rh.Logical(), buf0 + br.rest, hMap, bs);
      Assoc(rh.Logical(), buf0, br.rest);
      RunWithin(dd, i, bs);
      lits, refs := lits0, refs0;
      var rSum := rh.Sum32();
      if rSum as int in hMap {
        ScanHits(section, hMap, bs, done, dd.ops, src, lits, refs);
        buf, more := Match(hMap[rSum as int], bs, rh, br, buf0, dd, i);
        refs := refs + 1;
        assert !more ==> rh.Logical() + buf == src[bs..];
      } else {
        ScanMisses(section, hMap, bs, done, dd.ops, src, lits, refs);
        buf, more := Miss(bs, rh, br, buf0, dd, i);
        lits := if more then lits + 1 else lits;
        assert !more ==> rh.Logical() + buf == src;
      }
    }

    /** The main loop: on exit the window and the buffer hold what is still to be written as literals. */
    method Loop(ghost section: seq<byte>, bs: nat, rh: RollingHash.Radler32, br: Reader, buf0: seq<byte>,
                fileIndex: int, offset: int, streams: int)
      returns (buf: seq<byte>, sent: seq<DataDesc>, dd: DataDesc, ghost done: seq<seq<Op>>, ghost lits: nat,
               ghost refs: nat)
      requires rh.Valid() && 0 < bs == |rh.Logical()| && |buf0| <= bs && streams != 0
      requires rh.Logical() + buf0 + br.rest == section
      modifies this`msgCnt, this`dataCnt, this`indexCnt, rh, br
      ensures rh.Valid() && fresh(sent) && fresh(dd) && dd !in sent
      ensures IsMessage(dd, fileIndex, offset, |sent|, streams, dd.ops, false)
      ensures AreMessages(sent, fileIndex, offset, streams, done, false)
      ensures var tail := rh.Logical() + buf;
              Finished(section, hMap, bs, done, dd.ops + Lits(tail), lits + |tail|, refs)
      ensures msgCnt == old(msgCnt) + |sent|
      ensures dataCnt == old(dataCnt) + lits && indexCnt == old(indexCnt) + refs
    {
      hide DataDesc.Valid, DataDesc.Pending, RollingHash.Radler32.Valid, RollingHash.Radler32.Logical;
      hide Cuts, Scan, TableOf, TrailingLits, CountLits, CountRefs, Scanning, Finished, AreMessages;
      sent, done, lits, refs, buf := [], [], 0, 0, buf0;
      dd := new DataDesc(fileIndex, offset, 0, streams);
      ScanStarts(section, hMap, bs);
      NoMessages(fileIndex, offset, streams);
      while true
        invariant rh.Valid() && |rh.Logical()| == bs && |buf| <= bs
        invariant fresh(dd) && fresh(sent) && dd !in sent
        invariant Scanning(section, hMap, bs, done, dd.ops, rh.Logical() + buf + br.rest, lits, refs)
        invariant IsOpen(dd, fileIndex, offset, |sent|, streams, bs)
        invariant AreMessages(sent, fileIndex, offset, streams, done, false)
        invariant msgCnt == old(msgCnt) + |sent|
        invariant dataCnt == old(dataCnt) + lits && indexCnt == old(indexCnt) + refs
        decreases |buf| + |br.rest|
      {
        var len := dd.Len();
        if len > bs {
          ScanCuts(section, hMap, bs, done, dd.ops, rh.Logical() + buf + br.rest, lits, refs);
          OneMessageMore(sent, dd, fileIndex, offset, streams, done);
          done := done + [dd.ops];
          sent := sent + [dd];
          msgCnt := msgCnt + 1;
          dd := new DataDesc(fileIndex, offset, |sent|, streams);
        }
        var more: bool;
        buf, more, lits, refs := Step(section, bs, rh, br, buf, dd, |sent|, done, lits, refs);
        if !more {
          break;
        }
      }
    }

    /** rollV3 on the section of `file` that a job names. The messages that reach the channel are exactly the cut of
        the greedy scan; a section of at most one block is an error, and a zero block size sends nothing at all. */
    method RollV3(file: seq<byte>, fd: BlockHash.FileDesc, offset: nat, limit: nat, streams: int)
      returns (outcome: Outcome, sent: seq<DataDesc>)
      requires fd.blockSize >= 0
      modifies this
      ensures fresh(sent)
      ensures streams == 0 || (fd.blockSize > 0 && |Section(file, offset, limit)| <= fd.blockSize) ==>
                outcome == Failure && sent == []
      ensures streams != 0 && fd.blockSize == 0 ==> outcome == Success && sent == []
      ensures streams != 0 && 0 < fd.blockSize < |Section(file, offset, limit)| ==>
                var section, bs, table := Section(file, offset, limit), fd.blockSize, TableOf(fd.weak);
                && outcome == Success
                && AreMessages(sent, fd.idx, offset, streams, Cuts(section, table, bs, []), true)
                && msgCnt == old(msgCnt) + |sent|
                && dataCnt == old(dataCnt) + CountLits(Scan(section, table, bs))
                && indexCnt == old(indexCnt) + CountRefs(Scan(section, table, bs))
    {
      hide DataDesc.Valid, DataDesc.Pending, RollingHash.Radler32.Valid, RollingHash.Radler32.Logical;
      hide Cuts, Scan, TableOf, TrailingLits, CountLits, CountRefs;
      sent := [];
      if streams == 0 {
        return Failure, sent;
      }
      var bs := fd.blockSize;
      BuildTable(fd.weak);
      var rh, br, buf, full := Open(Section(file, offset, limit), bs);
      if !full || |buf| == 0 {
        // a CopyN of nothing is no error, and wrapping no error yields none
        return if bs == 0 then Success else Failure, sent;
      }
      var dd: DataDesc;
      ghost var done, lits, refs;
      buf, sent, dd, done, lits, refs := Loop(Section(file, offset, limit), bs, rh, br, buf, fd.idx, offset, streams);
      Tail(rh, buf, dd);
      sent := sent + [dd];
      msgCnt := msgCnt + 1;
      outcome := Success;
    }
  }

  lemma WindowHit(window: seq<byte>, tail: seq<byte>, table: Table, bs: nat)
    requires |window| == bs
    ensures (window + tail)[..bs] == window && (window + tail)[bs..] == tail
    ensures Hit(window + tail, table, bs) <==> Adler32.Sum(window) in table
    ensures Hit(window + tail, table, bs) ==> BlockHit(window + tail, table, bs) == table[Adler32.Sum(window)]
  {
  }

  lemma Rolled(window: seq<byte>, nb: byte, buf: seq<byte>, rest: seq<byte>)
    requires window != []
    ensures window[1..] + [nb] + buf + rest == (window + ([nb] + buf) + rest)[1..]
  {
  }

  lemma LitsPush(bytes: seq<byte>, k: nat)
    requires k < |bytes|
    ensures Lits(bytes[..k + 1]) == Lits(bytes[..k]) + [Lit(bytes[k])]
  {
  }

  lemma LitsConcat(xs: seq<byte>, ys: seq<byte>)
    ensures Lits(xs + ys) == Lits(xs) + Lits(ys)
  {
  }
}
