/** The stages wired together over mutable state, as one local transfer runs them. */
module Pipeline {
  import opened Types
  import opened Readers
  import opened Wire
  import opened GreedyScan
  import opened MessageCuts
  import opened Interpreter
  import opened Descriptors
  import opened WriterMachine
  import opened Transfer
  import opened FileWriters
  import opened BlockHash
  import opened Splitting
  import opened EndToEnd
  import RollReaders
  import BytesReaders

  /** Serialize, message by message. */
  method SerializeAll(sent: seq<DataDesc>, ghost fileIndex: int, ghost offset: int, ghost streams: int,
                      ghost parts: seq<seq<Op>>)
    returns (packets: seq<seq<byte>>)
    requires AllCarry(sent, fileIndex, offset, streams, parts) && streams != 0
    modifies sent
    ensures |packets| == |parts|
    ensures forall i :: 0 <= i < |parts| ==>
              packets[i] == Packet(fileIndex, offset, i, streams, Body(parts[i], i == |parts| - 1))
  {
    hide DataDesc.Valid, DataDesc.Pending, Packet, Body, PrintFrames;
    packets := [];
    for k := 0 to |sent|
      invariant |packets| == k
      invariant forall i :: 0 <= i < k ==>
                  packets[i] == Packet(fileIndex, offset, i, streams, Body(parts[i], i == |parts| - 1))
      invariant forall i :: k <= i < |sent| ==>
                  Carries(sent[i], fileIndex, offset, i, streams, parts[i], i == |sent| - 1)
    {
      assert sent[k] in sent;
      var p := sent[k].Serialize();
      packets := packets + [p];
    }
  }

  /** Deserialize, in the order of arrival. */
  method DeserializeAll(packets: seq<seq<byte>>, order: seq<nat>) returns (inbox: seq<Chunk>)
    requires forall i :: 0 <= i < |packets| ==> |packets[i]| >= HEADER_SIZE
    requires forall k :: 0 <= k < |order| ==> order[k] < |packets|
    ensures |inbox| == |order|
    ensures forall k :: 0 <= k < |order| ==> inbox[k] == Unpack(packets[order[k]])
  {
    hide ParseHeader;
    inbox := [];
    for k := 0 to |order|
      invariant |inbox| == k
      invariant forall j :: 0 <= j < k ==> inbox[j] == Unpack(packets[order[j]])
    {
      var dd := Deserialize(packets[order[k]]);
      inbox := inbox + [Chunk(dd.value.offset, dd.value.seqNo, dd.value.data)];
    }
  }

  function Ids(order: seq<nat>): (ids: seq<Id>)
    ensures |ids| == |order| && forall k :: 0 <= k < |order| ==> ids[k] == Id(0, order[k])
  {
    seq(|order|, k requires 0 <= k < |order| => Id(0, order[k]))
  }

  lemma InboxIsArrivals(inbox: seq<Chunk>, packets: seq<seq<byte>>, order: seq<nat>, parts: seq<seq<Op>>,
                        fileIndex: int)
    requires EachOnce(Ids(order), map[0 := parts])
    requires |packets| == |parts| && |inbox| == |order|
    requires forall i :: 0 <= i < |parts| ==>
               packets[i] == Packet(fileIndex, 0, i, 1, Body(parts[i], i == |parts| - 1))
    requires forall k :: 0 <= k < |order| ==> order[k] < |packets| && |packets[order[k]]| >= HEADER_SIZE
                                              && inbox[k] == Unpack(packets[order[k]])
    ensures inbox == Arrivals(Ids(order), map[0 := parts], fileIndex)
  {
  }

  lemma MessagesCarry(sent: seq<DataDesc>, fileIndex: int, offset: int, streams: int, parts: seq<seq<Op>>)
    requires RollReaders.AreMessages(sent, fileIndex, offset, streams, parts, true)
    ensures AllCarry(sent, fileIndex, offset, streams, parts)
  {
  }

  /** The messages of one stream arrive in the given order at a new writer. */
  method Deliver(sent: seq<DataDesc>, order: seq<nat>, state: FileState, present: seq<byte>, bs: nat,
                 ghost fileIndex: int, ghost parts: seq<seq<Op>>)
    returns (status: Status, dst: seq<byte>)
    requires AllCarry(sent, fileIndex, 0, 1, parts)
    requires EachOnce(Ids(order), map[0 := parts]) && |sent| == |parts|
    requires forall k :: 0 <= k < |order| ==> order[k] < |parts|
    modifies sent
    ensures var p := Run(Writer(1, map[]), Arrivals(Ids(order), map[0 := parts], fileIndex),
                         OpenedFor(state, present), bs);
            && (p.Going? ==> status == Waiting)
            && (p.Crashed? ==> status == Error)
            && (p.Complete? && p.files.Keys == {0} ==> status == Finished && dst == p.files[0])
  {
    hide AllCarry, EachOnce, Run, Packet, Body, Unpack;
    var packets := SerializeAll(sent, fileIndex, 0, 1, parts);
    var inbox := DeserializeAll(packets, order);
    InboxIsArrivals(inbox, packets, order, parts, fileIndex);
    var fw := new FileWriter(1, state, present, bs);
    EmptyView(fw, 1);
    status, dst := fw.Start(inbox);
    SingleFile(Run(Writer(1, map[]), inbox, OpenedFor(state, present), bs));
  }

  lemma EmptyView(fw: FileWriter, streams: int)
    requires fw.View() == Writer(streams, map[])
    ensures fw.fileMap == map[] && fw.streams == streams
  {
  }

  lemma SingleFile(p: Progress)
    ensures p.Complete? && p.files.Keys == {0} ==> |p.files| == 1
  {
  }

  lemma OrderInRange(order: seq<nat>, parts: seq<seq<Op>>)
    requires EachOnce(Ids(order), map[0 := parts])
    ensures forall k :: 0 <= k < |order| ==> order[k] < |parts|
  {
  }

  lemma WeakListUnique(a: seq<nat>, b: seq<nat>, file: seq<byte>, bs: nat)
    requires bs > 0 && IsWeakList(a, file, bs) && IsWeakList(b, file, bs)
    ensures a == b
  {
  }

  /** A file in state Diff that is not split: hash the reference file, scan the source as its one job names it, ship the
      messages in any order, rebuild. `weak` names the reference file's weak list for the contract; the method computes
      it. */
  method DiffTransfer(src: seq<byte>, reference: seq<byte>, fileIndex: int, bs: nat, ccIo: nat, order: seq<nat>,
                      ghost weak: seq<nat>)
    returns (status: Status, dst: seq<byte>)
    requires ccIo > 0 && (|src| <= 536870912 || ccIo == 1)
    requires 0 < bs < |src| < INT64_LIMIT && |weak| < INT64_LIMIT && IsInt64(fileIndex)
    requires IsWeakList(weak, reference, bs)
    requires EachOnce(Ids(order), DeltaOf(src, weak, bs))
    ensures status == Finished && dst == src <==> NoFalseHit(src, TableOf(weak), Some(reference), bs)
    ensures if HitsAreFull(src, TableOf(weak), Some(reference), bs)
            then status == Finished && |dst| == |src|
                 && Apply(Scan(src, TableOf(weak), bs), Some(reference), bs) == Some(dst)
            else status == Error
    ensures status == Finished && |reference| < INT64_LIMIT ==>
              Resembles(dst, src, Scan(src, TableOf(weak), bs), bs)
  {
    hide Resembles;
    hide IsWeakList, EachOnce, Run, NoFalseHit, HitsAreFull, TableOf, Cuts, Scan, Apply, AllCarry, Arrivals;
    hide RollReaders.AreMessages;
    var fd := new FileDesc(fileIndex, Diff, |src|, bs);
    AddChecksums(fd, reference);
    WeakListUnique(fd.weak, weak, reference, bs);
    var rr := new RollReaders.RollReader();
    var jobs := Jobs(|src|, ccIo);
    assert Section(src, 0, |src|) == src;
    var outcome, sent := rr.RollV3(src, fd, jobs[0].offset, jobs[0].limit, |jobs|);
    ghost var parts := Cuts(src, TableOf(weak), bs, []);
    MessagesCarry(sent, fileIndex, 0, 1, parts);
    CarryLength(sent, fileIndex, 0, 1, parts);
    OrderInRange(order, parts);
    DiffSync(src, weak, Some(reference), bs, fileIndex, Ids(order));
    status, dst := Deliver(sent, order, Diff, reference, bs, fileIndex, parts);
    RebuildIsSource(src, TableOf(weak), Some(reference), bs);
    if status == Finished && |reference| < INT64_LIMIT {
      RebuiltResembles(src, reference, weak, bs, dst);
    }
  }

  lemma CarryLength(sent: seq<DataDesc>, fileIndex: int, offset: int, streams: int, parts: seq<seq<Op>>)
    requires AllCarry(sent, fileIndex, offset, streams, parts)
    ensures |sent| == |parts|
  {
  }

  /** A missing file: sent whole, in any order, it arrives whole. */
  method MissingTransfer(file: seq<byte>, fileIndex: int, bs: nat, order: seq<nat>)
    returns (status: Status, dst: seq<byte>)
    requires 0 < bs && |file| < INT64_LIMIT - 1 && IsInt64(fileIndex)
    requires EachOnce(Ids(order), WholeOf(file, bs))
    ensures status == Finished && dst == file
  {
    hide EachOnce, Run, AllCarry, Arrivals, BytesReaders.Chunks, BytesReaders.ChunkOps;
    var fd := new FileDesc(fileIndex, Missing, |file|, bs);
    var brw := new BytesReaders.BytesReader();
    var job := MissingJob(|file|);
    assert Section(file, job.offset, job.limit) == file;
    var outcome, sent := brw.SendFile(file, fd, job.offset, job.limit, 1);
    ghost var parts := BytesReaders.ChunkOps(BytesReaders.Chunks(file, bs));
    CarryLength(sent, fileIndex, 0, 1, parts);
    OrderInRange(order, parts);
    MissingSync(file, None, bs, fileIndex, Ids(order));
    status, dst := Deliver(sent, order, Missing, [], bs, fileIndex, parts);
  }
}
