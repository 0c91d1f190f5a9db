/** A large file read by several readers, over mutable state: from the jobs to the merged file. */
module ParallelPipeline {
  import opened Types
  import opened Readers
  import opened Wire
  import opened GreedyScan
  import opened MessageCuts
  import opened Interpreter
  import opened Descriptors
  import opened WriterMachine
  import opened Merging
  import opened Transfer
  import opened FileWriters
  import opened BlockHash
  import opened Pipeline
  import opened Splitting
  import opened SplitSync
  import RollReaders

  ghost predicate DistinctJobs(jobs: seq<Job>) {
    forall i, k :: 0 <= i < k < |jobs| ==> jobs[i].offset != jobs[k].offset
  }

  lemma ChunksAreDistinct(size: nat, c: nat, ccIo: nat)
    requires c > 0
    ensures DistinctJobs(ChunkJobs(size, c, ccIo, 0))
  {
    hide ChunkJobs, ChunkJob;
    var jobs := ChunkJobs(size, c, ccIo, 0);
    forall i, k | 0 <= i < k < |jobs| ensures jobs[i].offset != jobs[k].offset {
      ChunkJobAt(size, c, ccIo, 0, i);
      ChunkJobAt(size, c, ccIo, 0, k);
      JobOffset(size, c, i);
      JobOffset(size, c, k);
      MulMonotone(i + 1, k, c);
      assert (i + 1) * c == i * c + c;
    }
  }

  /** The section of every job is found at its offset, and there are no others. */
  lemma {:induction false} SectionsOfAt(file: seq<byte>, jobs: seq<Job>, o: int)
    requires DistinctJobs(jobs)
    ensures o in SectionsOf(file, jobs) <==> exists k :: 0 <= k < |jobs| && jobs[k].offset == o
    ensures forall k :: 0 <= k < |jobs| && jobs[k].offset == o ==>
              SectionsOf(file, jobs)[o] == Section(file, jobs[k].offset, jobs[k].limit)
  {
    if jobs != [] {
      hide Section;
      SectionsOfAt(file, jobs[1..], o);
      assert forall k :: 0 < k < |jobs| ==> jobs[k] == jobs[1..][k - 1];
      assert jobs[0].offset == o || (exists k :: 0 <= k < |jobs| && jobs[k].offset == o)
        <==> jobs[0].offset == o || (exists k :: 0 <= k < |jobs| - 1 && jobs[1..][k].offset == o);
    }
  }

  /** The serialized messages of one stream. */
  ghost predicate ArePackets(packets: seq<seq<byte>>, fileIndex: int, offset: int, streams: int, parts: seq<seq<Op>>) {
    && |packets| == |parts|
    && forall i :: 0 <= i < |parts| ==>
         packets[i] == Packet(fileIndex, offset, i, streams, Body(parts[i], i == |parts| - 1))
  }

  /** One reader's job. */
  method ReadJob(file: seq<byte>, fd: FileDesc, job: Job, streams: int) returns (packets: seq<seq<byte>>)
    requires streams != 0 && 0 < fd.blockSize < |Section(file, job.offset, job.limit)|
    ensures ArePackets(packets, fd.idx, job.offset, streams,
                       Cuts(Section(file, job.offset, job.limit), TableOf(fd.weak), fd.blockSize, []))
  {
    hide Cuts, TableOf, Packet, Body, AllCarry, Section, RollReaders.AreMessages;
    var rr := new RollReaders.RollReader();
    var outcome, sent := rr.RollV3(file, fd, job.offset, job.limit, streams);
    ghost var parts := Cuts(Section(file, job.offset, job.limit), TableOf(fd.weak), fd.blockSize, []);
    MessagesCarry(sent, fd.idx, job.offset, streams, parts);
    packets := SerializeAll(sent, fd.idx, job.offset, streams, parts);
  }

  /** All jobs; what each reader sends, by its offset. */
  method ReadAll(file: seq<byte>, fd: FileDesc, jobs: seq<Job>, streams: int)
    returns (packets: map<int, seq<seq<byte>>>)
    requires streams != 0 && DistinctJobs(jobs)
    requires forall k :: 0 <= k < |jobs| ==> 0 < fd.blockSize < |Section(file, jobs[k].offset, jobs[k].limit)|
    ensures forall k :: 0 <= k < |jobs| ==>
              && jobs[k].offset in packets
              && ArePackets(packets[jobs[k].offset], fd.idx, jobs[k].offset, streams,
                            Cuts(Section(file, jobs[k].offset, jobs[k].limit), TableOf(fd.weak), fd.blockSize, []))
  {
    hide Cuts, TableOf, ArePackets, Section;
    packets := map[];
    for n := 0 to |jobs|
      invariant forall k :: 0 <= k < n ==>
                  && jobs[k].offset in packets
                  && ArePackets(packets[jobs[k].offset], fd.idx, jobs[k].offset, streams,
                                Cuts(Section(file, jobs[k].offset, jobs[k].limit), TableOf(fd.weak), fd.blockSize, []))
    {
      var p := ReadJob(file, fd, jobs[n], streams);
      packets := packets[jobs[n].offset := p];
    }
  }

  ghost predicate Ships(packets: map<int, seq<seq<byte>>>, sent: Sent, fileIndex: int) {
    forall o :: o in sent ==> o in packets && ArePackets(packets[o], fileIndex, o, |sent|, sent[o])
  }

  /** The messages as the receiver unpacks them, in their order of arrival. */
  method UnpackAll(packets: map<int, seq<seq<byte>>>, order: seq<Id>, ghost sent: Sent, ghost fileIndex: int)
    returns (inbox: seq<Chunk>)
    requires EachOnce(order, sent) && Ships(packets, sent, fileIndex)
    ensures inbox == Arrivals(order, sent, fileIndex)
  {
    hide Packet, Body, ParseHeader;
    inbox := [];
    for k := 0 to |order|
      invariant |inbox| == k
      invariant forall j :: 0 <= j < k ==> inbox[j] == Arrivals(order, sent, fileIndex)[j]
    {
      assert InRange(order[k], sent);
      assert ArePackets(packets[order[k].offset], fileIndex, order[k].offset, |sent|, sent[order[k].offset]);
      var dd := Deserialize(packets[order[k].offset][order[k].i]);
      inbox := inbox + [Chunk(dd.value.offset, dd.value.seqNo, dd.value.data)];
    }
  }

  lemma JobsShip(file: seq<byte>, jobs: seq<Job>, packets: map<int, seq<seq<byte>>>, weak: seq<nat>, bs: nat,
                 streams: int, fileIndex: int)
    requires bs > 0 && DistinctJobs(jobs) && |SectionsOf(file, jobs)| == streams
    requires forall k :: 0 <= k < |jobs| ==> bs < |Section(file, jobs[k].offset, jobs[k].limit)|
    requires forall k :: 0 <= k < |jobs| ==>
               && jobs[k].offset in packets
               && ArePackets(packets[jobs[k].offset], fileIndex, jobs[k].offset, streams,
                             Cuts(Section(file, jobs[k].offset, jobs[k].limit), TableOf(weak), bs, []))
    ensures Ships(packets, SplitDelta(SectionsOf(file, jobs), weak, bs), fileIndex)
  {
    hide Cuts, TableOf, ArePackets, Section, SectionsOf;
    var sections := SectionsOf(file, jobs);
    var sent := SplitDelta(sections, weak, bs);
    assert sent.Keys == sections.Keys && |sent| == |sent.Keys| && |sections| == |sections.Keys|;
    forall o | o in sent ensures o in packets && ArePackets(packets[o], fileIndex, o, streams, sent[o]) {
      SectionsOfAt(file, jobs, o);
      var k :| 0 <= k < |jobs| && jobs[k].offset == o;
    }
  }

  lemma ChunksAreLong(file: seq<byte>, ccIo: nat, bs: nat)
    requires |file| > SPLIT_SIZE && ccIo > 1 && bs < |file| / ccIo
    ensures forall k :: 0 <= k < |JobList(|file|, ccIo)| ==>
              var job := JobList(|file|, ccIo)[k]; bs < |Section(file, job.offset, job.limit)|
  {
    hide Section, ChunkJob;
    var c, jobs := |file| / ccIo, JobList(|file|, ccIo);
    ChunkSize(|file|, ccIo);
    forall k | 0 <= k < |jobs| ensures bs < |Section(file, jobs[k].offset, jobs[k].limit)| {
      ChunkJobAt(|file|, c, ccIo, 0, k);
      SectionLength(file, c, ccIo, k);
    }
  }

  /** A file of more than 512 MiB: hash the reference file, read the sections, ship all messages in any order, rebuild
      and merge. `weak` names the reference file's weak list for the contract; the method computes it. */
  method ParallelTransfer(file: seq<byte>, reference: seq<byte>, fileIndex: int, bs: nat, ccIo: nat, order: seq<Id>,
                          ghost weak: seq<nat>)
    returns (status: Status, dst: seq<byte>)
    requires SPLIT_SIZE < |file| < INT64_LIMIT && 1 < ccIo < INT64_LIMIT && 0 < bs < |file| / ccIo
    requires |weak| < INT64_LIMIT && IsInt64(fileIndex) && IsWeakList(weak, reference, bs)
    requires EachOnce(order, SplitDelta(SectionsOf(file, JobList(|file|, ccIo)), weak, bs))
    ensures order != []
    ensures var sections, table := SectionsOf(file, JobList(|file|, ccIo)), TableOf(weak);
            && status == (if AllFull(sections, table, Some(reference), bs)
                             && OrderIsSafe(order, SplitDelta(sections, weak, bs)) then Finished else Error)
            && (status == Finished ==>
                  (dst == file <==> ccIo == 2 && NoneFalse(sections, table, Some(reference), bs)))
  {
    hide IsWeakList, EachOnce, Run, AllFull, NoneFalse, OrderIsSafe, TableOf, SplitDelta, SectionsOf, Ships, Arrivals;
    hide JobList, DistinctJobs, IsDestination, Section;
    var fd := new FileDesc(fileIndex, Diff, |file|, bs);
    AddChecksums(fd, reference);
    WeakListUnique(fd.weak, weak, reference, bs);
    var jobs := Jobs(|file|, ccIo);
    JobsAreDistinct(|file|, ccIo);
    ChunksAreLong(file, ccIo, bs);
    var packets := ReadAll(file, fd, jobs, ccIo);
    SplitTransfer(file, weak, Some(reference), bs, ccIo, fileIndex, order);
    JobsShip(file, jobs, packets, weak, bs, ccIo, fileIndex);
    var inbox := UnpackAll(packets, order, SplitDelta(SectionsOf(file, jobs), weak, bs), fileIndex);
    var fw := new FileWriter(ccIo, Diff, reference, bs);
    EmptyView(fw, ccIo);
    status, dst := fw.Start(inbox);
  }

  lemma JobsAreDistinct(size: nat, ccIo: nat)
    requires size > SPLIT_SIZE && ccIo > 1 && size / ccIo > 0
    ensures DistinctJobs(JobList(size, ccIo))
  {
    ChunksAreDistinct(size, size / ccIo, ccIo);
  }
}
