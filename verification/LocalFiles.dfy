/** A local sync of given files: when it can return, and what is in the files then. */
module LocalFiles {
  import opened Types
  import opened LocalSync
  import opened GreedyScan
  import opened MessageCuts
  import opened WriterMachine
  import opened Transfer
  import opened EndToEnd
  import opened FileWriters
  import opened BlockHash
  import opened LocalDelivery
  import BytesReaders
  import Theorems = LocalSyncTheorems
  import Progress = LocalSyncProgress
  import Wire

  /** A read job: a section of file number f of the list. */
  datatype Task = Task(f: nat, offset: int, section: seq<byte>)

  /** A file on the receiver's side: its state, the file that is present, and the descriptor's weak list and block
      size. */
  datatype Target = Target(state: FileState, present: seq<byte>, weak: seq<nat>, bs: nat) {
    function Reference(): Option<seq<byte>> {
      OpenedFor(state, present)
    }
  }

  /** The first `diff` tasks are for roll readers, the others for bytes readers. */
  datatype Sync = Sync(tasks: seq<Task>, targets: seq<Target>, diff: nat, ccIo: nat) {
    /** Block sizes as SetBlockSize leaves them; sizes that fit the 64-bit fields. */
    ghost predicate Valid() {
      && diff <= |tasks| && ccIo > 0
      && forall j :: 0 <= j < |tasks| ==> TaskValid(tasks[j])
    }

    ghost predicate TaskValid(t: Task) {
      && t.f < |targets| && targets[t.f].bs > 0
      && |t.section| < INT64_LIMIT - 1 && |targets[t.f].weak| < INT64_LIMIT && Wire.IsInt64(t.offset)
    }

    function TargetOf(j: nat): Target
      requires j < |tasks| && tasks[j].f < |targets|
    {
      targets[tasks[j].f]
    }

    /** The messages of a task: none if rollV3 returns an error. */
    function Messages(j: nat): seq<seq<Op>>
      requires j < |tasks| && tasks[j].f < |targets| && TargetOf(j).bs > 0
    {
      var section, t := tasks[j].section, TargetOf(j);
      if j >= diff then BytesReaders.ChunkOps(BytesReaders.Chunks(section, t.bs))
      else if |section| <= t.bs then []
      else Cuts(section, TableOf(t.weak), t.bs, [])
    }

    /** A task can be carried out: it is read whole, or its reader can read it and every hit of its scan is a full block
        of the reference file. */
    ghost predicate CanCarryOut(j: nat)
      requires j < |tasks| && tasks[j].f < |targets| && TargetOf(j).bs > 0
    {
      var section, t := tasks[j].section, TargetOf(j);
      j < diff ==> |section| > t.bs && HitsAreFull(section, TableOf(t.weak), t.Reference(), t.bs)
    }
  }

  function ConfigOf(sync: Sync): (c: Config)
    requires sync.Valid()
    ensures |c.msgs| == |c.good| == |c.file| == |sync.tasks| && c.diff == sync.diff && c.ccIo == sync.ccIo
    ensures forall j :: 0 <= j < |c.msgs| ==>
              && c.msgs[j] == |sync.Messages(j)| && c.file[j] == sync.tasks[j].f
              && c.good[j] == Decodable(Bodies(sync.Messages(j)), sync.TargetOf(j).Reference(), sync.TargetOf(j).bs)
  {
    Config(seq(|sync.tasks|, j requires 0 <= j < |sync.tasks| => |sync.Messages(j)|),
           seq(|sync.tasks|, j requires 0 <= j < |sync.tasks| =>
             Decodable(Bodies(sync.Messages(j)), sync.TargetOf(j).Reference(), sync.TargetOf(j).bs)),
           seq(|sync.tasks|, j requires 0 <= j < |sync.tasks| => sync.tasks[j].f), sync.diff, sync.ccIo)
  }

  lemma ConfigIsValid(sync: Sync)
    requires sync.Valid()
    ensures ConfigOf(sync).Valid()
  {
    hide ConfigOf, Decodable, Bodies;
  }

  // ---- one task ----

  /** What a task's messages rebuild to, if it can be carried out. */
  lemma TaskParts(sync: Sync, j: nat)
    requires sync.Valid() && j < |sync.tasks|
    ensures sync.TaskValid(sync.tasks[j])
    ensures var parts, t, section := sync.Messages(j), sync.TargetOf(j), sync.tasks[j].section;
            && (parts != [] ==> PartsFit(parts))
            && (sync.CanCarryOut(j) <==> parts != [] && Rebuilt(parts, t.Reference(), t.bs).Some?)
            && (sync.CanCarryOut(j) ==>
                  var out := Rebuilt(parts, t.Reference(), t.bs).value;
                  && |out| == |section|
                  && (out == section <==>
                        (j < sync.diff ==> NoFalseHit(section, TableOf(t.weak), t.Reference(), t.bs))))
  {
    hide Rebuilt, PartsFit, HitsAreFull, NoFalseHit, BytesReaders.ChunkOps, BytesReaders.Chunks, Cuts, TableOf;
    var t, section := sync.TargetOf(j), sync.tasks[j].section;
    if j >= sync.diff {
      WholeParts(section, t.Reference(), t.bs);
    } else if |section| > t.bs {
      DeltaParts(section, t.weak, t.Reference(), t.bs);
    }
  }

  lemma TaskOk(sync: Sync, j: nat)
    requires sync.Valid() && j < |sync.tasks|
    ensures sync.TaskValid(sync.tasks[j])
    ensures ConfigOf(sync).JobOk(j) <==> sync.CanCarryOut(j)
  {
    hide ConfigOf, Sync.Messages, Sync.CanCarryOut, Rebuilt, PartsFit, Decodable, Bodies, NoFalseHit, TableOf;
    TaskParts(sync, j);
    var parts, t := sync.Messages(j), sync.TargetOf(j);
    if parts != [] {
      FullyDecodable(parts, t.Reference(), t.bs);
    }
  }

  // ---- the sync ----

  ghost predicate AllCanBeCarriedOut(sync: Sync)
    requires sync.Valid()
  {
    forall j :: 0 <= j < |sync.tasks| ==> sync.CanCarryOut(j)
  }

  lemma HealthyIff(sync: Sync)
    requires sync.Valid()
    ensures ConfigOf(sync).Healthy() <==> AllCanBeCarriedOut(sync)
  {
    hide ConfigOf, Config.JobOk, Sync.CanCarryOut;
    forall j | 0 <= j < |sync.tasks| ensures ConfigOf(sync).JobOk(j) <==> sync.CanCarryOut(j) {
      TaskOk(sync, j);
    }
  }

  /** A local sync can return exactly if there is a diff file, every section of one is longer than its block size, and
      every hit of its scan is a full block of its reference file. */
  lemma SyncReturnsIff(sync: Sync)
    requires sync.Valid()
    ensures ConfigOf(sync).Valid()
    ensures Progress.CanReturn(ConfigOf(sync)) <==> sync.diff > 0 && AllCanBeCarriedOut(sync)
  {
    ConfigIsValid(sync);
    hide ConfigOf, Config.Healthy, AllCanBeCarriedOut, Progress.CanReturn;
    HealthyIff(sync);
    Progress.ReturnsIff(ConfigOf(sync));
  }

  /** The offsets of the tasks. */
  function OffsetsOf(sync: Sync): (offsets: seq<int>)
    ensures |offsets| == |sync.tasks| && forall j :: 0 <= j < |offsets| ==> offsets[j] == sync.tasks[j].offset
  {
    seq(|sync.tasks|, j requires 0 <= j < |sync.tasks| => sync.tasks[j].offset)
  }

  /** Every task reads another stretch of its file. */
  ghost predicate DistinctOffsets(sync: Sync) {
    forall i, j :: 0 <= i < j < |sync.tasks| && sync.tasks[i].f == sync.tasks[j].f ==>
      sync.tasks[i].offset != sync.tasks[j].offset
  }

  /** The streams of file f that the first n tasks send. */
  function SentBy(sync: Sync, f: nat, n: nat): Sent
    requires sync.Valid() && n <= |sync.tasks|
  {
    if n == 0 then map[]
    else if sync.tasks[n - 1].f == f then SentBy(sync, f, n - 1)[sync.tasks[n - 1].offset := sync.Messages(n - 1)]
    else SentBy(sync, f, n - 1)
  }

  lemma {:induction false} SentByTasks(sync: Sync, f: nat, n: nat)
    requires sync.Valid() && DistinctOffsets(sync) && n <= |sync.tasks|
    ensures |SentBy(sync, f, n)| <= n
    ensures forall j :: 0 <= j < n && sync.tasks[j].f == f ==>
              && sync.tasks[j].offset in SentBy(sync, f, n)
              && SentBy(sync, f, n)[sync.tasks[j].offset] == sync.Messages(j)
    ensures forall o :: o in SentBy(sync, f, n) ==>
              exists j :: 0 <= j < n && sync.tasks[j].f == f && sync.tasks[j].offset == o
  {
    hide Sync.Messages;
    if n > 0 {
      SentByTasks(sync, f, n - 1);
    }
  }

  /** Every file has its streams. */
  lemma SentOfExists(sync: Sync, f: nat)
    requires sync.Valid() && DistinctOffsets(sync) && |sync.tasks| < INT64_LIMIT
    ensures IsSentOf(sync, f, SentBy(sync, f, |sync.tasks|))
  {
    hide Sync.Messages, SentBy;
    SentByTasks(sync, f, |sync.tasks|);
  }

  /** `sent` are the streams of file f. */
  ghost predicate IsSentOf(sync: Sync, f: nat, sent: Sent)
    requires sync.Valid()
  {
    && |sent| < INT64_LIMIT
    && (forall j :: 0 <= j < |sync.tasks| && sync.tasks[j].f == f ==>
          sync.tasks[j].offset in sent && sent[sync.tasks[j].offset] == sync.Messages(j))
    && (forall o :: o in sent ==>
          exists j :: 0 <= j < |sync.tasks| && sync.tasks[j].f == f && sync.tasks[j].offset == o)
  }

  lemma SentIsStreams(sync: Sync, f: nat, sent: Sent)
    requires sync.Valid() && DistinctOffsets(sync) && IsSentOf(sync, f, sent)
    ensures StreamsOf(ConfigOf(sync), f, OffsetsOf(sync), sent)
  {
    hide ConfigOf, OffsetsOf, Sync.Messages, Decodable, Bodies;
  }

  lemma SentDecodes(sync: Sync, f: nat, sent: Sent)
    requires sync.Valid() && ConfigOf(sync).Valid() && IsSentOf(sync, f, sent) && f < |sync.targets|
    requires StreamsOf(ConfigOf(sync), f, OffsetsOf(sync), sent)
    ensures DecodesAs(ConfigOf(sync), f, OffsetsOf(sync), sent, sync.targets[f].Reference(), sync.targets[f].bs)
  {
    hide ConfigOf, OffsetsOf, Sync.Messages, Decodable, Bodies, StreamsOf;
  }

  lemma SentFits(sync: Sync, f: nat, sent: Sent)
    requires sync.Valid() && IsSentOf(sync, f, sent) && AllCanBeCarriedOut(sync)
    ensures Fits(sent)
  {
    hide Sync.Messages, PartsFit, Sync.CanCarryOut, Rebuilt, NoFalseHit, TableOf;
    forall o | o in sent ensures Wire.IsInt64(o) && sent[o] != [] && PartsFit(sent[o]) {
      var j :| 0 <= j < |sync.tasks| && sync.tasks[j].f == f && sync.tasks[j].offset == o;
      TaskParts(sync, j);
    }
  }

  /** What a finished writer holds for each of its tasks: as many bytes as the section has, and the section itself
      exactly if it was sent whole or its scan met no false hit. */
  ghost predicate HasSections(sync: Sync, f: nat, files: map<int, seq<byte>>)
    requires sync.Valid()
  {
    forall j :: 0 <= j < |sync.tasks| && sync.tasks[j].f == f ==>
      && sync.tasks[j].offset in files
      && var t, section, out := sync.TargetOf(j), sync.tasks[j].section, files[sync.tasks[j].offset];
         && |out| == |section|
         && (out == section <==>
               (j < sync.diff ==> |section| > t.bs && NoFalseHit(section, TableOf(t.weak), t.Reference(), t.bs)))
  }

  /** In every complete run, under every scheduling: the writer of file f takes every message of its tasks once, and
      ends with every section rebuilt, exactly where the scan met no false hit. */
  lemma FilesRebuilt(sync: Sync, actions: seq<Action>, f: nat, sent: Sent, fileIndex: int)
    returns (files: map<int, seq<byte>>)
    requires sync.Valid() && DistinctOffsets(sync) && IsSentOf(sync, f, sent) && Wire.IsInt64(fileIndex)
    requires exists j :: 0 <= j < |sync.tasks| && sync.tasks[j].f == f
    requires ConfigOf(sync).Valid() && Exec(ConfigOf(sync), Init(ConfigOf(sync)), actions).Some?
    requires Exec(ConfigOf(sync), Init(ConfigOf(sync)), actions).value.phase == Returned
    ensures files.Keys == sent.Keys && HasSections(sync, f, files)
    ensures var c, offsets, t := ConfigOf(sync), OffsetsOf(sync), sync.targets[f];
            var q := Taken(c, Init(c), actions, f);
            && OfFile(c, q, f) && EachOnce(Ids(q, offsets), sent)
            && Run(Writer(|sent|, map[]), Arrivals(Ids(q, offsets), sent, fileIndex), t.Reference(), t.bs)
               == Complete(files)
  {
    hide ConfigOf, Exec, Taken, EachOnce, Run, Arrivals, Fits, StreamsOf, DecodesAs, AllCanBeCarriedOut, Rebuilt;
    hide Sync.Messages, Config.Healthy;
    var c, t := ConfigOf(sync), sync.targets[f];
    assert f in c.file;
    Theorems.ReturnedMeansComplete(c, actions);
    HealthyIff(sync);
    SentIsStreams(sync, f, sent);
    SentDecodes(sync, f, sent);
    SentFits(sync, f, sent);
    LocalRunRebuilds(c, actions, f, OffsetsOf(sync), sent, fileIndex, t.Reference(), t.bs);
    files := RebuiltFiles(sent, t.Reference(), t.bs);
    RebuiltHasSections(sync, f, sent);
  }

  lemma RebuiltHasSections(sync: Sync, f: nat, sent: Sent)
    requires sync.Valid() && IsSentOf(sync, f, sent) && AllCanBeCarriedOut(sync) && f < |sync.targets|
    requires AllRebuild(sent, sync.targets[f].Reference(), sync.targets[f].bs)
    ensures HasSections(sync, f, RebuiltFiles(sent, sync.targets[f].Reference(), sync.targets[f].bs))
  {
    hide Sync.Messages, Rebuilt, NoFalseHit, HitsAreFull, TableOf;
    forall j | 0 <= j < |sync.tasks| && sync.tasks[j].f == f
      ensures sync.CanCarryOut(j) && sync.Messages(j) == sent[sync.tasks[j].offset]
    {
    }
    forall j | 0 <= j < |sync.tasks| && sync.tasks[j].f == f
      ensures var t, section := sync.TargetOf(j), sync.tasks[j].section;
              var out := Rebuilt(sent[sync.tasks[j].offset], t.Reference(), t.bs).value;
              && |out| == |section|
              && (out == section <==> (j < sync.diff ==> NoFalseHit(section, TableOf(t.weak), t.Reference(), t.bs)))
    {
      TaskParts(sync, j);
    }
  }
}
