/** sendDataToReaders of workers/sender.go for a large file: which sections the parallel readers get, and when their
    concatenation is the file. */
module Splitting {
  import opened Types
  import opened Readers
  import BlockHash

  const SPLIT_SIZE: int := 536870912

  /** One read job. */
  datatype Job = Job(offset: nat, limit: nat)

  /** The job of one chunk. Its limit is computed as a position in the file, although a section reader takes it as a
      length. */
  function ChunkJob(size: nat, chunkSize: nat, chunk: nat): Job {
    Job(chunk * chunkSize, Min(chunkSize * (chunk + 1), size))
  }

  function ChunkJobs(size: nat, chunkSize: nat, ccIo: nat, chunk: nat): (jobs: seq<Job>)
    requires chunk <= ccIo
    ensures |jobs| == ccIo - chunk
    decreases ccIo - chunk
  {
    if chunk == ccIo then [] else [ChunkJob(size, chunkSize, chunk)] + ChunkJobs(size, chunkSize, ccIo, chunk + 1)
  }

  lemma IsChunkJob(size: nat, chunkSize: nat, chunk: nat, limit: nat)
    requires limit == if chunkSize * (chunk + 1) > size then size else chunkSize * (chunk + 1)
    ensures Job(chunk * chunkSize, limit) == ChunkJob(size, chunkSize, chunk)
  {
  }

  /** The jobs for one file of the diff list. */
  function JobList(size: nat, ccIo: nat): seq<Job>
    requires ccIo > 0
  {
    if size > SPLIT_SIZE && ccIo > 1 then ChunkJobs(size, size / ccIo, ccIo, 0) else [Job(0, size)]
  }

  /** One job for each reader: it starts at its chunk, and its limit is where its chunk ends. */
  ghost predicate AreChunks(jobs: seq<Job>, size: nat, ccIo: nat)
    requires ccIo > 0
  {
    && |jobs| == ccIo
    && forall k :: 0 <= k < ccIo ==>
         && jobs[k].offset == k * (size / ccIo)
         && jobs[k].limit == if (k + 1) * (size / ccIo) > size then size else (k + 1) * (size / ccIo)
  }

  lemma {:induction false} ChunkJobAt(size: nat, c: nat, ccIo: nat, chunk: nat, i: nat)
    requires chunk + i < ccIo
    ensures ChunkJobs(size, c, ccIo, chunk)[i] == ChunkJob(size, c, chunk + i)
    decreases i
  {
    if i > 0 {
      ChunkJobAt(size, c, ccIo, chunk + 1, i - 1);
    }
  }

  lemma JobsByNumber(size: nat, ccIo: nat)
    requires ccIo > 0
    ensures size > 536870912 && ccIo > 1 ==> AreChunks(JobList(size, ccIo), size, ccIo)
  {
    if size > 536870912 && ccIo > 1 {
      forall k | 0 <= k < ccIo ensures JobList(size, ccIo)[k] == ChunkJob(size, size / ccIo, k) {
        ChunkJobAt(size, size / ccIo, ccIo, 0, k);
      }
      hide JobList;
    }
  }

  /** A file of at most 512 MiB, or one for a single reader, is read whole, at offset 0. */
  lemma SmallFileIsWhole(file: seq<byte>, ccIo: nat)
    requires ccIo > 0 && (|file| <= 536870912 || ccIo == 1)
    ensures var jobs := JobList(|file|, ccIo);
            |jobs| == 1 && jobs[0].offset == 0 && Sections(file, jobs) == [file]
  {
    assert JobList(|file|, ccIo)[1..] == [];
  }

  /** The job for a missing file, whatever its size. */
  method MissingJob(size: nat) returns (job: Job)
    ensures job.offset == 0
    ensures forall file: seq<byte> | |file| == size :: Section(file, job.offset, job.limit) == file
  {
    job := Job(0, size);
  }

  /** The jobs as sendDataToReaders sends them, one after the other. */
  method Jobs(size: nat, ccIo: nat) returns (jobs: seq<Job>)
    requires ccIo > 0
    ensures jobs == JobList(size, ccIo)
    ensures size <= 536870912 || ccIo == 1 ==> jobs == [Job(0, size)]
    ensures size > 536870912 && ccIo > 1 ==> AreChunks(jobs, size, ccIo)
  {
    JobsByNumber(size, ccIo);
    hide ChunkJob, AreChunks;
    jobs := [];
    if size > SPLIT_SIZE && ccIo > 1 {
      var chunkSize := size / ccIo;
      var chunk := 0;
      while chunk < ccIo
        invariant chunk <= ccIo && jobs + ChunkJobs(size, chunkSize, ccIo, chunk) == ChunkJobs(size, chunkSize, ccIo, 0)
      {
        var limit := chunkSize * (chunk + 1);
        if limit > size {
          limit := size;
        }
        IsChunkJob(size, chunkSize, chunk, limit);
        Assoc(jobs, [Job(chunk * chunkSize, limit)], ChunkJobs(size, chunkSize, ccIo, chunk + 1));
        jobs := jobs + [Job(chunk * chunkSize, limit)];
        chunk := chunk + 1;
      }
    } else {
      jobs := [Job(0, size)];
    }
  }

  function Sections(file: seq<byte>, jobs: seq<Job>): seq<seq<byte>> {
    if jobs == [] then [] else [Section(file, jobs[0].offset, jobs[0].limit)] + Sections(file, jobs[1..])
  }

  function TotalLength<T>(parts: seq<seq<T>>): nat {
    if parts == [] then 0 else |parts[0]| + TotalLength(parts[1..])
  }

  lemma {:induction false} FlattenLength<T>(parts: seq<seq<T>>)
    ensures |Flatten(parts)| == TotalLength(parts)
  {
    if parts != [] {
      FlattenLength(parts[1..]);
    }
  }

  /** The section of a chunk runs past the end of the chunk, as far as the file goes. */
  lemma SectionLength(file: seq<byte>, c: nat, ccIo: nat, chunk: nat)
    requires chunk < ccIo && ccIo * c <= |file|
    ensures var job := ChunkJob(|file|, c, chunk);
            && job.offset + c <= |file|
            && |Section(file, job.offset, job.limit)| == Min(job.offset + c, |file| - job.offset)
  {
    MulMonotone(chunk + 1, ccIo, c);
    assert (chunk + 1) * c == chunk * c + c;
  }

  /** From chunk number `chunk` on, the sections are at least as long as the rest of the file, and longer if a chunk
      that is neither the first nor the last is among them. */
  lemma {:induction false} RestLength(file: seq<byte>, c: nat, ccIo: nat, chunk: nat)
    requires 0 < chunk < ccIo && 0 < c && ccIo * c <= |file| < ccIo * c + ccIo
    ensures var total, rest := TotalLength(Sections(file, ChunkJobs(|file|, c, ccIo, chunk))), |file| - chunk * c;
            total >= rest && (chunk < ccIo - 1 ==> total > rest)
    decreases ccIo - chunk
  {
    hide ChunkJob, Section;
    var jobs := ChunkJobs(|file|, c, ccIo, chunk);
    SectionLength(file, c, ccIo, chunk);
    ChunkBounds(|file|, c, ccIo, chunk);
    if chunk == ccIo - 1 {
      assert jobs[1..] == [];
    } else {
      assert jobs[1..] == ChunkJobs(|file|, c, ccIo, chunk + 1);
      RestLength(file, c, ccIo, chunk + 1);
    }
  }

  lemma ChunkBounds(size: nat, c: nat, ccIo: nat, chunk: nat)
    requires 0 < chunk < ccIo && 0 < c && ccIo * c <= size < ccIo * c + ccIo
    ensures ChunkJob(size, c, chunk).offset == chunk * c >= c
    ensures (chunk + 1) * c == chunk * c + c
    ensures chunk == ccIo - 1 ==> size - chunk * c <= chunk * c + c
    ensures chunk < ccIo - 1 ==> chunk * c + 2 * c <= size
  {
    MulMonotone(1, chunk, c);
    assert (chunk + 1) * c == chunk * c + c;
    if chunk == ccIo - 1 {
      MulMonotone(1, c, ccIo - 1);
      assert c * (ccIo - 1) == chunk * c;
    } else {
      MulMonotone(chunk + 2, ccIo, c);
      assert (chunk + 2) * c == chunk * c + 2 * c;
    }
  }

  lemma ChunkSize(size: nat, ccIo: nat)
    requires ccIo > 0
    ensures var c := size / ccIo;
            ccIo * c <= size < ccIo * c + ccIo && (c == 0 <==> size < ccIo)
  {
    var c := size / ccIo;
    if c > 0 {
      MulMonotone(1, c, ccIo);
    }
  }

  /** The sections of a split file, put one behind the other, are the file exactly if there are two readers. */
  lemma SplitCoversFile(file: seq<byte>, ccIo: nat)
    requires ccIo > 1 && |file| > SPLIT_SIZE
    ensures Flatten(Sections(file, ChunkJobs(|file|, |file| / ccIo, ccIo, 0))) == file <==> ccIo == 2
  {
    var c := |file| / ccIo;
    ChunkSize(|file|, ccIo);
    if c == 0 {
      NothingRead(file, ccIo, 0);
    } else if ccIo == 2 {
      TwoSections(file, c);
    } else {
      MoreSections(file, c, ccIo);
    }
  }

  lemma TwoSections(file: seq<byte>, c: nat)
    requires 0 < c && 2 * c <= |file| < 2 * c + 2
    ensures Flatten(Sections(file, ChunkJobs(|file|, c, 2, 0))) == file
  {
    var limit := Min(2 * c, |file|);
    TwoJobs(|file|, c);
    var jobs := ChunkJobs(|file|, c, 2, 0);
    hide ChunkJobs, ChunkJob;
    var a, b := Section(file, 0, c), Section(file, c, limit);
    assert a == file[..c] && b == file[c..];
    hide Section;
    assert jobs[1..] == [Job(c, limit)] && jobs[1..][1..] == [];
    assert Sections(file, jobs[1..]) == [b];
    assert Sections(file, jobs) == [a, b] && [a, b][1..] == [b];
    assert Flatten([b]) == b + [];
  }

  lemma TwoJobs(size: nat, c: nat)
    requires 0 < c && 2 * c <= size
    ensures ChunkJobs(size, c, 2, 0) == [Job(0, c), Job(c, Min(2 * c, size))]
  {
    ChunkJobAt(size, c, 2, 0, 0);
    ChunkJobAt(size, c, 2, 0, 1);
  }

  lemma MoreSections(file: seq<byte>, c: nat, ccIo: nat)
    requires 0 < c && ccIo > 2 && ccIo * c <= |file| < ccIo * c + ccIo
    ensures |Flatten(Sections(file, ChunkJobs(|file|, c, ccIo, 0)))| > |file|
  {
    var jobs := ChunkJobs(|file|, c, ccIo, 0);
    assert jobs[1..] == ChunkJobs(|file|, c, ccIo, 1);
    RestLength(file, c, ccIo, 1);
    SectionLength(file, c, ccIo, 0);
    FlattenLength(Sections(file, jobs));
    assert ChunkJob(|file|, c, 0).offset == 0;
    var sections := Sections(file, jobs);
    assert sections[1..] == Sections(file, jobs[1..]);
  }

  lemma {:induction false} NothingRead(file: seq<byte>, ccIo: nat, chunk: nat)
    requires chunk <= ccIo
    ensures Flatten(Sections(file, ChunkJobs(|file|, 0, ccIo, chunk))) == []
    decreases ccIo - chunk
  {
    if chunk < ccIo {
      var jobs := ChunkJobs(|file|, 0, ccIo, chunk);
      assert jobs[1..] == ChunkJobs(|file|, 0, ccIo, chunk + 1);
      NothingRead(file, ccIo, chunk + 1);
      assert ChunkJob(|file|, 0, chunk).limit == 0;
    }
  }
}
