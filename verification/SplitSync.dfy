/** A large file read in parallel: from the split jobs through the writer to the merged file. */
module SplitSync {
  import opened Types
  import opened Readers
  import opened Wire
  import opened GreedyScan
  import opened MessageCuts
  import opened WriterMachine
  import opened Merging
  import opened Transfer
  import opened Splitting
  import opened EndToEnd

  /** The sections of a split file by their offsets. */
  function SectionMap(file: seq<byte>, c: nat, ccIo: nat, chunk: nat): map<int, seq<byte>>
    requires chunk <= ccIo
    decreases ccIo - chunk
  {
    if chunk == ccIo then map[]
    else
      var job := ChunkJob(|file|, c, chunk);
      SectionMap(file, c, ccIo, chunk + 1)[job.offset := Section(file, job.offset, job.limit)]
  }

  function Offsets(c: nat, ccIo: nat, chunk: nat): seq<int>
    requires chunk <= ccIo
    decreases ccIo - chunk
  {
    if chunk == ccIo then [] else [chunk * c] + Offsets(c, ccIo, chunk + 1)
  }

  lemma {:induction false} OffsetsListed(file: seq<byte>, c: nat, ccIo: nat, chunk: nat)
    requires chunk <= ccIo && c > 0
    ensures Lists(Offsets(c, ccIo, chunk), SectionMap(file, c, ccIo, chunk).Keys)
    ensures forall o :: o in SectionMap(file, c, ccIo, chunk) ==> o >= chunk * c
    decreases ccIo - chunk
  {
    if chunk < ccIo {
      OffsetsListed(file, c, ccIo, chunk + 1);
      MulMonotone(chunk, chunk + 1, c);
      assert (chunk + 1) * c == chunk * c + c;
      ConsListed(chunk * c, Offsets(c, ccIo, chunk + 1), SectionMap(file, c, ccIo, chunk + 1).Keys);
      assert SectionMap(file, c, ccIo, chunk).Keys == {chunk * c} + SectionMap(file, c, ccIo, chunk + 1).Keys;
    }
  }

  lemma ConsListed(o: int, s: seq<int>, keys: set<int>)
    requires Lists(s, keys) && forall k :: k in keys ==> o < k
    ensures Lists([o] + s, {o} + keys)
  {
    ListedKeys(s, keys);
  }

  lemma {:induction false} ConcatAgree(a: map<int, seq<byte>>, b: map<int, seq<byte>>, s: seq<int>)
    requires forall i :: 0 <= i < |s| ==> s[i] in a && s[i] in b && a[s[i]] == b[s[i]]
    ensures Concat(a, s) == Concat(b, s)
  {
    if s != [] {
      ConcatAgree(a, b, s[1..]);
    }
  }

  /** One more chunk leaves the later sections in place. */
  lemma LaterSectionsStay(file: seq<byte>, c: nat, ccIo: nat, chunk: nat)
    requires chunk < ccIo && c > 0
    ensures chunk * c in SectionMap(file, c, ccIo, chunk)
    ensures var s, files, files' := Offsets(c, ccIo, chunk + 1), SectionMap(file, c, ccIo, chunk),
                                    SectionMap(file, c, ccIo, chunk + 1);
            forall i :: 0 <= i < |s| ==> s[i] in files && s[i] in files' && files[s[i]] == files'[s[i]]
  {
    hide Section, Lists, Offsets;
    var s, files' := Offsets(c, ccIo, chunk + 1), SectionMap(file, c, ccIo, chunk + 1);
    OffsetsListed(file, c, ccIo, chunk + 1);
    ListedKeys(s, files'.Keys);
    assert (chunk + 1) * c == chunk * c + c;
  }

  lemma {:induction false} ConcatOfSections(file: seq<byte>, c: nat, ccIo: nat, chunk: nat)
    requires chunk <= ccIo && c > 0
    ensures forall i :: 0 <= i < |Offsets(c, ccIo, chunk)| ==>
              Offsets(c, ccIo, chunk)[i] in SectionMap(file, c, ccIo, chunk)
    ensures Concat(SectionMap(file, c, ccIo, chunk), Offsets(c, ccIo, chunk))
         == Flatten(Sections(file, ChunkJobs(|file|, c, ccIo, chunk)))
    decreases ccIo - chunk
  {
    hide Section, ChunkJob, Concat, Flatten;
    if chunk < ccIo {
      var jobs, files := ChunkJobs(|file|, c, ccIo, chunk), SectionMap(file, c, ccIo, chunk);
      var o, s := chunk * c, Offsets(c, ccIo, chunk + 1);
      assert jobs[1..] == ChunkJobs(|file|, c, ccIo, chunk + 1);
      ConcatOfSections(file, c, ccIo, chunk + 1);
      LaterSectionsStay(file, c, ccIo, chunk);
      JobOffset(|file|, c, chunk);
      ConcatAgree(files, SectionMap(file, c, ccIo, chunk + 1), s);
      ConcatCons(files, o, s);
      FlattenCons(files[o], Sections(file, jobs[1..]));
    } else {
      EmptyConcat(SectionMap(file, c, ccIo, chunk));
    }
  }

  lemma EmptyConcat(files: map<int, seq<byte>>)
    ensures Concat(files, []) == [] && Flatten<byte>([]) == []
  {
  }

  lemma JobOffset(size: nat, c: nat, chunk: nat)
    ensures ChunkJob(size, c, chunk).offset == chunk * c
  {
  }

  lemma ConcatCons(files: map<int, seq<byte>>, o: int, s: seq<int>)
    requires o in files && forall i :: 0 <= i < |s| ==> s[i] in files
    ensures Concat(files, [o] + s) == files[o] + Concat(files, s)
  {
  }

  lemma FlattenCons<T>(part: seq<T>, parts: seq<seq<T>>)
    ensures Flatten([part] + parts) == part + Flatten(parts)
  {
  }

  /** The sections that the jobs name, by their offsets. */
  function SectionsOf(file: seq<byte>, jobs: seq<Job>): map<int, seq<byte>> {
    if jobs == [] then map[]
    else SectionsOf(file, jobs[1..])[jobs[0].offset := Section(file, jobs[0].offset, jobs[0].limit)]
  }

  lemma {:induction false} SectionsOfChunks(file: seq<byte>, c: nat, ccIo: nat, chunk: nat)
    requires chunk <= ccIo
    ensures SectionsOf(file, ChunkJobs(|file|, c, ccIo, chunk)) == SectionMap(file, c, ccIo, chunk)
    decreases ccIo - chunk
  {
    if chunk < ccIo {
      SectionsOfChunks(file, c, ccIo, chunk + 1);
      assert ChunkJobs(|file|, c, ccIo, chunk)[1..] == ChunkJobs(|file|, c, ccIo, chunk + 1);
    }
  }

  /** Concatenations of as many pieces of the same lengths are equal exactly if the pieces are. */
  lemma {:induction false} ConcatEqual(a: map<int, seq<byte>>, b: map<int, seq<byte>>, s: seq<int>)
    requires forall i :: 0 <= i < |s| ==> s[i] in a && s[i] in b && |a[s[i]]| == |b[s[i]]|
    ensures |Concat(a, s)| == |Concat(b, s)|
    ensures Concat(a, s) == Concat(b, s) <==> forall i :: 0 <= i < |s| ==> a[s[i]] == b[s[i]]
  {
    if s != [] {
      ConcatEqual(a, b, s[1..]);
      SplitAt(a[s[0]], Concat(a, s[1..]));
      SplitAt(b[s[0]], Concat(b, s[1..]));
      assert forall i :: 0 <= i < |s| - 1 ==> s[1..][i] == s[i + 1];
      assert (forall i :: 0 <= i < |s| ==> a[s[i]] == b[s[i]])
        <==> a[s[0]] == b[s[0]] && forall i :: 0 <= i < |s| - 1 ==> a[s[1..][i]] == b[s[1..][i]];
    }
  }

  /** What the writer makes of the rebuilt sections of a split file: the file itself exactly with two readers and all
      sections right. */
  lemma SplitDestination(file: seq<byte>, ccIo: nat, files: map<int, seq<byte>>, dst: seq<byte>)
    requires 1 < ccIo <= |file| && |file| > SPLIT_SIZE && IsDestination(dst, files)
    requires var sections := SectionMap(file, |file| / ccIo, ccIo, 0);
             && files.Keys == sections.Keys
             && forall o :: o in sections ==> |files[o]| == |sections[o]|
    ensures dst == file <==> ccIo == 2 && files == SectionMap(file, |file| / ccIo, ccIo, 0)
  {
    var c := |file| / ccIo;
    var sections, offsets := SectionMap(file, c, ccIo, 0), Offsets(c, ccIo, 0);
    assert forall o :: o in sections ==> |files[o]| == |sections[o]|;
    hide Section, Lists, SectionMap, IsConcatenation, ChunkJobs, Sections;
    ChunkSize(|file|, ccIo);
    TwoKeys(file, c, ccIo);
    assert |files| == |files.Keys| && |sections| == |sections.Keys|;
    OffsetsListed(file, c, ccIo, 0);
    ConcatOfSections(file, c, ccIo, 0);
    ListedIsConcatenation(files, offsets);
    ConcatenationUnique(dst, Concat(files, offsets), files);
    ListedKeys(offsets, sections.Keys);
    ConcatEqual(files, sections, offsets);
    SplitCoversFile(file, ccIo);
    if ccIo != 2 {
      MoreSections(file, c, ccIo);
    }
    SameOnList(files, sections, offsets);
  }

  lemma SameOnList(a: map<int, seq<byte>>, b: map<int, seq<byte>>, s: seq<int>)
    requires Lists(s, a.Keys) && a.Keys == b.Keys
    ensures forall i :: 0 <= i < |s| ==> s[i] in a
    ensures a == b <==> forall i :: 0 <= i < |s| ==> a[s[i]] == b[s[i]]
  {
    ListedKeys(s, a.Keys);
    if forall i :: 0 <= i < |s| ==> a[s[i]] == b[s[i]] {
      forall o | o in a ensures a[o] == b[o] {
        assert o in s;
        var i :| 0 <= i < |s| && s[i] == o;
      }
    }
  }

  lemma ListedIsConcatenation(files: map<int, seq<byte>>, offsets: seq<int>)
    requires Lists(offsets, files.Keys)
    ensures forall i :: 0 <= i < |offsets| ==> offsets[i] in files
    ensures IsConcatenation(Concat(files, offsets), files)
  {
    ListedKeys(offsets, files.Keys);
    assert Concat(files, offsets) == ConcatListed(files, offsets);
  }

  lemma TwoKeys(file: seq<byte>, c: nat, ccIo: nat)
    requires ccIo > 1 && c > 0
    ensures |SectionMap(file, c, ccIo, 0)| != 1
  {
    var files := SectionMap(file, c, ccIo, 0);
    assert 0 in files.Keys && c in files.Keys by {
      assert c in SectionMap(file, c, ccIo, 1);
    }
    assert files.Keys == {0, c} + (files.Keys - {0, c});
    assert |{0, c}| == 2;
    assert |files| == |files.Keys|;
  }

  /** The messages of all readers of a split file; a section shorter than a block gives none. */
  function SplitDelta(sections: map<int, seq<byte>>, weak: seq<nat>, bs: nat): Sent
    requires bs > 0
  {
    map o | o in sections :: if bs <= |sections[o]| then Cuts(sections[o], TableOf(weak), bs, []) else []
  }

  lemma SplitFits(sections: map<int, seq<byte>>, weak: seq<nat>, bs: nat)
    requires 0 < bs && |weak| < INT64_LIMIT && |sections| < INT64_LIMIT
    requires forall o :: o in sections ==> IsInt64(o) && bs <= |sections[o]| < INT64_LIMIT
    ensures Fits(SplitDelta(sections, weak, bs))
  {
    hide Cuts, TableOf, PartsFit;
    var sent := SplitDelta(sections, weak, bs);
    assert sent.Keys == sections.Keys && |sent| == |sent.Keys| && |sections| == |sections.Keys|;
    forall o | o in sent ensures sent[o] != [] && PartsFit(sent[o]) {
      DeltaFits(sections[o], weak, bs);
      assert DeltaOf(sections[o], weak, bs)[0] == sent[o];
    }
  }

  ghost predicate AllFull(sections: map<int, seq<byte>>, table: Table, reference: Option<seq<byte>>, bs: nat)
    requires bs > 0
  {
    forall o :: o in sections ==> bs <= |sections[o]| && HitsAreFull(sections[o], table, reference, bs)
  }

  ghost predicate NoneFalse(sections: map<int, seq<byte>>, table: Table, reference: Option<seq<byte>>, bs: nat)
    requires bs > 0
  {
    forall o :: o in sections ==> bs <= |sections[o]| && NoFalseHit(sections[o], table, reference, bs)
  }

  /** Any sections, any arrival order: the writer rebuilds every section, or fails, exactly as stated. */
  lemma SectionsRebuilt(sections: map<int, seq<byte>>, weak: seq<nat>, reference: Option<seq<byte>>, bs: nat,
                        fileIndex: int, order: seq<Id>)
    requires 0 < bs && |weak| < INT64_LIMIT && |sections| < INT64_LIMIT && IsInt64(fileIndex) && sections != map[]
    requires forall o :: o in sections ==> IsInt64(o) && bs <= |sections[o]| < INT64_LIMIT
    requires EachOnce(order, SplitDelta(sections, weak, bs)) && order != []
    ensures var sent, table := SplitDelta(sections, weak, bs), TableOf(weak);
            var p := Run(Writer(|sections|, map[]), Arrivals(order, sent, fileIndex), reference, bs);
            if AllFull(sections, table, reference, bs) && OrderIsSafe(order, sent) then
              && p.Complete? && p.files.Keys == sections.Keys
              && (forall o :: o in sections ==> |p.files[o]| == |sections[o]|)
              && (p.files == sections <==> NoneFalse(sections, table, reference, bs))
            else p == Crashed
  {
    hide Cuts, TableOf, Fits, EachOnce, OrderIsSafe, Run, Arrivals, Rebuilt, HitsAreFull, NoFalseHit, PartsFit;
    var sent, table := SplitDelta(sections, weak, bs), TableOf(weak);
    assert sent.Keys == sections.Keys && |sent| == |sent.Keys| && |sections| == |sections.Keys|;
    SplitFits(sections, weak, bs);
    forall o | o in sections
      ensures Rebuilt(sent[o], reference, bs).Some? <==> HitsAreFull(sections[o], table, reference, bs)
      ensures Rebuilt(sent[o], reference, bs).Some? ==>
                |Rebuilt(sent[o], reference, bs).value| == |sections[o]|
      ensures Rebuilt(sent[o], reference, bs) == Some(sections[o])
              <==> NoFalseHit(sections[o], table, reference, bs)
    {
      DeltaParts(sections[o], weak, reference, bs);
    }
    EveryOrder(order, sent, fileIndex, reference, bs);
    SameRebuild(sections, sent, reference, bs);
    assert AllRebuild(sent, reference, bs) <==> AllFull(sections, table, reference, bs);
  }

  lemma SameRebuild(sections: map<int, seq<byte>>, sent: Sent, reference: Option<seq<byte>>, bs: nat)
    requires sent.Keys == sections.Keys
    ensures AllRebuild(sent, reference, bs) ==>
              (RebuiltFiles(sent, reference, bs) == sections
               <==> forall o :: o in sections ==> Rebuilt(sent[o], reference, bs) == Some(sections[o]))
  {
    hide Rebuilt;
    if AllRebuild(sent, reference, bs) {
      var files := RebuiltFiles(sent, reference, bs);
      forall o | o in sections
        ensures o in files && (files[o] == sections[o] <==> Rebuilt(sent[o], reference, bs) == Some(sections[o]))
      {
      }
      if forall o :: o in sections ==> Rebuilt(sent[o], reference, bs) == Some(sections[o]) {
        assert files.Keys == sections.Keys;
      }
    }
  }

  /** A file of more than 512 MiB read by several readers, in any arrival order: the writer completes exactly if every
      hit is a full block and no End but that of the last stream to finish is overtaken; the merged file is the source
      exactly if, besides, there are two readers and no false hits. */
  lemma SplitTransfer(file: seq<byte>, weak: seq<nat>, reference: Option<seq<byte>>, bs: nat, ccIo: nat,
                      fileIndex: int, order: seq<Id>)
    requires SPLIT_SIZE < |file| < INT64_LIMIT && 1 < ccIo < INT64_LIMIT && 0 < bs < |file| / ccIo
    requires |weak| < INT64_LIMIT && IsInt64(fileIndex)
    requires EachOnce(order, SplitDelta(SectionsOf(file, JobList(|file|, ccIo)), weak, bs))
    ensures var sections, table := SectionsOf(file, JobList(|file|, ccIo)), TableOf(weak);
            var sent := SplitDelta(sections, weak, bs);
            var p := Run(Writer(ccIo, map[]), Arrivals(order, sent, fileIndex), reference, bs);
            && order != [] && |sections| == ccIo
            && (if AllFull(sections, table, reference, bs) && OrderIsSafe(order, sent) then p.Complete?
                else p == Crashed)
            && (p.Complete? ==>
                  && |p.files| == ccIo
                  && forall dst: seq<byte> | IsDestination(dst, p.files) ::
                       dst == file <==> ccIo == 2 && NoneFalse(sections, table, reference, bs))
  {
    hide SectionMap, SectionsOf, SplitDelta, EachOnce, OrderIsSafe, Run, Arrivals, NoneFalse, AllFull, IsDestination;
    hide ChunkJobs, TableOf;
    var c := |file| / ccIo;
    ChunkSize(|file|, ccIo);
    SectionsOfChunks(file, c, ccIo, 0);
    var sections := SectionMap(file, c, ccIo, 0);
    SectionsBounded(file, c, ccIo, 0);
    var sent := SplitDelta(sections, weak, bs);
    OrderNotEmpty(order, sections, weak, bs);
    SectionsRebuilt(sections, weak, reference, bs, fileIndex, order);
    var p := Run(Writer(ccIo, map[]), Arrivals(order, sent, fileIndex), reference, bs);
    if p.Complete? {
      assert |p.files| == |p.files.Keys| && |sections| == |sections.Keys|;
      forall dst | IsDestination(dst, p.files)
        ensures dst == file <==> ccIo == 2 && NoneFalse(sections, TableOf(weak), reference, bs)
      {
        SplitDestination(file, ccIo, p.files, dst);
      }
    }
  }

  lemma OrderNotEmpty(order: seq<Id>, sections: map<int, seq<byte>>, weak: seq<nat>, bs: nat)
    requires bs > 0 && sections != map[] && EachOnce(order, SplitDelta(sections, weak, bs))
    requires forall o :: o in sections ==> bs <= |sections[o]|
    ensures order != []
  {
    hide Cuts, TableOf;
    var o := Pick(sections.Keys);
    assert InRange(Id(o, 0), SplitDelta(sections, weak, bs));
  }

  lemma {:induction false} SectionsBounded(file: seq<byte>, c: nat, ccIo: nat, chunk: nat)
    requires chunk <= ccIo && c > 0 && ccIo * c <= |file| < INT64_LIMIT
    ensures var sections := SectionMap(file, c, ccIo, chunk);
            && |sections| == ccIo - chunk
            && forall o :: o in sections ==> chunk * c <= o <= |file| && c <= |sections[o]| <= |file|
    decreases ccIo - chunk
  {
    if chunk < ccIo {
      SectionsBounded(file, c, ccIo, chunk + 1);
      SectionLength(file, c, ccIo, chunk);
      JobOffset(|file|, c, chunk);
      assert (chunk + 1) * c == chunk * c + c;
      assert chunk * c !in SectionMap(file, c, ccIo, chunk + 1);
    }
  }
}
