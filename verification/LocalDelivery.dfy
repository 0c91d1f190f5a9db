/** What a file's writer takes over a whole local sync is an arrival order it copes with. */
module LocalDelivery {
  import opened Types
  import opened LocalSync
  import opened LocalSyncInvariant
  import opened Pools
  import opened WriterMachine
  import opened Transfer
  import Wire
  import Theorems = LocalSyncTheorems

  /** The messages that file f's writer takes during a run, in order. */
  function Taken(c: Config, s: State, actions: seq<Action>, f: nat): seq<Msg>
    requires c.Valid() && Exec(c, s, actions).Some?
    decreases |actions|
  {
    if actions == [] then []
    else
      var rest := Taken(c, Step(c, s, actions[0]).value, actions[1..], f);
      if actions[0] == Consume(f) then [s.files.writers[f].inbox[0]] + rest else rest
  }

  ghost predicate OfFile(c: Config, q: seq<Msg>, f: nat) {
    forall k :: 0 <= k < |q| ==> q[k].Data? && q[k].j < |c.file| && c.file[q[k].j] == f
  }

  /** One step writes nothing of file f, unless f's writer takes a message: then the next one of its stream. */
  lemma StepWrites(c: Config, s: State, a: Action, f: nat, j: nat)
    requires c.Valid() && Inv(c, s) && Step(c, s, a).Some? && j < |c.file| && c.file[j] == f
    ensures var written' := Step(c, s, a).value.files.written;
            && |s.files.written| == |written'| == |c.file|
            && if a == Consume(f) then
                 && f in s.files.writers && s.files.writers[f].inbox != []
                 && var msg := s.files.writers[f].inbox[0];
                    && msg.Data? && msg.j < |c.file| && c.file[msg.j] == f && msg.m == s.files.written[msg.j]
                    && written'[j] == if j == msg.j then s.files.written[j] + 1 else s.files.written[j]
               else written'[j] == s.files.written[j]
  {
    hide PoolInv, LinkInv, WritersInv, PhaseInv, TakeItem, EmitOne, SendItem, TakesAfter, WritersDone;
    if a.Consume? {
      HeadInOrder(c, s.files, a.f);
    }
  }

  lemma ProjPrepend(msg: Msg, rest: seq<Msg>, j: nat)
    ensures Proj([msg] + rest, j) == if msg.Data? && msg.j == j then [msg.m] + Proj(rest, j) else Proj(rest, j)
  {
    ProjPop([msg] + rest, j);
    assert ([msg] + rest)[1..] == rest;
  }

  lemma WrittenLength(c: Config, s: State)
    requires c.Valid() && Inv(c, s)
    ensures |s.files.written| == |c.file|
  {
  }

  /** From `before` messages written of job j to `after`: the queue holds exactly these, in order. */
  ghost predicate Between(c: Config, q: seq<Msg>, f: nat, j: nat, before: seq<nat>, after: seq<nat>) {
    && |before| == |after| == |c.file| && j < |c.file|
    && before[j] <= after[j] && Proj(q, j) == Range(before[j], after[j]) && OfFile(c, q, f)
  }

  /** Of each of its streams, a writer takes exactly the messages that the run adds to what is written, in order. */
  lemma {:induction false} TakenInOrder(c: Config, s: State, actions: seq<Action>, f: nat, j: nat)
    requires c.Valid() && Inv(c, s) && Exec(c, s, actions).Some? && j < |c.file| && c.file[j] == f
    ensures Between(c, Taken(c, s, actions, f), f, j, s.files.written, Exec(c, s, actions).value.files.written)
    decreases |actions|
  {
    hide Inv, Step, Proj, Range;
    WrittenLength(c, s);
    if actions == [] {
      NothingTaken(c, f, j, s.files.written);
    } else {
      hide OfFile, Between;
      var a, s1 := actions[0], Step(c, s, actions[0]).value;
      StepKeepsInv(c, s, a);
      StepWrites(c, s, a, f, j);
      TakenInOrder(c, s1, actions[1..], f, j);
      var rest, after := Taken(c, s1, actions[1..], f), Exec(c, s1, actions[1..]).value.files.written;
      if a == Consume(f) {
        TakenOne(c, s.files.writers[f].inbox[0], rest, f, j, s.files.written, s1.files.written, after);
      } else {
        TakenNone(c, rest, f, j, s.files.written, s1.files.written, after);
      }
    }
  }

  lemma NothingTaken(c: Config, f: nat, j: nat, written: seq<nat>)
    requires |written| == |c.file| && j < |c.file|
    ensures Between(c, [], f, j, written, written)
  {
  }

  lemma TakenNone(c: Config, rest: seq<Msg>, f: nat, j: nat, before: seq<nat>, middle: seq<nat>, after: seq<nat>)
    requires Between(c, rest, f, j, middle, after) && |before| == |c.file| && middle[j] == before[j]
    ensures Between(c, rest, f, j, before, after)
  {
  }

  lemma TakenOne(c: Config, msg: Msg, rest: seq<Msg>, f: nat, j: nat, before: seq<nat>, middle: seq<nat>,
                 after: seq<nat>)
    requires |before| == |c.file| && j < |c.file| && c.file[j] == f
    requires msg.Data? && msg.j < |c.file| && c.file[msg.j] == f && msg.m == before[msg.j]
    requires Between(c, rest, f, j, middle, after) && middle[j] == if j == msg.j then before[j] + 1 else before[j]
    ensures Between(c, [msg] + rest, f, j, before, after)
  {
    hide OfFile, Proj, Range;
    OfFilePrepend(c, msg, rest, f);
    ProjPrepend(msg, rest, j);
    RangeFront(before[j], after[j]);
  }

  lemma OfFilePrepend(c: Config, msg: Msg, rest: seq<Msg>, f: nat)
    requires OfFile(c, rest, f) && msg.Data? && msg.j < |c.file| && c.file[msg.j] == f
    ensures OfFile(c, [msg] + rest, f)
  {
  }

  lemma RangeFront(lo: nat, hi: nat)
    ensures lo < hi ==> Range(lo, hi) == [lo] + Range(lo + 1, hi)
  {
  }

  lemma RangeBack(lo: nat, hi: nat, most: seq<nat>, m: nat)
    requires Range(lo, hi) == most + [m]
    ensures lo < hi && m == hi - 1 && most == Range(lo, hi - 1)
  {
    assert Range(lo, hi)[|most|] == m;
    assert Range(lo, hi)[..|most|] == most;
  }

  predicate IsOf(msg: Msg, j: nat) {
    msg.Data? && msg.j == j
  }

  ghost predicate Increasing(q: seq<Msg>, j: nat, lo: nat, hi: nat) {
    && (forall k :: 0 <= k < |q| && IsOf(q[k], j) ==> lo <= q[k].m < hi)
    && (forall k, l :: 0 <= k < l < |q| && IsOf(q[k], j) && IsOf(q[l], j) ==> q[k].m < q[l].m)
    && (forall m: nat :: lo <= m < hi ==> Data(j, m) in q)
  }

  /** A queue with all of lo .. hi in order: numbers grow along the queue and none is missing. */
  lemma {:induction false} ProjIncreases(q: seq<Msg>, j: nat, lo: nat, hi: nat)
    requires Proj(q, j) == Range(lo, hi) && lo <= hi
    ensures Increasing(q, j, lo, hi)
  {
    if q == [] {
      assert |Range(lo, hi)| == 0;
    } else {
      hide Range, Increasing;
      var most, last := q[..|q| - 1], q[|q| - 1];
      if IsOf(last, j) {
        RangeBack(lo, hi, Proj(most, j), last.m);
        ProjIncreases(most, j, lo, hi - 1);
      } else {
        ProjIncreases(most, j, lo, hi);
      }
      IncreasingPush(most, last, j, lo, hi);
      assert q == most + [last];
    }
  }

  lemma IncreasingPush(most: seq<Msg>, last: Msg, j: nat, lo: nat, hi: nat)
    requires if IsOf(last, j) then lo < hi && last.m == hi - 1 && Increasing(most, j, lo, hi - 1)
             else Increasing(most, j, lo, hi)
    ensures Increasing(most + [last], j, lo, hi)
  {
  }

  // ---- the writer's view ----

  /** Job j of file f sends the messages of the stream at offsets[j], and f has no other streams. */
  ghost predicate StreamsOf(c: Config, f: nat, offsets: seq<int>, sent: Sent) {
    && |offsets| == |c.file| == |c.msgs|
    && (forall i, j :: 0 <= i < j < |c.file| && c.file[i] == c.file[j] == f ==> offsets[i] != offsets[j])
    && (forall j :: 0 <= j < |c.file| && c.file[j] == f ==> offsets[j] in sent && |sent[offsets[j]]| == c.msgs[j])
    && (forall o :: o in sent ==> exists j :: 0 <= j < |c.file| && c.file[j] == f && offsets[j] == o)
  }

  /** How far f's writer gets with the messages of each of its streams. */
  ghost predicate DecodesAs(c: Config, f: nat, offsets: seq<int>, sent: Sent, reference: Option<seq<byte>>, bs: nat)
    requires c.Valid() && StreamsOf(c, f, offsets, sent)
  {
    forall j :: 0 <= j < |c.file| && c.file[j] == f ==>
      c.good[j] == Decodable(Bodies(sent[offsets[j]]), reference, bs)
  }

  /** If all messages of f decode, all its streams can be rebuilt. */
  lemma HealthyMeansRebuilt(c: Config, f: nat, offsets: seq<int>, sent: Sent, reference: Option<seq<byte>>, bs: nat)
    requires c.Valid() && c.Healthy() && StreamsOf(c, f, offsets, sent) && Fits(sent)
    requires DecodesAs(c, f, offsets, sent, reference, bs)
    ensures AllRebuild(sent, reference, bs)
  {
    hide Decodable, Rebuilt, PartsFit, Bodies;
    forall o | o in sent ensures Rebuilt(sent[o], reference, bs).Some? {
      var j :| 0 <= j < |c.file| && c.file[j] == f && offsets[j] == o;
      assert c.JobOk(j);
      FullyDecodable(sent[o], reference, bs);
    }
  }

  function Ids(q: seq<Msg>, offsets: seq<int>): (ids: seq<Id>)
    requires forall k :: 0 <= k < |q| ==> q[k].Data? && q[k].j < |offsets|
    ensures |ids| == |q| && forall k :: 0 <= k < |q| ==> ids[k] == Id(offsets[q[k].j], q[k].m)
  {
    seq(|q|, k requires 0 <= k < |q| => Id(offsets[q[k].j], q[k].m))
  }

  ghost predicate Whole(c: Config, q: seq<Msg>, f: nat)
    requires c.Valid()
  {
    OfFile(c, q, f) && forall j :: 0 <= j < |c.file| && c.file[j] == f ==> Proj(q, j) == Range(0, c.msgs[j])
  }

  lemma WholeIsEachOnce(c: Config, q: seq<Msg>, f: nat, offsets: seq<int>, sent: Sent)
    requires c.Valid() && Whole(c, q, f) && StreamsOf(c, f, offsets, sent)
    ensures EachOnce(Ids(q, offsets), sent)
  {
    hide Proj, Range, Ids;
    var ids := Ids(q, offsets);
    forall j | 0 <= j < |c.file| && c.file[j] == f
      ensures Increasing(q, j, 0, c.msgs[j])
    {
      ProjIncreases(q, j, 0, c.msgs[j]);
    }
    forall id | InRange(id, sent) ensures id in ids {
      var j :| 0 <= j < |c.file| && c.file[j] == f && offsets[j] == id.offset;
      assert Data(j, id.i) in q;
      var k :| 0 <= k < |q| && q[k] == Data(j, id.i);
      assert ids[k] == id;
    }
  }

  /** In-order streams are safe: no End is overtaken. */
  lemma WholeIsSafe(c: Config, q: seq<Msg>, f: nat, offsets: seq<int>, sent: Sent)
    requires c.Valid() && Whole(c, q, f) && StreamsOf(c, f, offsets, sent) && q != []
    ensures OrderIsSafe(Ids(q, offsets), sent)
  {
    hide Proj, Range, Ids;
    var ids := Ids(q, offsets);
    forall k, l | 0 <= k < l < |ids| && ids[k].offset == ids[l].offset
      ensures ids[k].i < ids[l].i < |sent[ids[k].offset]|
    {
      var j := q[k].j;
      assert q[l].j == j;
      ProjIncreases(q, j, 0, c.msgs[j]);
    }
  }

  /** Over every complete run, under every scheduling of sender, readers, receiver and writers: what file f's writer
      took is every message of every stream of f exactly once, in an order in which no End is overtaken, so that the
      writer ends with every stream rebuilt. */
  lemma LocalRunRebuilds(c: Config, actions: seq<Action>, f: nat, offsets: seq<int>, sent: Sent, fileIndex: int,
                         reference: Option<seq<byte>>, bs: nat)
    requires c.Valid() && f in c.file && Exec(c, Init(c), actions).Some?
    requires Exec(c, Init(c), actions).value.phase == Returned
    requires StreamsOf(c, f, offsets, sent) && Fits(sent) && Wire.IsInt64(fileIndex)
    requires DecodesAs(c, f, offsets, sent, reference, bs)
    ensures AllRebuild(sent, reference, bs)
    ensures var q := Taken(c, Init(c), actions, f);
            && OfFile(c, q, f) && EachOnce(Ids(q, offsets), sent)
            && Run(Writer(|sent|, map[]), Arrivals(Ids(q, offsets), sent, fileIndex), reference, bs)
               == Complete(RebuiltFiles(sent, reference, bs))
  {
    hide Exec, Taken, Inv, EachOnce, OrderIsSafe, Run, Arrivals, Proj, Range, Fits, DecodesAs, AllRebuild;
    hide Config.Healthy;
    var q := Taken(c, Init(c), actions, f);
    InitInv(c);
    Theorems.ReturnedMeansComplete(c, actions);
    HealthyMeansRebuilt(c, f, offsets, sent, reference, bs);
    forall j | 0 <= j < |c.file| && c.file[j] == f ensures Proj(q, j) == Range(0, c.msgs[j]) && OfFile(c, q, f) {
      TakenInOrder(c, Init(c), actions, f, j);
    }
    var j0 :| 0 <= j0 < |c.file| && c.file[j0] == f;
    JobHasMessages(c, j0);
    NotNone(q, j0, c.msgs[j0]);
    WholeIsEachOnce(c, q, f, offsets, sent);
    WholeIsSafe(c, q, f, offsets, sent);
    assert offsets[j0] in sent;
    EveryOrder(Ids(q, offsets), sent, fileIndex, reference, bs);
  }

  lemma JobHasMessages(c: Config, j: nat)
    requires c.Valid() && c.Healthy() && j < |c.msgs|
    ensures c.msgs[j] > 0
  {
    assert c.JobOk(j);
  }

  lemma NotNone(q: seq<Msg>, j: nat, n: nat)
    requires Proj(q, j) == Range(0, n) && n > 0
    ensures q != []
  {
  }

  /** The stream count in the headers is the number of streams. */
  lemma HeaderCountsStreams(c: Config, f: nat, offsets: seq<int>, sent: Sent)
    requires StreamsOf(c, f, offsets, sent)
    ensures c.Streams(f) == |sent|
  {
    var jobs := set j | 0 <= j < |c.file| && c.file[j] == f;
    forall o | o in sent ensures exists j :: j in jobs && offsets[j] == o {
      var j :| 0 <= j < |c.file| && c.file[j] == f && offsets[j] == o;
      assert j in jobs;
    }
    SameNumber(jobs, offsets, sent.Keys);
    assert |sent| == |sent.Keys|;
  }

  lemma {:induction false} SameNumber(jobs: set<nat>, offsets: seq<int>, keys: set<int>)
    requires forall j :: j in jobs ==> j < |offsets| && offsets[j] in keys
    requires forall i, j :: i in jobs && j in jobs && i != j ==> offsets[i] != offsets[j]
    requires forall o :: o in keys ==> exists j :: j in jobs && offsets[j] == o
    ensures |jobs| == |keys|
    decreases |keys|
  {
    if keys == {} {
      assert jobs == {};
    } else {
      var o := Pick(keys);
      var j :| j in jobs && offsets[j] == o;
      SameNumber(jobs - {j}, offsets, keys - {o});
    }
  }
}
