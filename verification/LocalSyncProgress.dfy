/** When a local sync can go on, who waits for what when it cannot, and when it returns. */
module LocalSyncProgress {
  import opened Types
  import opened Pools
  import opened LocalSync
  import opened LocalSyncInvariant
  import opened LocalSyncTheorems

  /** No step is possible. */
  ghost predicate Stuck(c: Config, s: State)
    requires c.Valid()
  {
    forall a: Action :: Step(c, s, a) == None
  }

  // ---- who waits for what ----

  /** A busy reader waits for room in the receiver's channel, an idle one for an item in its queue. */
  ghost predicate ReadersWait(c: Config, s: State, p: Pool) {
    forall r :: 0 <= r < |p.readers| ==>
      && (p.readers[r].Busy? ==> |s.link.ch| == c.ccIo)
      && (p.readers[r].Idle? ==> p.ch == [])
  }

  lemma ReadersBlocked(c: Config, s: State, ofRoll: bool)
    requires c.Valid() && PoolsInv(c, s) && WithinCapacity(c, s) && Stuck(c, s)
    ensures ReadersWait(c, s, PoolOf(s, ofRoll))
  {
    hide TakeItem, EmitOne, TakesAfter;
    var p := PoolOf(s, ofRoll);
    forall r | 0 <= r < |p.readers|
      ensures p.readers[r].Busy? ==> |s.link.ch| == c.ccIo
      ensures p.readers[r].Idle? ==> p.ch == []
    {
      assert Step(c, s, Emit(ofRoll, r)) == Step(c, s, Take(ofRoll, r)) == None;
      hide PoolsInv;
      if p.readers[r].Busy? {
        EmitHasMore(c, s, ofRoll, r);
      }
      if p.ch != [] {
        HeadIsJob(c, s, ofRoll);
      }
    }
  }

  lemma HeadIsJob(c: Config, s: State, ofRoll: bool)
    requires c.Valid() && PoolsInv(c, s) && PoolOf(s, ofRoll).ch != []
    ensures PoolOf(s, ofRoll).ch[0].JobItem? ==> PoolOf(s, ofRoll).ch[0].j < |s.takes|
  {
  }

  /** The sender waits for room in the queue whose turn it is, then for its readers; after that it waits for room in
      the receiver's channel, or it has sent its FIN or returned an error. */
  ghost predicate SenderWaits(c: Config, s: State)
    requires c.Valid()
  {
    var missing := |c.msgs| - c.diff;
    if s.roll.sent < c.diff then |s.roll.ch| == c.ccIo
    else if s.bytes.sent < missing then |s.bytes.ch| == c.ccIo
    else if c.diff > 0 && s.roll.sent < c.diff + c.ccIo then |s.roll.ch| == c.ccIo
    else if missing > 0 && s.bytes.sent < missing + c.ccIo then |s.bytes.ch| == c.ccIo
    else Stopped(s.roll) && Stopped(s.bytes) ==> s.link.finSent || s.aborted || |s.link.ch| == c.ccIo
  }

  lemma QueueFull(c: Config, s: State)
    requires c.Valid() && WithinCapacity(c, s) && SendStep(c, s) == None
    ensures SenderWaits(c, s) || AllSent(c, s) || s.roll.sent > c.Roll().jobs + c.Roll().fins
            || s.bytes.sent > c.Bytes().jobs + c.Bytes().fins
  {
    hide Stopped, SendItem;
  }

  lemma SenderStuck(c: Config, s: State)
    requires c.Valid() && Stuck(c, s)
    ensures SendStep(c, s) == None && Step(c, s, SendFin) == None && Step(c, s, Abort) == None
  {
    assert Step(c, s, Send) == SendStep(c, s);
  }

  lemma SenderBlocked(c: Config, s: State)
    requires c.Valid() && PoolsInv(c, s) && Orderly(c, s) && Stuck(c, s)
    ensures SenderWaits(c, s)
  {
    hide Stuck, Step, Stopped, SomeFailed, StoppedBeforeFin, FedInOrder, LossesInv, SendStep, PoolInv, WithinCapacity;
    SenderStuck(c, s);
    PoolBound(c.Roll(), s.roll, c.msgs, s.prog, s.takes);
    PoolBound(c.Bytes(), s.bytes, c.msgs, s.prog, s.takes);
    QueueFull(c, s);
    if FedAll(c, s) && Stopped(s.roll) && Stopped(s.bytes) {
      LastStep(c, s);
      assert |s.link.ch| <= c.ccIo by {
        CapacityOfLink(c, s);
      }
    }
  }

  lemma CapacityOfLink(c: Config, s: State)
    requires c.Valid() && WithinCapacity(c, s)
    ensures |s.link.ch| <= c.ccIo
  {
  }

  /** A message in the receiver's hand waits for room in its writer's inbox. With empty hands the receiver waits for a
      message; it waits no more once it has left its loop. */
  ghost predicate ReceiverWaits(c: Config, s: State)
    requires c.Valid()
  {
    && s.phase != Waiting
    && (s.link.hold.Some? ==>
          && s.link.hold.value.Data? && s.link.hold.value.j < |c.file|
          && var f := c.file[s.link.hold.value.j];
             f in s.files.live && f in s.files.writers && |s.files.writers[f].inbox| == c.Streams(f))
    && (s.link.hold == None && s.phase == Looping ==>
          s.link.ch == [] && (s.link.finSeen ==>
            exists f :: f in s.files.live && f in s.files.writers && s.files.writers[f].streams != 0))
  }

  /** Behind its loop, the receiver can return, or a writer can take itself out of the map. */
  lemma WaitingGoesOn(c: Config, s: State) returns (a: Action)
    requires c.Valid() && Inv(c, s) && s.phase == Waiting
    ensures Step(c, s, a).Some?
  {
    hide PoolInv, LinkInv, WritersInv;
    if s.files.live == {} {
      a := Return;
    } else {
      var f := Pick(s.files.live);
      a := Remove(f);
    }
  }

  lemma ReceiverBlocked(c: Config, s: State)
    requires c.Valid() && Inv(c, s) && WithinCapacity(c, s) && Stuck(c, s)
    ensures ReceiverWaits(c, s)
  {
    if s.phase == Waiting {
      hide Inv, Step;
      var a := WaitingGoesOn(c, s);
      assert false;
    }
    hide PoolInv, WritersInv, Lane, InChannel, Config.Streams;
    assert Step(c, s, Receive) == Step(c, s, Hand) == Step(c, s, Exit) == None;
    hide Stuck;
    if s.link.hold.Some? {
      InHand(s.link, c.msgs, s.prog, s.files.handed);
    }
  }

  /** A writer waits for a message, or has failed, or has finished and is out of the map. */
  ghost predicate WritersWait(files: Files) {
    forall f :: f in files.writers ==>
      && (files.writers[f].streams != 0 && !files.writers[f].failed ==> files.writers[f].inbox == [])
      && (files.writers[f].streams == 0 ==> f !in files.live)
  }

  lemma InboxEmpty(c: Config, files: Files, f: nat)
    requires c.Valid() && FilesInv(c, files) && f in files.writers && TakeIn(c, files, f) == None
    ensures files.writers[f].streams != 0 && !files.writers[f].failed ==> files.writers[f].inbox == []
  {
    hide WritersInv, TakeFirst;
    if files.writers[f].inbox != [] {
      HeadInOrder(c, files, f);
    }
  }

  lemma WritersBlocked(c: Config, s: State)
    requires c.Valid() && Inv(c, s) && Stuck(c, s)
    ensures WritersWait(s.files)
  {
    hide PoolInv, LinkInv, PhaseInv, FilesInv, TakeIn;
    forall f | f in s.files.writers
      ensures s.files.writers[f].streams != 0 && !s.files.writers[f].failed ==> s.files.writers[f].inbox == []
      ensures s.files.writers[f].streams == 0 ==> f !in s.files.live
    {
      assert Step(c, s, Consume(f)) == Step(c, s, Remove(f)) == None;
      InboxEmpty(c, s.files, f);
    }
  }

  /** In every run that cannot go on: who waits for what. */
  lemma Blocked(c: Config, actions: seq<Action>)
    requires c.Valid() && Exec(c, Init(c), actions).Some? && Stuck(c, Exec(c, Init(c), actions).value)
    ensures var s := Exec(c, Init(c), actions).value;
            && ReadersWait(c, s, s.roll) && ReadersWait(c, s, s.bytes)
            && SenderWaits(c, s) && ReceiverWaits(c, s) && WritersWait(s.files)
  {
    hide Exec, Steps, Stuck, PoolInv, LinkInv, FilesInv, PhaseInv, StoppedBeforeFin, FedInOrder, WithinCapacity;
    hide LossesInv, ReadersWait, SenderWaits, ReceiverWaits, WritersWait;
    FromStart(c, actions);
    var s := Exec(c, Init(c), actions).value;
    ReadersBlocked(c, s, true);
    ReadersBlocked(c, s, false);
    SenderBlocked(c, s);
    ReceiverBlocked(c, s);
    WritersBlocked(c, s);
  }

  // ---- why a sync gets stuck ----

  ghost predicate SomeWriterFailed(files: Files) {
    exists f :: f in files.writers && files.writers[f].failed
  }

  /** A pool that nobody reads from any more: all its readers have failed, its queue is full and not everything was
      sent. */
  ghost predicate Abandoned(p: Pool, items: nat, ccIo: nat) {
    && p.sent < items && |p.ch| == ccIo
    && |p.readers| == ccIo && forall r :: 0 <= r < |p.readers| ==> p.readers[r].Errored?
  }

  /** Without a failed writer, the receiver's hands are empty when nothing can happen. */
  lemma HandsEmpty(c: Config, s: State)
    requires c.Valid() && Inv(c, s) && ReceiverWaits(c, s) && WritersWait(s.files) && !SomeWriterFailed(s.files)
    ensures s.link.hold == None
  {
    hide PoolInv, LinkInv, PhaseInv, WritersInv, Config.Streams;
    if s.link.hold.Some? {
      InHand(s.link, c.msgs, s.prog, s.files.handed);
      var j := s.link.hold.value.j;
      WithinJob(c, s.files, j);
      OutstandingMeansLive(c, s.files, j);
      HasStream(c, j);
    }
  }

  /** A writer that has not failed and whose messages, some for each job, were all handed on has one in its inbox or has
      finished. */
  lemma NothingToTake(c: Config, files: Files, f: nat)
    requires c.Valid() && FilesInv(c, files) && files.handed == c.msgs
    requires forall j :: 0 <= j < |c.msgs| ==> c.msgs[j] > 0
    requires f in files.writers && files.writers[f].inbox == [] && !files.writers[f].failed
    ensures files.writers[f].streams == 0
  {
    var w := files.writers[f];
    assert WriterInv(c, w, f, files.handed, files.written);
    forall j | 0 <= j < |c.file| && c.file[j] == f ensures files.written[j] == c.msgs[j] && c.JobOk(j) {
      WithinJob(c, files, j);
      assert [] == Proj(w.inbox, j) == Range(files.written[j], files.handed[j]);
      assert |Range(files.written[j], files.handed[j])| == files.handed[j] - files.written[j];
    }
    assert Unended(c, files.written, f) == {};
  }

  /** Without a failed writer, the receiver is in its loop, its channel empty and the FIN not sent, when nothing can
      happen before the return. */
  lemma WaitsForSender(c: Config, s: State)
    requires c.Valid() && Inv(c, s) && StoppedBeforeFin(c, s) && s.phase != Returned
    requires ReceiverWaits(c, s) && WritersWait(s.files) && !SomeWriterFailed(s.files)
    ensures s.link.ch == [] && !s.link.finSent
  {
    HandsEmpty(c, s);
    if s.link.finSeen {
      FinIsLast(c, s);
      assert s.link.finSent;
      PoolsDrained(c, s);
      hide PoolInv, LinkInv, PhaseInv, FilesInv, StoppedBeforeFin;
      var f :| f in s.files.live && f in s.files.writers && s.files.writers[f].streams != 0;
      NothingToTake(c, s.files, f);
      assert false;
    }
  }

  /** A pool that waits although the receiver's channel is empty: all its items were taken and all its readers have
      returned, or it is abandoned. */
  lemma WaitingPool(a: PoolConfig, p: Pool, msgs: seq<nat>, prog: seq<nat>, takes: seq<nat>, ccIo: nat)
    requires PoolInv(a, p, msgs, prog, takes) && a.fins == a.size && ccIo > 0 && (a.size == 0 || a.size == ccIo)
    requires forall r :: 0 <= r < |p.readers| ==> !p.readers[r].Busy? && (p.readers[r].Idle? ==> p.ch == [])
    ensures p.sent == a.jobs + a.fins ==> Stopped(p)
    ensures p.sent < a.jobs + a.fins && |p.ch| == ccIo && a.size == ccIo ==> Abandoned(p, a.jobs + ccIo, ccIo)
  {
    CountBounds(p.readers);
    forall r | 0 <= r < |p.readers| && p.taken <= a.jobs ensures !p.readers[r].Exited? {
      CountNone(p.readers, r);
    }
    hide CountExited, Work;
  }

  /** With a non-empty diff list and before the return: nothing can happen only after the sender has returned an error
      or a writer has failed, or when all readers of a pool have failed while the sender still waits to send it
      something. */
  lemma StuckMeans(c: Config, s: State)
    requires c.Valid() && Inv(c, s) && Orderly(c, s) && Stuck(c, s) && c.diff > 0 && s.phase != Returned
    ensures s.aborted || SomeWriterFailed(s.files)
            || Abandoned(s.roll, c.diff + c.ccIo, c.ccIo) || Abandoned(s.bytes, |c.msgs| - c.diff + c.ccIo, c.ccIo)
  {
    ReadersBlocked(c, s, true);
    ReadersBlocked(c, s, false);
    SenderBlocked(c, s);
    ReceiverBlocked(c, s);
    WritersBlocked(c, s);
    if !s.aborted && !SomeWriterFailed(s.files) {
      WaitsForSender(c, s);
      WaitingPool(c.Roll(), s.roll, c.msgs, s.prog, s.takes, c.ccIo);
      WaitingPool(c.Bytes(), s.bytes, c.msgs, s.prog, s.takes, c.ccIo);
      assert s.roll.sent <= c.Roll().jobs + c.Roll().fins && s.bytes.sent <= c.Bytes().jobs + c.Bytes().fins;
      hide PoolInv, LinkInv, FilesInv, PhaseInv, Stuck, WithinCapacity, FedInOrder, StoppedBeforeFin, LossesInv;
    }
  }

  /** Each of those needs a job that cannot be carried out. */
  lemma HealthyNeverStuck(c: Config, s: State)
    requires c.Valid() && Inv(c, s) && Orderly(c, s) && c.diff > 0 && c.Healthy() && s.phase != Returned
    ensures !Stuck(c, s)
  {
    if Stuck(c, s) {
      StuckMeans(c, s);
      HealthyNeverAborts(c, s);
      NoneAbandoned(c.Roll(), s.roll, c, s.prog, s.takes, c.diff + c.ccIo);
      NoneAbandoned(c.Bytes(), s.bytes, c, s.prog, s.takes, |c.msgs| - c.diff + c.ccIo);
      hide Stuck, PoolInv, LinkInv, FilesInv, PhaseInv, StoppedBeforeFin, FedInOrder, WithinCapacity, LossesInv;
      var f :| f in s.files.writers && s.files.writers[f].failed;
      HealthyNeverFails(c, s.files, f);
      assert false;
    }
  }

  lemma NoneAbandoned(a: PoolConfig, p: Pool, c: Config, prog: seq<nat>, takes: seq<nat>, items: nat)
    requires c.Valid() && PoolInv(a, p, c.msgs, prog, takes) && c.Healthy()
    ensures !Abandoned(p, items, c.ccIo)
  {
    assert forall j :: IsJob(a, j) ==> c.JobOk(j);
  }

  /** No deadlock: with a non-empty diff list of jobs that can be carried out, something can happen until the receiver
      has returned. */
  lemma Progress(c: Config, s: State) returns (a: Action)
    requires c.Valid() && Inv(c, s) && Orderly(c, s) && c.diff > 0 && c.Healthy() && s.phase != Returned
    ensures Step(c, s, a).Some?
  {
    hide Inv, Orderly, Config.Healthy, Step;
    HealthyNeverStuck(c, s);
    a :| Step(c, s, a) != None;
  }

  // ---- completion ----

  /** Every run of a sync with a non-empty diff list of jobs that can be carried out can be continued until the receiver
      returns. */
  lemma {:induction false} RunsCanComplete(c: Config, actions: seq<Action>) returns (all: seq<Action>)
    requires c.Valid() && c.diff > 0 && c.Healthy() && Exec(c, Init(c), actions).Some?
    ensures actions <= all && Exec(c, Init(c), all).Some? && Exec(c, Init(c), all).value.phase == Returned
    decreases Total(c) - |actions|
  {
    hide Inv, Exec, Orderly, Step, Total, Config.Healthy;
    var s := Exec(c, Init(c), actions).value;
    if s.phase == Returned {
      all := actions;
    } else {
      FromStart(c, actions);
      var a := Progress(c, s);
      ExecAppend(c, Init(c), actions, a);
      RunsAreBounded(c, actions + [a]);
      all := RunsCanComplete(c, actions + [a]);
    }
  }

  ghost predicate CanReturn(c: Config)
    requires c.Valid()
  {
    exists actions :: Exec(c, Init(c), actions).Some? && Exec(c, Init(c), actions).value.phase == Returned
  }

  /** A local sync can return exactly if the diff list is not empty, every reader can read its job, and every writer can
      decode its messages. Roll readers are spawned in any case, but get FINs only for a non-empty list; a sender one of
      whose readers failed sends no FIN; a writer that failed stays in the map. */
  lemma ReturnsIff(c: Config)
    requires c.Valid()
    ensures CanReturn(c) <==> c.diff > 0 && c.Healthy()
  {
    hide Config.Healthy;
    forall actions | Exec(c, Init(c), actions).Some? && Exec(c, Init(c), actions).value.phase == Returned
      ensures c.diff > 0 && c.Healthy()
    {
      ReturnedMeansComplete(c, actions);
    }
    if c.diff > 0 && c.Healthy() {
      var all := RunsCanComplete(c, []);
    }
  }

  /** In every run that cannot go on: the receiver has returned exactly if the diff list is not empty and all jobs can
      be carried out; otherwise there is no diff file, or the sender has returned an error, or a writer has failed, or
      a pool is abandoned. */
  lemma HowItEnds(c: Config, actions: seq<Action>)
    requires c.Valid() && Exec(c, Init(c), actions).Some? && Stuck(c, Exec(c, Init(c), actions).value)
    ensures var s := Exec(c, Init(c), actions).value;
            && (s.phase == Returned <==> c.diff > 0 && c.Healthy())
            && (s.phase != Returned ==>
                  c.diff == 0 || s.aborted || SomeWriterFailed(s.files) || Abandoned(s.roll, c.diff + c.ccIo, c.ccIo)
                  || Abandoned(s.bytes, |c.msgs| - c.diff + c.ccIo, c.ccIo))
  {
    hide Exec, Inv, Steps, Stuck, Orderly, Config.Healthy, SomeWriterFailed, Abandoned;
    FromStart(c, actions);
    var s := Exec(c, Init(c), actions).value;
    if s.phase == Returned {
      ReturnedMeansComplete(c, actions);
    } else if c.diff > 0 {
      StuckMeans(c, s);
      if c.Healthy() {
        HealthyNeverStuck(c, s);
      }
    }
  }

  lemma AbandonedPool(a: PoolConfig, p: Pool, msgs: seq<nat>, prog: seq<nat>, takes: seq<nat>, ccIo: nat)
    requires PoolInv(a, p, msgs, prog, takes) && Losses(a, p) && Abandoned(p, a.jobs + ccIo, ccIo)
    ensures a.size == ccIo && |Unreadable(msgs, a.first, a.jobs - 1)| >= ccIo
  {
    hide Unreadable, Work, Losses, CountExited;
    AllLostMeansManyLosses(a, p, msgs, prog, takes);
  }

  lemma FewLossesMeansNoneAbandoned(c: Config, s: State)
    requires c.Valid() && PoolsInv(c, s) && LossesInv(c, s) && FewLosses(c) && c.diff > 0
    ensures !Abandoned(s.roll, c.diff + c.ccIo, c.ccIo)
    ensures !Abandoned(s.bytes, |c.msgs| - c.diff + c.ccIo, c.ccIo)
  {
    UnreadableJobs(c);
    hide Unreadable, PoolInv, Losses, Abandoned;
    if Abandoned(s.roll, c.diff + c.ccIo, c.ccIo) {
      AbandonedPool(c.Roll(), s.roll, c.msgs, s.prog, s.takes, c.ccIo);
    }
    if Abandoned(s.bytes, |c.msgs| - c.diff + c.ccIo, c.ccIo) {
      AbandonedPool(c.Bytes(), s.bytes, c.msgs, s.prog, s.takes, c.ccIo);
    }
  }

  /** If whatever is sent decodes, in every run of a sync with diff files that cannot go on: the sender has returned,
      behind its FIN or with an error, exactly if few enough jobs cannot be read. Otherwise it waits for ever to hand
      on a job that no reader is left to take. */
  lemma SenderReturnsIff(c: Config, actions: seq<Action>)
    requires c.Valid() && c.diff > 0 && forall j :: 0 <= j < |c.msgs| ==> c.good[j] == c.msgs[j]
    requires Exec(c, Init(c), actions).Some? && Stuck(c, Exec(c, Init(c), actions).value)
    ensures var s := Exec(c, Init(c), actions).value; s.link.finSent || s.aborted <==> FewLosses(c)
  {
    var s := Exec(c, Init(c), actions).value;
    if FewLosses(c) {
      hide Exec, Steps, PoolInv, LinkInv, FilesInv, PhaseInv, Stuck, StoppedBeforeFin, FedInOrder, WithinCapacity;
      hide LossesInv, Abandoned, FewLosses;
      FromStart(c, actions);
      FewLossesMeansNoneAbandoned(c, s);
      NoneUndecodable(c, s.files);
      if s.phase == Returned {
        ReturnedMeansFin(c, s);
      } else {
        StuckMeans(c, s);
      }
    } else {
      hide Exec, FewLosses, Stuck;
      ManyLossesHang(c, actions);
    }
  }

  lemma NoneUndecodable(c: Config, files: Files)
    requires c.Valid() && FilesInv(c, files) && forall j :: 0 <= j < |c.msgs| ==> c.good[j] == c.msgs[j]
    ensures !SomeWriterFailed(files)
  {
    forall f | f in files.writers ensures !files.writers[f].failed {
      hide InboxInv, Unended;
      assert WriterInv(c, files.writers[f], f, files.handed, files.written);
      forall j | 0 <= j < |c.file| && c.file[j] == f ensures files.written[j] <= c.good[j] {
        WithinJob(c, files, j);
      }
    }
  }
}
