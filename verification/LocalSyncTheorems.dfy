/** Safety, completion and run length of a local sync. */
module LocalSyncTheorems {
  import opened Types
  import opened Pools
  import opened LocalSync
  import opened LocalSyncInvariant

  // ---- safety ----

  /** In every run: FINs still to be taken are as many as readers that have taken none, in each pool that gets FINs. */
  lemma FinsMatchReaders(c: Config, actions: seq<Action>)
    requires c.Valid() && Exec(c, Init(c), actions).Some?
    ensures var s := Exec(c, Init(c), actions).value;
            && (c.diff > 0 ==>
                  c.diff + c.ccIo - Max(s.roll.taken, c.diff) == c.ccIo - CountExited(s.roll.readers))
            && (c.diff < |c.msgs| ==>
                  |c.msgs| - c.diff + c.ccIo - Max(s.bytes.taken, |c.msgs| - c.diff)
                  == c.ccIo - CountExited(s.bytes.readers))
  {
    hide PoolInv, LinkInv, FilesInv, PhaseInv, Exec;
    InitInv(c);
    RunKeepsInv(c, Init(c), actions);
    var s := Exec(c, Init(c), actions).value;
    if c.diff > 0 {
      PoolAccounting(c.Roll(), s.roll, c.msgs, s.prog, s.takes);
    }
    if c.diff < |c.msgs| {
      PoolAccounting(c.Bytes(), s.bytes, c.msgs, s.prog, s.takes);
    }
  }

  /** In every run: once all readers have returned, every job that was taken was taken by one reader, which has sent all
      its messages or has failed over it; if none failed, that is every job, and nothing is left in the queues. */
  lemma ReadersReturnedMeansProcessed(c: Config, actions: seq<Action>)
    requires c.Valid() && Exec(c, Init(c), actions).Some?
    requires var s := Exec(c, Init(c), actions).value; AllReturned(s.roll) && AllReturned(s.bytes)
    ensures var s := Exec(c, Init(c), actions).value;
            && |s.takes| == |s.prog| == |c.msgs|
            && (forall j :: 0 <= j < |c.msgs| ==>
                  && 0 <= s.takes[j] <= 1
                  && (s.takes[j] == 1 ==>
                        if c.msgs[j] == 0 then Errored(j) in s.roll.readers || Errored(j) in s.bytes.readers
                        else s.prog[j] == c.msgs[j]))
            && (AllExited(s.roll) && AllExited(s.bytes) ==>
                  && s.prog == c.msgs && s.roll.ch == [] && s.bytes.ch == []
                  && forall j :: 0 <= j < |c.msgs| ==> s.takes[j] == 1 && c.msgs[j] > 0)
  {
    hide PoolInv, LinkInv, FilesInv, PhaseInv, Exec;
    InitInv(c);
    RunKeepsInv(c, Init(c), actions);
    var s := Exec(c, Init(c), actions).value;
    PoolLengths(c, s);
    PoolReturned(c.Roll(), s.roll, c.msgs, s.prog, s.takes);
    PoolReturned(c.Bytes(), s.bytes, c.msgs, s.prog, s.takes);
    forall j | 0 <= j < |c.msgs|
      ensures 0 <= s.takes[j] <= 1
      ensures s.takes[j] == 1 ==>
                if c.msgs[j] == 0 then Errored(j) in s.roll.readers || Errored(j) in s.bytes.readers
                else s.prog[j] == c.msgs[j]
    {
      assert IsJob(c.Roll(), j) || IsJob(c.Bytes(), j);
    }
    if AllExited(s.roll) && AllExited(s.bytes) {
      AllProcessed(c, s);
    }
  }

  /** Nothing of a job is on its way once the FIN has been received. */
  lemma FinIsLast(c: Config, s: State)
    requires c.Valid() && Inv(c, s) && s.link.finSeen
    ensures s.prog == c.msgs && s.files.handed == c.msgs && s.link.ch == [] && s.link.hold == None
  {
    hide PoolInv, FilesInv;
    forall j | 0 <= j < |c.msgs| ensures s.files.handed[j] == c.msgs[j] {
      assert Lane(s.link, c.msgs, s.prog, s.files.handed, j);
      assert Range(Next(s.link, s.files.handed, j), s.prog[j]) == [];
    }
  }

  /** In every run: a file never gets a second writer, and a message in the receiver's hand is for a file that has no
      writer yet or one that is in the map and has not finished. */
  lemma OneWriterPerFile(c: Config, actions: seq<Action>)
    requires c.Valid() && Exec(c, Init(c), actions).Some?
    ensures var s := Exec(c, Init(c), actions).value;
            && (forall f :: f in s.files.created ==> s.files.created[f] == 1)
            && (s.link.hold.Some? ==>
                  && s.link.hold.value.Data? && s.link.hold.value.j < |c.file|
                  && var f := c.file[s.link.hold.value.j];
                     f in s.files.writers ==> f in s.files.live && s.files.writers[f].streams > 0)
  {
    hide PoolInv, WritersInv, Exec, PhaseInv;
    InitInv(c);
    RunKeepsInv(c, Init(c), actions);
    var s := Exec(c, Init(c), actions).value;
    if s.link.hold.Some? {
      InHand(s.link, c.msgs, s.prog, s.files.handed);
      var j := s.link.hold.value.j;
      OutstandingMeansLive(c, s.files, j);
    }
  }

  /** If a writer's streams have ended, everything of its file is written, and all of it decoded. */
  lemma EndedMeansWritten(c: Config, files: Files, j: nat)
    requires c.Valid() && FilesInv(c, files) && j < |c.file|
    requires c.file[j] in files.writers && files.writers[c.file[j]].streams == 0
    ensures files.written[j] == c.msgs[j] && c.JobOk(j)
  {
    WithinJob(c, files, j);
    hide InboxInv, FailedRightly;
    var w := files.writers[c.file[j]];
    assert WriterInv(c, w, c.file[j], files.handed, files.written);
    assert j !in Unended(c, files.written, c.file[j]);
  }

  /** Only a job that cannot be carried out makes a writer fail. */
  lemma HealthyNeverFails(c: Config, files: Files, f: nat)
    requires c.Valid() && FilesInv(c, files) && c.Healthy() && f in files.writers
    ensures !files.writers[f].failed
  {
    hide InboxInv, Unended;
    assert WriterInv(c, files.writers[f], f, files.handed, files.written);
    forall j | 0 <= j < |c.file| && c.file[j] == f ensures files.written[j] <= c.good[j] {
      WithinJob(c, files, j);
      assert c.JobOk(j);
    }
  }

  /** The readers have all left on a FIN, and the sender has sent everything, before its own FIN; it sends none if it
      returns an error, once all readers have returned, some of them with an error. */
  ghost predicate StoppedBeforeFin(c: Config, s: State)
    requires c.Valid()
  {
    && (s.link.finSent ==> AllExited(s.roll) && AllExited(s.bytes) && AllSent(c, s) && !s.aborted)
    && (s.aborted ==>
          AllReturned(s.roll) && AllReturned(s.bytes) && !(AllExited(s.roll) && AllExited(s.bytes)) && AllSent(c, s))
  }

  lemma StepKeepsStopped(c: Config, s: State, a: Action)
    requires c.Valid() && StoppedBeforeFin(c, s) && Step(c, s, a).Some?
    ensures StoppedBeforeFin(c, Step(c, s, a).value)
  {
    hide Started, EmitOne, ItemAt, TakesAfter, HandOver, TakeIn, WritersDone;
  }

  /** The sender feeds the readers in a fixed order: the diff jobs, the missing-file jobs, the roll readers' FINs, the
      bytes readers' FINs. */
  ghost predicate FedInOrder(c: Config, s: State)
    requires c.Valid()
  {
    && (s.bytes.sent > 0 ==> s.roll.sent >= c.diff)
    && (s.roll.sent > c.diff ==> s.bytes.sent >= |c.msgs| - c.diff)
    && (s.bytes.sent > |c.msgs| - c.diff ==> s.roll.sent >= c.diff + (if c.diff > 0 then c.ccIo else 0))
  }

  lemma StepKeepsOrder(c: Config, s: State, a: Action)
    requires c.Valid() && FedInOrder(c, s) && Step(c, s, a).Some?
    ensures FedInOrder(c, Step(c, s, a).value)
  {
    hide Started, ItemAt, TakesAfter, HandOver, TakeIn, WritersDone, AllExited, AllReturned;
  }

  /** No channel holds more than its capacity. */
  ghost predicate WithinCapacity(c: Config, s: State)
    requires c.Valid()
  {
    && |s.roll.ch| <= c.ccIo && |s.bytes.ch| <= c.ccIo && |s.link.ch| <= c.ccIo
    && forall f :: f in s.files.writers ==> |s.files.writers[f].inbox| <= c.Streams(f)
  }

  lemma HasStream(c: Config, j: nat)
    requires c.Valid() && j < |c.file|
    ensures c.Streams(c.file[j]) > 0
  {
    var jobs := set i | 0 <= i < |c.file| && c.file[i] == c.file[j];
    Nonempty(jobs, j);
  }

  lemma StepKeepsCapacity(c: Config, s: State, a: Action)
    requires c.Valid() && WithinCapacity(c, s) && Step(c, s, a).Some?
    ensures WithinCapacity(c, Step(c, s, a).value)
  {
    if a.Hand? && s.link.hold.value.j < |c.file| {
      HasStream(c, s.link.hold.value.j);
    }
    hide Started, ItemAt, TakesAfter, WritersDone, AllExited, AllReturned, Config.Streams;
  }

  ghost predicate LossesInv(c: Config, s: State)
    requires c.Valid()
  {
    Losses(c.Roll(), s.roll) && Losses(c.Bytes(), s.bytes)
  }

  lemma TakeStepKeepsLosses(c: Config, s: State, ofRoll: bool, r: nat)
    requires c.Valid() && PoolsInv(c, s) && LossesInv(c, s) && TakeStep(c, s, ofRoll, r).Some?
    ensures LossesInv(c, TakeStep(c, s, ofRoll, r).value)
  {
    hide Work, Losses, TakeItem, CountExited, TakesAfter;
    TakeKeepsLosses(if ofRoll then c.Roll() else c.Bytes(), PoolOf(s, ofRoll), r, c.msgs);
  }

  lemma EmitStepKeepsLosses(c: Config, s: State, ofRoll: bool, r: nat)
    requires c.Valid() && LossesInv(c, s) && EmitStep(c, s, ofRoll, r).Some?
    ensures LossesInv(c, EmitStep(c, s, ofRoll, r).value)
  {
    hide Losses, EmitOne;
    var j := PoolOf(s, ofRoll).readers[r].j;
    EmitKeepsLosses(if ofRoll then c.Roll() else c.Bytes(), PoolOf(s, ofRoll), r, s.prog[j] + 1 == c.msgs[j]);
  }

  lemma StepKeepsLosses(c: Config, s: State, a: Action)
    requires c.Valid() && PoolsInv(c, s) && LossesInv(c, s) && Step(c, s, a).Some?
    ensures LossesInv(c, Step(c, s, a).value)
  {
    hide PoolInv, TakeStep, EmitStep, HandOver, TakeIn, WritersDone, AllExited, AllReturned, AllSent, ItemAt;
    if a.Take? {
      TakeStepKeepsLosses(c, s, a.ofRoll, a.r);
    } else if a.Emit? {
      EmitStepKeepsLosses(c, s, a.ofRoll, a.r);
    }
  }

  /** What the steps keep beside the invariant. */
  ghost predicate Orderly(c: Config, s: State)
    requires c.Valid()
  {
    StoppedBeforeFin(c, s) && FedInOrder(c, s) && WithinCapacity(c, s) && LossesInv(c, s)
  }

  /** Only a job that cannot be read makes the sender return an error. */
  lemma HealthyNeverAborts(c: Config, s: State)
    requires c.Valid() && Inv(c, s) && StoppedBeforeFin(c, s) && c.Healthy()
    ensures !s.aborted
  {
    if s.aborted {
      PoolReturned(c.Roll(), s.roll, c.msgs, s.prog, s.takes);
      PoolReturned(c.Bytes(), s.bytes, c.msgs, s.prog, s.takes);
      AllExitedIfHealthy(c, s.roll);
      AllExitedIfHealthy(c, s.bytes);
      assert false;
    }
  }

  lemma AllExitedIfHealthy(c: Config, p: Pool)
    requires |c.msgs| == |c.good| && c.Healthy() && AllReturned(p)
    requires forall r :: 0 <= r < |p.readers| && p.readers[r].Errored? ==>
               p.readers[r].j < |c.msgs| && c.msgs[p.readers[r].j] == 0
    ensures AllExited(p)
  {
    forall r | 0 <= r < |p.readers| ensures p.readers[r].Exited? {
      assert p.readers[r].Errored? ==> !c.JobOk(p.readers[r].j);
    }
  }

  // ---- run length ----

  function Sum(xs: seq<nat>): nat {
    if xs == [] then 0 else Sum(xs[..|xs| - 1]) + xs[|xs| - 1]
  }

  lemma {:induction false} SumUpdate(xs: seq<nat>, i: nat, x: nat)
    requires i < |xs|
    ensures Sum(xs[i := x]) == Sum(xs) - xs[i] + x
  {
    var n := |xs| - 1;
    if i < n {
      SumUpdate(xs[..n], i, x);
      assert xs[i := x][..n] == xs[..n][i := x];
    } else {
      assert xs[i := x][..n] == xs[..n];
    }
  }

  lemma {:induction false} SumMonotone(xs: seq<nat>, ys: seq<nat>)
    requires |xs| == |ys| && forall i :: 0 <= i < |xs| ==> xs[i] <= ys[i]
    ensures Sum(xs) <= Sum(ys)
  {
    if xs != [] {
      SumMonotone(xs[..|xs| - 1], ys[..|ys| - 1]);
    }
  }

  lemma {:induction false} SumZeros(n: nat)
    ensures Sum(Zeros(n)) == 0
  {
    if n > 0 {
      SumZeros(n - 1);
      assert Zeros(n)[..n - 1] == Zeros(n - 1);
    }
  }

  /** How many steps it takes to reach a state: every item sent and taken, every message emitted, received, handed on
      and written, every writer removed, and the two FINs and phases. */
  function Steps(s: State): int {
    PoolSteps(s.roll) + PoolSteps(s.bytes) + Sum(s.prog) + LinkSteps(s.link) + FileSteps(s.files)
    + EndSteps(s.phase, s.aborted)
  }

  function PoolSteps(p: Pool): nat {
    p.sent + p.taken
  }

  function LinkSteps(l: Link): nat {
    (if l.hold.Some? then 1 else 0) + (if l.finSent then 1 else 0) + (if l.finSeen then 1 else 0)
  }

  /** The files that got a writer. */
  function WithWriter(files: Files): set<nat> {
    files.writers.Keys
  }

  function FileSteps(files: Files): int {
    2 * Sum(files.handed) + Sum(files.written) + |WithWriter(files)| - |files.live|
  }

  function EndSteps(phase: Phase, aborted: bool): nat {
    (if aborted then 1 else 0) + (match phase case Looping => 0 case Waiting => 1 case Returned => 2)
  }

  /** Every step counts one. */
  lemma StepCounts(c: Config, s: State, a: Action)
    requires c.Valid() && Inv(c, s) && Step(c, s, a).Some?
    ensures Steps(Step(c, s, a).value) == Steps(s) + 1
  {
    hide Inv, Steps, SendStep, TakeStep, EmitStep, SendFinStep, AbortStep, ReceiveStep, HandStep, ConsumeStep,
      RemoveStep, ExitStep, ReturnStep;
    match a {
      case Send => SendCounts(c, s);
      case Take(ofRoll, r) => TakeCounts(c, s, ofRoll, r);
      case Emit(ofRoll, r) => EmitCounts(c, s, ofRoll, r);
      case SendFin => EndCounts(c, s, a);
      case Abort => EndCounts(c, s, a);
      case Receive => ReceiveCounts(c, s);
      case Hand => HandCounts(c, s);
      case Consume(f) => ConsumeCounts(c, s, f);
      case Remove(f) => EndCounts(c, s, a);
      case Exit => EndCounts(c, s, a);
      case Return => EndCounts(c, s, a);
    }
  }

  lemma SendCounts(c: Config, s: State)
    requires c.Valid() && SendStep(c, s).Some?
    ensures Steps(SendStep(c, s).value) == Steps(s) + 1
  {
    hide Sum, ItemAt, LinkSteps, FileSteps, EndSteps;
  }

  lemma TakeCounts(c: Config, s: State, ofRoll: bool, r: nat)
    requires c.Valid() && TakeStep(c, s, ofRoll, r).Some?
    ensures Steps(TakeStep(c, s, ofRoll, r).value) == Steps(s) + 1
  {
    hide Sum, Started, TakesAfter, LinkSteps, FileSteps, EndSteps;
  }

  lemma EndCounts(c: Config, s: State, a: Action)
    requires c.Valid() && (a.SendFin? || a.Abort? || a.Remove? || a.Exit? || a.Return?) && Step(c, s, a).Some?
    ensures Steps(Step(c, s, a).value) == Steps(s) + 1
  {
    hide Sum, PoolSteps, AllExited, AllReturned, AllSent, WritersDone;
    hide SendStep, TakeStep, EmitStep, ReceiveStep, HandStep, ConsumeStep;
  }

  lemma EmitCounts(c: Config, s: State, ofRoll: bool, r: nat)
    requires c.Valid() && Inv(c, s) && EmitStep(c, s, ofRoll, r).Some?
    ensures Steps(EmitStep(c, s, ofRoll, r).value) == Steps(s) + 1
  {
    hide Inv, Sum, FileSteps, EndSteps;
    var j := PoolOf(s, ofRoll).readers[r].j;
    SumUpdate(s.prog, j, s.prog[j] + 1);
  }

  lemma ReceiveCounts(c: Config, s: State)
    requires c.Valid() && Inv(c, s) && ReceiveStep(s).Some?
    ensures Steps(ReceiveStep(s).value) == Steps(s) + 1
  {
    hide PoolInv, FilesInv, PhaseInv, NoneAlive, Lane, Sum, PoolSteps, FileSteps, EndSteps;
    if s.link.ch[0] == Last {
      assert InChannel(s.link, |c.msgs|, 0);
    }
  }

  lemma ConsumeCounts(c: Config, s: State, f: nat)
    requires c.Valid() && ConsumeStep(c, s, f).Some?
    ensures Steps(ConsumeStep(c, s, f).value) == Steps(s) + 1
  {
    hide Sum, TakeIn, PoolSteps, LinkSteps, FileSteps, EndSteps;
    TakeInCounts(c, s.files, f);
  }

  lemma TakeInCounts(c: Config, files: Files, f: nat)
    requires c.Valid() && TakeIn(c, files, f).Some?
    ensures FileSteps(TakeIn(c, files, f).value) == FileSteps(files) + 1
  {
    hide Sum, TakeFirst;
    var j := files.writers[f].inbox[0].j;
    SumUpdate(files.written, j, files.written[j] + 1);
    assert WithWriter(TakeIn(c, files, f).value) == WithWriter(files);
  }

  lemma HandCounts(c: Config, s: State)
    requires c.Valid() && Inv(c, s) && HandStep(c, s).Some?
    ensures Steps(HandStep(c, s).value) == Steps(s) + 1
  {
    hide PoolInv, LinkInv, FilesInv, PhaseInv, Sum, HandOver, PoolSteps, FileSteps, EndSteps;
    InHand(s.link, c.msgs, s.prog, s.files.handed);
    WithinJob(c, s.files, s.link.hold.value.j);
    OutstandingMeansLive(c, s.files, s.link.hold.value.j);
    HandOverCounts(c, s.files, s.link.hold.value);
  }

  lemma HandOverShape(c: Config, files: Files, msg: Msg)
    requires |c.msgs| == |c.file| && HandOver(c, files, msg).Some?
    ensures msg.Data? && msg.j < |c.file| && msg.j < |files.handed|
    ensures var f, files' := c.file[msg.j], HandOver(c, files, msg).value;
            && files'.handed == files.handed[msg.j := files.handed[msg.j] + 1] && files'.written == files.written
            && WithWriter(files') == WithWriter(files) + {f} && files'.live == files.live + {f}
  {
    hide Config.Streams;
  }

  lemma BothOrNone(keys: set<nat>, live: set<nat>, f: nat)
    requires f in keys <==> f in live
    ensures |keys + {f}| - |live + {f}| == |keys| - |live|
  {
    if f in keys {
      assert keys + {f} == keys && live + {f} == live;
    }
  }

  lemma HandOverCounts(c: Config, files: Files, msg: Msg)
    requires |c.msgs| == |c.file| && HandOver(c, files, msg).Some? && msg.Data? && msg.j < |c.file|
    requires c.file[msg.j] in WithWriter(files) <==> c.file[msg.j] in files.live
    ensures FileSteps(HandOver(c, files, msg).value) == FileSteps(files) + 2
  {
    hide HandOver, Sum, WithWriter;
    HandOverShape(c, files, msg);
    SumUpdate(files.handed, msg.j, files.handed[msg.j] + 1);
    BothOrNone(WithWriter(files), files.live, c.file[msg.j]);
  }

  /** A run keeps the invariant, and is as long as the steps it adds. */
  lemma {:induction false} RunLength(c: Config, s: State, actions: seq<Action>)
    requires c.Valid() && Inv(c, s) && Orderly(c, s) && Exec(c, s, actions).Some?
    ensures var s' := Exec(c, s, actions).value;
            Inv(c, s') && Orderly(c, s') && Steps(s') == Steps(s) + |actions|
    decreases |actions|
  {
    if actions != [] {
      hide PoolInv, LinkInv, FilesInv, PhaseInv, StoppedBeforeFin, FedInOrder, WithinCapacity, LossesInv, Step, Steps;
      var s1 := Step(c, s, actions[0]).value;
      StepKeepsInv(c, s, actions[0]);
      StepKeepsStopped(c, s, actions[0]);
      StepKeepsOrder(c, s, actions[0]);
      StepKeepsCapacity(c, s, actions[0]);
      StepKeepsLosses(c, s, actions[0]);
      StepCounts(c, s, actions[0]);
      RunLength(c, s1, actions[1..]);
    }
  }

  lemma FromStart(c: Config, actions: seq<Action>)
    requires c.Valid() && Exec(c, Init(c), actions).Some?
    ensures var s := Exec(c, Init(c), actions).value;
            Inv(c, s) && Orderly(c, s) && Steps(s) == |actions|
  {
    InitInv(c);
    InitSteps(c);
    InitOrderly(c);
    hide Inv, Exec, Orderly, Steps, Init;
    RunLength(c, Init(c), actions);
  }

  lemma InitSteps(c: Config)
    requires c.Valid()
    ensures Steps(Init(c)) == 0
  {
    NoFileSteps(|c.msgs|);
    SumZeros(|c.msgs|);
    hide Sum, Zeros, FileSteps, Config.Roll, Config.Bytes;
  }

  lemma NoFileSteps(n: nat)
    ensures FileSteps(Files(map[], {}, map[], Zeros(n), Zeros(n))) == 0
  {
    SumZeros(n);
    hide Sum, Zeros;
    assert WithWriter(Files(map[], {}, map[], Zeros(n), Zeros(n))) == {};
  }

  lemma InitOrderly(c: Config)
    requires c.Valid()
    ensures Orderly(c, Init(c))
  {
    hide AllExited, AllReturned, AllSent, Zeros, Config.Streams;
  }

  function FilesOf(c: Config): set<nat> {
    set f | f in c.file
  }

  /** Every item is sent and taken, every message emitted, received, handed on and written, every writer removed, the
      FIN sent and received, the loop left and the call returned. */
  function Total(c: Config): nat
    requires c.Valid()
  {
    2 * (c.Roll().jobs + c.Roll().fins) + 2 * (c.Bytes().jobs + c.Bytes().fins) + 4 * Sum(c.msgs) + |FilesOf(c)| + 4
  }

  lemma SetBound(xs: set<nat>, ys: set<nat>)
    requires xs <= ys
    ensures |xs| <= |ys|
  {
    assert ys == xs + (ys - xs);
  }

  lemma MessagesBound(c: Config, l: Link, prog: seq<nat>, files: Files)
    requires LinkInv(l, c.msgs, prog, files.handed) && FilesInv(c, files)
    ensures Sum(files.handed) + (if l.hold.Some? then 1 else 0) <= Sum(prog) <= Sum(c.msgs)
    ensures Sum(files.written) <= Sum(files.handed)
  {
    hide Sum, WritersInv, Proj, Range;
    forall j | 0 <= j < |c.msgs| ensures Next(l, files.handed, j) <= prog[j] <= c.msgs[j] {
      assert Lane(l, c.msgs, prog, files.handed, j);
    }
    SumMonotone(prog, c.msgs);
    SumMonotone(files.written, files.handed);
    if l.hold.Some? {
      var j := l.hold.value.j;
      SumUpdate(files.handed, j, files.handed[j] + 1);
      SumMonotone(files.handed[j := files.handed[j] + 1], prog);
    } else {
      SumMonotone(files.handed, prog);
    }
  }

  lemma WritersBound(c: Config, files: Files)
    requires FilesInv(c, files)
    ensures |WithWriter(files)| <= |FilesOf(c)|
  {
    hide WritersInv;
    SetBound(WithWriter(files), FilesOf(c));
  }

  lemma PoolBound(a: PoolConfig, p: Pool, msgs: seq<nat>, prog: seq<nat>, takes: seq<nat>)
    requires PoolInv(a, p, msgs, prog, takes)
    ensures p.taken <= p.sent <= a.jobs + a.fins
  {
  }

  lemma StepsBounded(c: Config, s: State)
    requires c.Valid() && Inv(c, s) && StoppedBeforeFin(c, s)
    ensures Steps(s) <= Total(c)
  {
    hide PoolInv, LinkInv, FilesInv, PhaseInv, Sum, FilesOf, WithWriter, Config.Roll, Config.Bytes;
    PoolBound(c.Roll(), s.roll, c.msgs, s.prog, s.takes);
    PoolBound(c.Bytes(), s.bytes, c.msgs, s.prog, s.takes);
    MessagesBound(c, s.link, s.prog, s.files);
    WritersBound(c, s.files);
  }

  /** When the receiver has returned, every queue has been drained. */
  lemma PoolsDrained(c: Config, s: State)
    requires c.Valid() && Inv(c, s) && StoppedBeforeFin(c, s) && s.link.finSent
    ensures s.roll.taken == s.roll.sent == c.Roll().jobs + c.Roll().fins
    ensures s.bytes.taken == s.bytes.sent == c.Bytes().jobs + c.Bytes().fins
    ensures c.diff > 0 && forall j :: 0 <= j < |c.msgs| ==> c.msgs[j] > 0
  {
    AllProcessed(c, s);
    hide LinkInv, FilesInv, PhaseInv, Work, CountExited;
  }

  lemma ReturnedIsComplete(c: Config, s: State)
    requires c.Valid() && Inv(c, s) && s.phase == Returned && forall j :: 0 <= j < |c.msgs| ==> c.msgs[j] > 0
    ensures s.link.finSeen && s.files.live == {} && c.Healthy()
    ensures s.prog == s.files.handed == s.files.written == c.msgs
    ensures WithWriter(s.files) == FilesOf(c)
    ensures forall j :: 0 <= j < |c.file| ==> c.file[j] in s.files.created && s.files.created[c.file[j]] == 1
  {
    hide PoolInv, WritersInv, Lane, InChannel;
    FinIsLast(c, s);
    forall j | 0 <= j < |c.file|
      ensures s.files.written[j] == c.msgs[j] && c.file[j] in s.files.writers && c.JobOk(j)
    {
      EndedMeansWritten(c, s.files, j);
    }
  }

  lemma ReturnedMeansFin(c: Config, s: State)
    requires c.Valid() && Inv(c, s) && s.phase == Returned
    ensures s.link.finSent && s.link.finSeen && s.link.hold == None
  {
    hide PoolInv, FilesInv, Lane;
  }

  /** In every run: the receiver returns only after the sender's FIN, with every message of every job written by its
      file's only writer, and every writer out of the map; such a run has exactly as many steps as there is work. */
  lemma ReturnedMeansComplete(c: Config, actions: seq<Action>)
    requires c.Valid() && Exec(c, Init(c), actions).Some?
    requires Exec(c, Init(c), actions).value.phase == Returned
    ensures var s := Exec(c, Init(c), actions).value;
            && s.link.finSeen && s.files.live == {}
            && s.prog == s.files.handed == s.files.written == c.msgs
            && (forall j :: 0 <= j < |c.file| ==> c.file[j] in s.files.created && s.files.created[c.file[j]] == 1)
    ensures c.diff > 0 && c.Healthy()
    ensures var missing := |c.msgs| - c.diff;
            |actions| == 2 * (c.diff + c.ccIo) + 2 * (missing + if missing > 0 then c.ccIo else 0) + 4 * Sum(c.msgs)
                         + |set f | f in c.file| + 4
  {
    hide Exec, Inv, StoppedBeforeFin, Sum, WithWriter, Config.Healthy;
    assert FilesOf(c) == set f | f in c.file;
    var s := Exec(c, Init(c), actions).value;
    FromStart(c, actions);
    ReturnedMeansFin(c, s);
    PoolsDrained(c, s);
    ReturnedIsComplete(c, s);
    NeverAborted(c, s);
  }

  lemma NeverAborted(c: Config, s: State)
    requires c.Valid() && StoppedBeforeFin(c, s) && s.link.finSent
    ensures !s.aborted
  {
  }

  /** Every run ends: no run has more steps than there is work. */
  lemma RunsAreBounded(c: Config, actions: seq<Action>)
    requires c.Valid() && Exec(c, Init(c), actions).Some?
    ensures |actions| <= Total(c)
  {
    hide Exec, Inv, StoppedBeforeFin, Total;
    FromStart(c, actions);
    StepsBounded(c, Exec(c, Init(c), actions).value);
  }

  lemma {:induction false} ExecAppend(c: Config, s: State, actions: seq<Action>, a: Action)
    requires c.Valid() && Exec(c, s, actions).Some?
    ensures Exec(c, s, actions + [a]) == Step(c, Exec(c, s, actions).value, a)
    decreases |actions|
  {
    hide Step;
    if actions == [] {
      assert [] + [a] == [a] && [a][1..] == [];
    } else {
      ExecAppend(c, Step(c, s, actions[0]).value, actions[1..], a);
      assert (actions + [a])[1..] == actions[1..] + [a];
    }
  }

  // ---- the sender ----

  /** In every run: no missing-file job is sent before all diff jobs, no roll reader's FIN before all jobs, no bytes
      reader's FIN before those; each queue holds what was sent last, jobs in the order of the list. */
  lemma FeedOrder(c: Config, actions: seq<Action>)
    requires c.Valid() && Exec(c, Init(c), actions).Some?
    ensures var s, missing := Exec(c, Init(c), actions).value, |c.msgs| - c.diff;
            && (s.bytes.sent > 0 ==> s.roll.sent >= c.diff)
            && (s.roll.sent > c.diff ==> s.bytes.sent >= missing)
            && (s.bytes.sent > missing ==> s.roll.sent == c.diff + (if c.diff > 0 then c.ccIo else 0))
            && s.roll.sent <= c.diff + (if c.diff > 0 then c.ccIo else 0)
            && s.bytes.sent <= missing + (if missing > 0 then c.ccIo else 0)
            && |s.roll.ch| == s.roll.sent - s.roll.taken && |s.bytes.ch| == s.bytes.sent - s.bytes.taken
            && (forall i :: 0 <= i < |s.roll.ch| ==>
                  s.roll.ch[i] == if s.roll.taken + i < c.diff then JobItem(s.roll.taken + i) else Fin)
            && (forall i :: 0 <= i < |s.bytes.ch| ==>
                  s.bytes.ch[i] == if s.bytes.taken + i < missing then JobItem(c.diff + s.bytes.taken + i) else Fin)
  {
    hide Exec, Steps, LinkInv, FilesInv, PhaseInv, Work, CountExited, StoppedBeforeFin, WithinCapacity, LossesInv;
    FromStart(c, actions);
  }

  /** In every run: no channel and no inbox holds more than its capacity, and the readers are as many as were
      spawned. */
  lemma ChannelBounds(c: Config, actions: seq<Action>)
    requires c.Valid() && Exec(c, Init(c), actions).Some?
    ensures var s := Exec(c, Init(c), actions).value;
            && |s.roll.ch| <= c.ccIo && |s.bytes.ch| <= c.ccIo && |s.link.ch| <= c.ccIo
            && (forall f :: f in s.files.writers ==>
                  |s.files.writers[f].inbox| <= |set j | 0 <= j < |c.file| && c.file[j] == f|)
            && |s.roll.readers| == c.ccIo && |s.bytes.readers| == if c.diff < |c.msgs| then c.ccIo else 0
  {
    hide Exec, Steps, LinkInv, FilesInv, PhaseInv, Work, CountExited, StoppedBeforeFin, FedInOrder, LossesInv;
    FromStart(c, actions);
  }

  /** Every reader of the pool has returned. */
  ghost predicate Stopped(p: Pool) {
    forall r :: 0 <= r < |p.readers| ==> p.readers[r] == Exited || p.readers[r].Errored?
  }

  ghost predicate SomeFailed(p: Pool) {
    exists r :: 0 <= r < |p.readers| && p.readers[r].Errored?
  }

  /** The sender has put everything there is to send into the queues. */
  ghost predicate FedAll(c: Config, s: State) {
    var missing := |c.msgs| - c.diff;
    && s.roll.sent == c.diff + (if c.diff > 0 then c.ccIo else 0)
    && s.bytes.sent == missing + (if missing > 0 then c.ccIo else 0)
  }

  /** In every run: the sender sends its FIN only after all its readers have returned, none with an error, and
      returns an error only after all have returned, some with an error; never both. */
  lemma FinOrError(c: Config, actions: seq<Action>)
    requires c.Valid() && Exec(c, Init(c), actions).Some?
    ensures var s := Exec(c, Init(c), actions).value;
            && (s.link.finSent || s.aborted ==> FedAll(c, s) && Stopped(s.roll) && Stopped(s.bytes))
            && (s.link.finSent ==> !SomeFailed(s.roll) && !SomeFailed(s.bytes) && !s.aborted)
            && (s.aborted ==> (SomeFailed(s.roll) || SomeFailed(s.bytes)) && !s.link.finSent)
  {
    hide Exec, Steps, Inv, FedInOrder, WithinCapacity, LossesInv;
    FromStart(c, actions);
  }

  /** The sender's last step once everything was sent and all readers have returned: the error of one of them, or its
      FIN. */
  lemma LastStep(c: Config, s: State)
    requires c.Valid() && StoppedBeforeFin(c, s) && FedAll(c, s) && Stopped(s.roll) && Stopped(s.bytes)
    ensures SomeFailed(s.roll) || SomeFailed(s.bytes) ==> s.aborted || Step(c, s, Abort) == Some(s.(aborted := true))
    ensures !SomeFailed(s.roll) && !SomeFailed(s.bytes) && !s.link.finSent && |s.link.ch| < c.ccIo ==>
              Step(c, s, SendFin) == Some(s.(link := s.link.(finSent := true, ch := s.link.ch + [Last])))
  {
    assert FedAll(c, s) ==> AllSent(c, s);
    hide AllSent, FedAll;
  }

  /** In every run: once everything was sent and all readers have returned, some with an error, the sender has returned
      that error or does so in its next step. */
  lemma ErrorIsReturned(c: Config, actions: seq<Action>)
    requires c.Valid() && Exec(c, Init(c), actions).Some?
    requires var s := Exec(c, Init(c), actions).value;
             FedAll(c, s) && Stopped(s.roll) && Stopped(s.bytes) && (SomeFailed(s.roll) || SomeFailed(s.bytes))
    ensures var s := Exec(c, Init(c), actions).value;
            !s.link.finSent && (s.aborted || Exec(c, Init(c), actions + [Abort]) == Some(s.(aborted := true)))
  {
    FinOrError(c, actions);
    hide Exec, Step, Steps, Init, Inv, StoppedBeforeFin, FedInOrder, LossesInv, FedAll, Stopped, SomeFailed;
    FromStart(c, actions);
    LastStep(c, Exec(c, Init(c), actions).value);
    ExecAppend(c, Init(c), actions, Abort);
  }

  /** In every run: once everything was sent and all readers have returned, none with an error, the sender has sent its
      FIN or does so in its next step, as soon as the receiver's channel has room. */
  lemma FinIsSent(c: Config, actions: seq<Action>)
    requires c.Valid() && Exec(c, Init(c), actions).Some?
    requires var s := Exec(c, Init(c), actions).value;
             FedAll(c, s) && Stopped(s.roll) && Stopped(s.bytes) && !SomeFailed(s.roll) && !SomeFailed(s.bytes)
    ensures var s := Exec(c, Init(c), actions).value;
            && !s.aborted
            && (s.link.finSent || |s.link.ch| == c.ccIo || Exec(c, Init(c), actions + [SendFin])
                == Some(s.(link := s.link.(finSent := true, ch := s.link.ch + [Last]))))
  {
    FinOrError(c, actions);
    hide Exec, Step, Steps, Init, Inv, StoppedBeforeFin, FedInOrder, LossesInv, FedAll, Stopped, SomeFailed;
    FromStart(c, actions);
    LastStep(c, Exec(c, Init(c), actions).value);
    ExecAppend(c, Init(c), actions, SendFin);
  }

  /** Of the diff jobs, the last one not counted, fewer than there are roll readers cannot be read, and likewise of the
      missing-file jobs. */
  ghost predicate FewLosses(c: Config) {
    && (c.diff > 0 ==> |set j | 0 <= j < c.diff - 1 && j < |c.msgs| && c.msgs[j] == 0| < c.ccIo)
    && (c.diff < |c.msgs| ==> |set j | c.diff <= j < |c.msgs| - 1 && c.msgs[j] == 0| < c.ccIo)
  }

  lemma UnreadableJobs(c: Config)
    requires c.Valid()
    ensures c.diff > 0 ==>
              Unreadable(c.msgs, 0, c.diff - 1) == set j | 0 <= j < c.diff - 1 && j < |c.msgs| && c.msgs[j] == 0
    ensures c.diff < |c.msgs| ==>
              Unreadable(c.msgs, c.diff, |c.msgs| - c.diff - 1) == set j | c.diff <= j < |c.msgs| - 1 && c.msgs[j] == 0
  {
  }

  lemma FedMeansFewLosses(c: Config, s: State)
    requires c.Valid() && PoolsInv(c, s) && LossesInv(c, s) && WithinCapacity(c, s) && FedAll(c, s)
    ensures FewLosses(c)
  {
    UnreadableJobs(c);
    hide Unreadable, PoolInv, Losses;
    if c.diff > 0 {
      SentMeansFewLosses(c.Roll(), s.roll, c.msgs, s.prog, s.takes);
    }
    if c.diff < |c.msgs| {
      SentMeansFewLosses(c.Bytes(), s.bytes, c.msgs, s.prog, s.takes);
    }
  }

  /** In every run: if as many jobs of a pool as it has readers cannot be read, the last one not counted, the sender
      never gets everything sent: it neither sends its FIN nor returns an error. */
  lemma ManyLossesHang(c: Config, actions: seq<Action>)
    requires c.Valid() && Exec(c, Init(c), actions).Some? && !FewLosses(c)
    ensures var s := Exec(c, Init(c), actions).value;
            !FedAll(c, s) && !s.link.finSent && !s.aborted && s.phase != Returned
  {
    FinOrError(c, actions);
    hide Exec, Steps, PoolsInv, LinkInv, FilesInv, PhaseInv, StoppedBeforeFin, FedInOrder, LossesInv, WithinCapacity;
    hide FewLosses, FedAll, Stopped, SomeFailed;
    FromStart(c, actions);
    var s := Exec(c, Init(c), actions).value;
    if FedAll(c, s) {
      FedMeansFewLosses(c, s);
    }
    if s.phase == Returned {
      ReturnedMeansFin(c, s);
    }
  }

  /** In every run: with a job that cannot be read, the sender never sends its FIN. */
  lemma FailedReaderMeansNoFin(c: Config, actions: seq<Action>, j: nat)
    requires c.Valid() && Exec(c, Init(c), actions).Some? && j < |c.msgs| && c.msgs[j] == 0
    ensures !Exec(c, Init(c), actions).value.link.finSent
  {
    hide Exec, Inv, StoppedBeforeFin;
    FromStart(c, actions);
    var s := Exec(c, Init(c), actions).value;
    if s.link.finSent {
      PoolsDrained(c, s);
    }
  }

  /** In every run: a writer that has failed stays in the map with open streams, so that the receiver goes on waiting
      for it. */
  lemma FailedWriterStays(c: Config, actions: seq<Action>, f: nat)
    requires c.Valid() && Exec(c, Init(c), actions).Some?
    requires var files := Exec(c, Init(c), actions).value.files; f in files.writers && files.writers[f].failed
    ensures var s := Exec(c, Init(c), actions).value;
            f in s.files.live && s.files.writers[f].streams > 0 && s.phase == Looping
  {
    hide Exec, PoolInv, LinkInv, PhaseInv;
    InitInv(c);
    RunKeepsInv(c, Init(c), actions);
    var s := Exec(c, Init(c), actions).value;
    FailedMeansOpen(c, s.files, f);
    AliveKeepsLooping(c, s, f);
  }

  /** In every run: a writer has failed exactly if it has taken a message that does not decode, and it takes none of
      that stream after it. */
  lemma FailsExactly(c: Config, actions: seq<Action>, f: nat)
    requires c.Valid() && Exec(c, Init(c), actions).Some? && f in Exec(c, Init(c), actions).value.files.writers
    ensures var files := Exec(c, Init(c), actions).value.files;
            && |files.written| == |c.file|
            && (files.writers[f].failed <==>
                  exists j :: 0 <= j < |c.file| && c.file[j] == f && files.written[j] > c.good[j])
            && forall j :: 0 <= j < |c.file| && c.file[j] == f ==> files.written[j] <= c.good[j] + 1
  {
    hide Exec, PoolInv, LinkInv, PhaseInv, InboxInv, Unended;
    InitInv(c);
    RunKeepsInv(c, Init(c), actions);
    var files := Exec(c, Init(c), actions).value.files;
    assert WriterInv(c, files.writers[f], f, files.handed, files.written);
  }

  lemma FailedMeansOpen(c: Config, files: Files, f: nat)
    requires c.Valid() && FilesInv(c, files) && f in files.writers && files.writers[f].failed
    ensures f in files.live && files.writers[f].streams > 0
  {
    hide InboxInv;
    var w := files.writers[f];
    assert WriterInv(c, w, f, files.handed, files.written);
    var j :| 0 <= j < |c.file| && c.file[j] == f && files.written[j] > c.good[j];
    WithinJob(c, files, j);
    Nonempty(Unended(c, files.written, f), j);
  }
}
