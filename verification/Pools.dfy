/** A pool of readers behind one job channel (workers/sender.go, workers/readers.go). */
module Pools {
  /** Jobs are numbered; a pool serves the jobs first .. first + jobs. */
  datatype PoolConfig = PoolConfig(first: nat, jobs: nat, fins: nat, size: nat)

  datatype Item = JobItem(j: nat) | Fin

  /** A reader waits for an item, works on a job, has returned on a FIN, or has returned an error over a job. */
  datatype Reader = Idle | Busy(j: nat) | Exited | Errored(j: nat)

  datatype Pool = Pool(sent: nat, taken: nat, ch: seq<Item>, readers: seq<Reader>)

  /** Everything the sender ever puts into the channel of a pool: its jobs, then the FINs. */
  function ItemAt(c: PoolConfig, i: nat): Item {
    if i < c.jobs then JobItem(c.first + i) else Fin
  }

  function CountExited(readers: seq<Reader>): nat {
    if readers == [] then 0
    else CountExited(readers[..|readers| - 1]) + (if readers[|readers| - 1].Exited? then 1 else 0)
  }

  lemma {:induction false} CountUpdate(readers: seq<Reader>, r: nat, x: Reader)
    requires r < |readers|
    ensures CountExited(readers[r := x])
         == CountExited(readers) - (if readers[r].Exited? then 1 else 0) + (if x.Exited? then 1 else 0)
  {
    var n := |readers| - 1;
    if r < n {
      CountUpdate(readers[..n], r, x);
      assert readers[r := x][..n] == readers[..n][r := x];
    } else {
      assert readers[r := x][..n] == readers[..n];
    }
  }

  lemma {:induction false} CountBounds(readers: seq<Reader>)
    ensures CountExited(readers) <= |readers|
    ensures CountExited(readers) == |readers| <==> forall r :: 0 <= r < |readers| ==> readers[r].Exited?
  {
    if readers != [] {
      CountBounds(readers[..|readers| - 1]);
    }
  }

  function Max(a: int, b: int): int {
    if a < b then b else a
  }

  /** The channel holds what was sent and not taken, in order; as many readers have left as FINs were taken. */
  ghost predicate Flow(c: PoolConfig, p: Pool) {
    && p.taken <= p.sent <= c.jobs + c.fins
    && |p.ch| == p.sent - p.taken
    && (forall i :: 0 <= i < |p.ch| ==> p.ch[i] == ItemAt(c, p.taken + i))
    && |p.readers| == c.size
    && CountExited(p.readers) == Max(0, p.taken - c.jobs)
  }

  predicate IsJob(c: PoolConfig, j: int) {
    c.first <= j < c.first + c.jobs
  }

  /** A job that was taken is held by exactly one reader until all its messages are out; one without messages is one
      over which its reader returned an error. `prog` counts the messages emitted for each job, `takes` how often it
      was taken. */
  ghost predicate Work(c: PoolConfig, p: Pool, msgs: seq<nat>, prog: seq<nat>, takes: seq<nat>) {
    && |msgs| == |prog| == |takes| && c.first + c.jobs <= |msgs|
    && (forall r :: 0 <= r < |p.readers| && p.readers[r].Busy? ==>
          IsJob(c, p.readers[r].j) && p.readers[r].j < c.first + p.taken
          && prog[p.readers[r].j] < msgs[p.readers[r].j])
    && (forall r, q :: 0 <= r < q < |p.readers| && p.readers[r].Busy? && p.readers[q].Busy? ==>
          p.readers[r].j != p.readers[q].j)
    && (forall r :: 0 <= r < |p.readers| && p.readers[r].Errored? ==>
          IsJob(c, p.readers[r].j) && msgs[p.readers[r].j] == 0)
    && (forall j :: IsJob(c, j) ==>
          if j < c.first + p.taken then takes[j] == 1 && InWork(p, msgs, prog, j)
          else takes[j] == 0 && prog[j] == 0)
  }

  /** A job that was taken: all its messages are out, or it is in work, or its reader failed over it. */
  ghost predicate InWork(p: Pool, msgs: seq<nat>, prog: seq<nat>, j: nat)
    requires |msgs| == |prog| && j < |msgs|
  {
    if msgs[j] == 0 then prog[j] == 0 && Errored(j) in p.readers
    else prog[j] == msgs[j] || Busy(j) in p.readers
  }

  ghost predicate PoolInv(c: PoolConfig, p: Pool, msgs: seq<nat>, prog: seq<nat>, takes: seq<nat>) {
    Flow(c, p) && Work(c, p, msgs, prog, takes)
  }

  function NewPool(c: PoolConfig): Pool {
    Pool(0, 0, [], seq(c.size, _ => Idle))
  }

  // ---- steps ----

  function SendItem(c: PoolConfig, p: Pool): Pool {
    p.(sent := p.sent + 1, ch := p.ch + [ItemAt(c, p.sent)])
  }

  /** What an item makes of the reader that takes it. A job without messages cannot be read: its reader returns an
      error, and the job is lost. */
  function Started(item: Item, msgs: seq<nat>): Reader {
    match item
    case JobItem(j) => if j < |msgs| && msgs[j] == 0 then Errored(j) else Busy(j)
    case Fin => Exited
  }

  function TakeItem(p: Pool, r: nat, msgs: seq<nat>): Pool
    requires r < |p.readers| && p.ch != []
  {
    Pool(p.sent, p.taken + 1, p.ch[1..], p.readers[r := Started(p.ch[0], msgs)])
  }

  /** A reader that has sent its last message goes back to the channel. */
  function EmitOne(p: Pool, r: nat, last: bool): Pool
    requires r < |p.readers|
  {
    if last then p.(readers := p.readers[r := Idle]) else p
  }

  lemma {:induction false} AllIdle(n: nat)
    ensures CountExited(seq(n, _ => Idle)) == 0
  {
    if n > 0 {
      AllIdle(n - 1);
      assert seq(n, _ => Idle)[..n - 1] == seq(n - 1, _ => Idle);
    }
  }

  lemma PoolInit(c: PoolConfig, msgs: seq<nat>)
    requires c.first + c.jobs <= |msgs|
    ensures PoolInv(c, NewPool(c), msgs, seq(|msgs|, _ => 0), seq(|msgs|, _ => 0))
  {
    AllIdle(c.size);
  }

  lemma SendKeeps(c: PoolConfig, p: Pool, msgs: seq<nat>, prog: seq<nat>, takes: seq<nat>)
    requires PoolInv(c, p, msgs, prog, takes) && p.sent < c.jobs + c.fins
    ensures PoolInv(c, SendItem(c, p), msgs, prog, takes)
  {
  }

  lemma TakeKeepsFlow(c: PoolConfig, p: Pool, r: nat, msgs: seq<nat>)
    requires Flow(c, p) && r < |p.readers| && p.readers[r].Idle? && p.ch != []
    ensures Flow(c, TakeItem(p, r, msgs))
  {
    assert p.ch[0] == ItemAt(c, p.taken);
    var p' := TakeItem(p, r, msgs);
    CountUpdate(p.readers, r, p'.readers[r]);
    forall i | 0 <= i < |p'.ch| ensures p'.ch[i] == ItemAt(c, p'.taken + i) {
      assert p.ch[i + 1] == ItemAt(c, p.taken + (i + 1));
    }
  }

  /** How often jobs were taken, after one more item is taken. */
  function TakesAfter(takes: seq<nat>, item: Item): seq<nat>
    requires item.JobItem? ==> item.j < |takes|
  {
    if item.JobItem? then takes[item.j := takes[item.j] + 1] else takes
  }

  lemma StillThere(readers: seq<Reader>, r: nat, y: Reader, x: Reader)
    requires r < |readers| && x in readers && x != readers[r]
    ensures x in readers[r := y]
  {
    var q :| 0 <= q < |readers| && readers[q] == x;
    assert readers[r := y][q] == x;
  }

  lemma TakeKeeps(c: PoolConfig, p: Pool, r: nat, msgs: seq<nat>, prog: seq<nat>, takes: seq<nat>)
    requires PoolInv(c, p, msgs, prog, takes)
    requires r < |p.readers| && p.readers[r].Idle? && p.ch != []
    ensures p.ch[0].JobItem? ==> IsJob(c, p.ch[0].j) && p.ch[0].j == c.first + p.taken
    ensures PoolInv(c, TakeItem(p, r, msgs), msgs, prog, TakesAfter(takes, p.ch[0]))
  {
    hide CountExited;
    assert p.ch[0] == ItemAt(c, p.taken);
    TakeKeepsFlow(c, p, r, msgs);
    var p' := TakeItem(p, r, msgs);
    forall x: Reader | x in p.readers && !x.Idle? ensures x in p'.readers {
      StillThere(p.readers, r, p'.readers[r], x);
    }
    assert p'.readers[r] in p'.readers;
  }

  lemma EmitKeeps(c: PoolConfig, p: Pool, r: nat, msgs: seq<nat>, prog: seq<nat>, takes: seq<nat>)
    requires PoolInv(c, p, msgs, prog, takes) && r < |p.readers| && p.readers[r].Busy?
    ensures var j := p.readers[r].j;
            && j < |msgs| && IsJob(c, j) && prog[j] < msgs[j]
            && PoolInv(c, EmitOne(p, r, prog[j] + 1 == msgs[j]), msgs, prog[j := prog[j] + 1], takes)
  {
    hide CountExited;
    var j := p.readers[r].j;
    var prog' := prog[j := prog[j] + 1];
    var p' := EmitOne(p, r, prog[j] + 1 == msgs[j]);
    CountUpdate(p.readers, r, Idle);
    forall i | IsJob(c, i) && i < c.first + p.taken ensures InWork(p', msgs, prog', i) {
      assert InWork(p, msgs, prog, i);
      if i == j {
        assert prog'[j] != msgs[j] ==> p'.readers[r] == Busy(j);
      } else {
        forall x: Reader | x in p.readers && x != Busy(j) ensures x in p'.readers {
          StillThere(p.readers, r, Idle, x);
        }
      }
    }
  }

  /** The other pool does not notice. */
  lemma OtherKeeps(c: PoolConfig, p: Pool, msgs: seq<nat>, prog: seq<nat>, takes: seq<nat>, j: nat, x: nat)
    requires PoolInv(c, p, msgs, prog, takes) && j < |msgs| && !IsJob(c, j)
    ensures PoolInv(c, p, msgs, prog[j := x], takes) && PoolInv(c, p, msgs, prog, takes[j := x])
  {
  }

  // ---- what the invariant means ----

  /** With one FIN per reader, the FINs still to be taken are as many as the readers that have taken none; once all
      have left on a FIN, every job was taken by exactly one reader and finished, and the channel is empty. */
  lemma PoolAccounting(c: PoolConfig, p: Pool, msgs: seq<nat>, prog: seq<nat>, takes: seq<nat>)
    requires PoolInv(c, p, msgs, prog, takes) && c.fins == c.size
    ensures c.jobs + c.fins - Max(p.taken, c.jobs) == c.size - CountExited(p.readers)
    ensures (forall r :: 0 <= r < |p.readers| ==> p.readers[r].Exited?) && c.size > 0 ==>
              && p.ch == [] && p.sent == c.jobs + c.fins
              && forall j :: IsJob(c, j) ==> takes[j] == 1 && prog[j] == msgs[j] > 0
  {
    hide CountExited;
    CountBounds(p.readers);
  }

  /** Once all readers have returned, with or without an error, every job that was taken was taken once; it is
      finished, or its reader failed over it. */
  lemma PoolReturned(c: PoolConfig, p: Pool, msgs: seq<nat>, prog: seq<nat>, takes: seq<nat>)
    requires PoolInv(c, p, msgs, prog, takes)
    requires forall r :: 0 <= r < |p.readers| ==> p.readers[r].Exited? || p.readers[r].Errored?
    ensures forall j :: IsJob(c, j) ==>
              && 0 <= takes[j] <= 1
              && (takes[j] == 1 ==> if msgs[j] == 0 then Errored(j) in p.readers else prog[j] == msgs[j])
    ensures forall r :: 0 <= r < |p.readers| && p.readers[r].Errored? ==>
              p.readers[r].j < |msgs| && msgs[p.readers[r].j] == 0
  {
    hide CountExited;
  }

  /** Without FINs no reader ever leaves. */
  lemma NoFinNoExit(c: PoolConfig, p: Pool, msgs: seq<nat>, prog: seq<nat>, takes: seq<nat>, r: nat)
    requires PoolInv(c, p, msgs, prog, takes) && c.fins == 0 && r < |p.readers|
    ensures !p.readers[r].Exited?
  {
    hide CountExited;
    CountNone(p.readers, r);
  }

  lemma {:induction false} CountNone(readers: seq<Reader>, r: nat)
    requires CountExited(readers) == 0 && r < |readers|
    ensures !readers[r].Exited?
  {
    if r < |readers| - 1 {
      CountNone(readers[..|readers| - 1], r);
    }
  }

  // ---- readers that fail ----

  /** Readers have failed over different jobs, all of them taken; the one that took the last item has not failed over
      an earlier one. */
  ghost predicate Losses(c: PoolConfig, p: Pool) {
    && (forall r :: 0 <= r < |p.readers| && p.readers[r].Errored? ==> p.readers[r].j < c.first + p.taken)
    && (forall r, q :: 0 <= r < q < |p.readers| && p.readers[r].Errored? && p.readers[q].Errored? ==>
          p.readers[r].j != p.readers[q].j)
    && (p.taken > 0 ==>
          exists r :: 0 <= r < |p.readers| && (p.readers[r].Errored? ==> p.readers[r].j == c.first + p.taken - 1))
  }

  lemma TakeKeepsLosses(c: PoolConfig, p: Pool, r: nat, msgs: seq<nat>)
    requires Flow(c, p) && Losses(c, p) && r < |p.readers| && p.ch != []
    ensures Losses(c, TakeItem(p, r, msgs))
  {
    hide CountExited;
    assert p.ch[0] == ItemAt(c, p.taken);
    assert TakeItem(p, r, msgs).readers[r] == Started(p.ch[0], msgs);
  }

  lemma EmitKeepsLosses(c: PoolConfig, p: Pool, r: nat, last: bool)
    requires Losses(c, p) && r < |p.readers| && p.readers[r].Busy?
    ensures Losses(c, EmitOne(p, r, last))
  {
    var readers := EmitOne(p, r, last).readers;
    if p.taken > 0 {
      var q :| 0 <= q < |p.readers| && (p.readers[q].Errored? ==> p.readers[q].j == c.first + p.taken - 1);
      assert readers[q].Errored? ==> readers[q] == p.readers[q];
    }
  }

  /** The jobs among first .. first + n that no reader can read. */
  function Unreadable(msgs: seq<nat>, first: nat, n: nat): set<nat> {
    set j | first <= j < first + n && j < |msgs| && msgs[j] == 0
  }

  lemma {:induction false} OneReaderEach(jobs: set<nat>, readers: seq<Reader>)
    requires forall j :: j in jobs ==> Errored(j) in readers
    ensures |jobs| <= |readers|
  {
    if readers == [] {
      assert jobs == {};
    } else {
      var most, last := readers[..|readers| - 1], readers[|readers| - 1];
      var others := if last.Errored? then jobs - {last.j} else jobs;
      OneReaderEach(others, most);
      assert jobs <= others + (if last.Errored? then {last.j} else {});
    }
  }

  lemma {:induction false} OneJobEach(jobs: set<nat>, readers: seq<Reader>)
    requires forall r :: 0 <= r < |readers| ==> readers[r].Errored? && readers[r].j in jobs
    requires forall r, q :: 0 <= r < q < |readers| ==> readers[r] != readers[q]
    ensures |jobs| >= |readers|
  {
    if readers != [] {
      var most, last := readers[..|readers| - 1], readers[|readers| - 1];
      OneJobEach(jobs - {last.j}, most);
    }
  }

  /** As long as the queue takes no more items than there are readers, everything is sent only if fewer jobs than
      readers, the last job not counted, cannot be read: readers that have failed take nothing. */
  lemma SentMeansFewLosses(c: PoolConfig, p: Pool, msgs: seq<nat>, prog: seq<nat>, takes: seq<nat>)
    requires PoolInv(c, p, msgs, prog, takes) && Losses(c, p) && c.jobs > 0
    requires p.sent == c.jobs + c.fins && |p.ch| <= c.fins
    ensures |Unreadable(msgs, c.first, c.jobs - 1)| < c.size
  {
    hide CountExited;
    var r :| 0 <= r < |p.readers| && (p.readers[r].Errored? ==> p.readers[r].j == c.first + p.taken - 1);
    var others := p.readers[..r] + p.readers[r + 1..];
    forall j | j in Unreadable(msgs, c.first, c.jobs - 1) ensures Errored(j) in others {
      assert IsJob(c, j) && InWork(p, msgs, prog, j);
      var q :| 0 <= q < |p.readers| && p.readers[q] == Errored(j);
      assert others[if q < r then q else q - 1] == Errored(j);
    }
    OneReaderEach(Unreadable(msgs, c.first, c.jobs - 1), others);
  }

  /** If all readers have failed before the last job was taken, at least as many other jobs cannot be read. */
  lemma AllLostMeansManyLosses(c: PoolConfig, p: Pool, msgs: seq<nat>, prog: seq<nat>, takes: seq<nat>)
    requires PoolInv(c, p, msgs, prog, takes) && Losses(c, p) && p.taken < c.jobs
    requires forall r :: 0 <= r < |p.readers| ==> p.readers[r].Errored?
    ensures |Unreadable(msgs, c.first, c.jobs - 1)| >= c.size
  {
    hide CountExited;
    OneJobEach(Unreadable(msgs, c.first, c.jobs - 1), p.readers);
  }
}
