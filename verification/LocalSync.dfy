/** A local sync as a state machine: the sender, two reader pools, the receiver and its file writers, over bounded
    FIFO channels (workers/sender.go, workers/readers.go, workers/receiver.go, cmd/local.go). */
module LocalSync {
  import opened Types
  import opened Pools

  /** The jobs of one sync: `msgs` gives each job's number of messages, none if its reader returns an error instead;
      `good` how many of them the writer can decode before the first it cannot; `file` its file. The first `diff` jobs
      are for roll readers, the others for bytes readers. */
  datatype Config = Config(msgs: seq<nat>, good: seq<nat>, file: seq<nat>, diff: nat, ccIo: nat) {
    ghost predicate Valid() {
      && |msgs| == |good| == |file| && diff <= |msgs| && ccIo > 0
      && forall j :: 0 <= j < |msgs| ==> good[j] <= msgs[j]
    }

    /** A job that its reader can read and whose messages its writer can decode. */
    predicate JobOk(j: nat)
      requires |msgs| == |good| && j < |msgs|
    {
      msgs[j] > 0 && good[j] == msgs[j]
    }

    ghost predicate Healthy()
      requires |msgs| == |good|
    {
      forall j :: 0 <= j < |msgs| ==> JobOk(j)
    }

    /** Roll readers are always spawned; they get FINs only if there are diff files. */
    function Roll(): PoolConfig {
      PoolConfig(0, diff, if diff > 0 then ccIo else 0, ccIo)
    }

    /** Bytes readers are spawned, and get FINs, if there are missing files. */
    function Bytes(): PoolConfig
      requires diff <= |msgs|
    {
      var jobs := |msgs| - diff;
      PoolConfig(diff, jobs, if jobs > 0 then ccIo else 0, if jobs > 0 then ccIo else 0)
    }

    /** The stream count in the header of a file's messages. */
    function Streams(f: nat): nat
      requires |msgs| == |file|
    {
      |set j | 0 <= j < |file| && file[j] == f|
    }
  }

  /** A message to the receiver: message number m of job j, or the sender's FIN. */
  datatype Msg = Data(j: nat, m: nat) | Last

  /** The receiver's channel, the message the receiver has taken off it and not handed on, and the FIN's progress. */
  datatype Link = Link(ch: seq<Msg>, hold: Option<Msg>, finSent: bool, finSeen: bool)

  /** A file writer: its inbox, the number of its streams that have not ended, and whether it has returned an error. */
  datatype Wr = Wr(inbox: seq<Msg>, streams: int, failed: bool)

  /** The writers; `live` are the files in the receiver's writer map. `handed` and `written` count, per job, the
      messages handed to writers and taken by them; `created` counts how many writers a file got. */
  datatype Files = Files(writers: map<nat, Wr>, live: set<nat>, created: map<nat, nat>, handed: seq<nat>,
                         written: seq<nat>)

  datatype Phase = Looping | Waiting | Returned

  /** `prog` counts the messages each job's reader has emitted, `takes` how often a job was taken; `aborted` says that
      the sender has returned an error. */
  datatype State = State(roll: Pool, bytes: Pool, link: Link, files: Files, phase: Phase, prog: seq<nat>,
                         takes: seq<nat>, aborted: bool)

  function Zeros(n: nat): seq<nat> {
    seq(n, _ => 0)
  }

  function Init(c: Config): State
    requires c.Valid()
  {
    var z := Zeros(|c.msgs|);
    State(NewPool(c.Roll()), NewPool(c.Bytes()), Link([], None, false, false), Files(map[], {}, map[], z, z), Looping,
          z, z, false)
  }

  datatype Action =
    | Send
    | Take(ofRoll: bool, r: nat)
    | Emit(ofRoll: bool, r: nat)
    | SendFin
    | Abort
    | Receive
    | Hand
    | Consume(f: nat)
    | Remove(f: nat)
    | Exit
    | Return

  function PoolOf(s: State, ofRoll: bool): Pool {
    if ofRoll then s.roll else s.bytes
  }

  function WithPool(s: State, ofRoll: bool, p: Pool): State {
    if ofRoll then s.(roll := p) else s.(bytes := p)
  }

  predicate AllExited(p: Pool) {
    forall r :: 0 <= r < |p.readers| ==> p.readers[r].Exited?
  }

  /** Every reader has returned, on a FIN or with an error. */
  predicate AllReturned(p: Pool) {
    forall r :: 0 <= r < |p.readers| ==> p.readers[r].Exited? || p.readers[r].Errored?
  }

  /** No writer in the map is alive. */
  predicate NoneAlive(files: Files) {
    forall f :: f in files.live && f in files.writers ==> files.writers[f].streams == 0
  }

  predicate WritersDone(s: State) {
    s.link.finSeen && NoneAlive(s.files)
  }

  /** The sender feeds the pools in a fixed order: diff jobs, missing-file jobs, then the FINs of each pool. */
  function SendStep(c: Config, s: State): Option<State>
    requires c.Valid()
  {
    var (rc, bc) := (c.Roll(), c.Bytes());
    var toRoll := s.roll.sent < rc.jobs || (s.bytes.sent >= bc.jobs && s.roll.sent < rc.jobs + rc.fins);
    if toRoll then
      if |s.roll.ch| < c.ccIo then Some(s.(roll := SendItem(rc, s.roll))) else None
    else if s.bytes.sent < bc.jobs + bc.fins && |s.bytes.ch| < c.ccIo then
      Some(s.(bytes := SendItem(bc, s.bytes)))
    else None
  }

  function TakeStep(c: Config, s: State, ofRoll: bool, r: nat): Option<State> {
    var p := PoolOf(s, ofRoll);
    if r < |p.readers| && p.readers[r].Idle? && p.ch != [] && (p.ch[0].JobItem? ==> p.ch[0].j < |s.takes|) then
      Some(WithPool(s, ofRoll, TakeItem(p, r, c.msgs)).(takes := TakesAfter(s.takes, p.ch[0])))
    else None
  }

  /** A busy reader pushes its next message into the receiver's channel. */
  function EmitStep(c: Config, s: State, ofRoll: bool, r: nat): Option<State> {
    var p := PoolOf(s, ofRoll);
    if r < |p.readers| && p.readers[r].Busy? && |s.link.ch| < c.ccIo
       && p.readers[r].j < |s.prog| && p.readers[r].j < |c.msgs| then
      var j := p.readers[r].j;
      Some(WithPool(s, ofRoll, EmitOne(p, r, s.prog[j] + 1 == c.msgs[j]))
             .(link := s.link.(ch := s.link.ch + [Data(j, s.prog[j])]), prog := s.prog[j := s.prog[j] + 1]))
    else None
  }

  predicate AllSent(c: Config, s: State)
    requires c.Valid()
  {
    s.roll.sent == c.Roll().jobs + c.Roll().fins && s.bytes.sent == c.Bytes().jobs + c.Bytes().fins
  }

  /** After g.Wait without an error: every reader of both pools has returned on a FIN. */
  function SendFinStep(c: Config, s: State): Option<State>
    requires c.Valid()
  {
    if !s.link.finSent && !s.aborted && AllExited(s.roll) && AllExited(s.bytes) && |s.link.ch| < c.ccIo
       && AllSent(c, s) then
      Some(s.(link := s.link.(finSent := true, ch := s.link.ch + [Last])))
    else None
  }

  /** After g.Wait with the error of a reader: the sender returns it, without a FIN. */
  function AbortStep(c: Config, s: State): Option<State>
    requires c.Valid()
  {
    if !s.aborted && AllReturned(s.roll) && AllReturned(s.bytes) && !(AllExited(s.roll) && AllExited(s.bytes))
       && AllSent(c, s) then
      Some(s.(aborted := true))
    else None
  }

  function TakeOff(l: Link): Link
    requires l.ch != []
  {
    if l.ch[0] == Last then l.(ch := l.ch[1..], finSeen := true) else l.(ch := l.ch[1..], hold := Some(l.ch[0]))
  }

  function ReceiveStep(s: State): Option<State> {
    if s.phase == Looping && !WritersDone(s) && s.link.hold == None && s.link.ch != [] then
      Some(s.(link := TakeOff(s.link)))
    else None
  }

  /** A message goes to the file's writer in the map, if its inbox has room; a file without one there gets a new
      writer. */
  function HandOver(c: Config, files: Files, msg: Msg): Option<Files>
    requires |c.msgs| == |c.file|
  {
    if msg.Last? || msg.j >= |c.file| || msg.j >= |files.handed| then None
    else
      var f := c.file[msg.j];
      var handed := files.handed[msg.j := files.handed[msg.j] + 1];
      if f !in files.live then
        Some(Files(files.writers[f := Wr([msg], c.Streams(f), false)], files.live + {f},
                   files.created[f := (if f in files.created then files.created[f] else 0) + 1], handed, files.written))
      else if f in files.writers && |files.writers[f].inbox| < c.Streams(f) then
        Some(files.(writers := files.writers[f := files.writers[f].(inbox := files.writers[f].inbox + [msg])],
                    handed := handed))
      else None
  }

  function HandStep(c: Config, s: State): Option<State>
    requires c.Valid()
  {
    if s.link.hold == None || HandOver(c, s.files, s.link.hold.value).None? then None
    else Some(s.(link := s.link.(hold := None), files := HandOver(c, s.files, s.link.hold.value).value))
  }

  /** A writer takes a message; the last one of a stream ends it, one that does not decode makes the writer return an
      error: it stays in the map with its streams open. */
  function TakeFirst(c: Config, w: Wr): Wr
    requires |c.msgs| == |c.good| && w.inbox != [] && w.inbox[0].Data? && w.inbox[0].j < |c.msgs|
  {
    var msg := w.inbox[0];
    if msg.m >= c.good[msg.j] then Wr(w.inbox[1..], w.streams, true)
    else Wr(w.inbox[1..], if msg.m + 1 == c.msgs[msg.j] then w.streams - 1 else w.streams, w.failed)
  }

  /** Only a writer that has neither left its loop nor failed takes messages. */
  function TakeIn(c: Config, files: Files, f: nat): Option<Files>
    requires |c.msgs| == |c.good|
  {
    if f in files.writers && files.writers[f].streams != 0 && !files.writers[f].failed && files.writers[f].inbox != []
       && files.writers[f].inbox[0].Data?
       && files.writers[f].inbox[0].j < |files.written| && files.writers[f].inbox[0].j < |c.msgs| then
      var w, j := files.writers[f], files.writers[f].inbox[0].j;
      Some(files.(writers := files.writers[f := TakeFirst(c, w)],
                  written := files.written[j := files.written[j] + 1]))
    else None
  }

  function ConsumeStep(c: Config, s: State, f: nat): Option<State>
    requires c.Valid()
  {
    if TakeIn(c, s.files, f).None? then None else Some(s.(files := TakeIn(c, s.files, f).value))
  }

  /** A writer whose streams have ended has merged its file and takes itself out of the map. */
  function RemoveStep(s: State, f: nat): Option<State> {
    if f in s.files.live && f in s.files.writers && s.files.writers[f].streams == 0 then
      Some(s.(files := s.files.(live := s.files.live - {f})))
    else None
  }

  function ExitStep(s: State): Option<State> {
    if s.phase == Looping && WritersDone(s) && s.link.hold == None then Some(s.(phase := Waiting)) else None
  }

  /** fileWriters.Wait: no writer is still at work. */
  function ReturnStep(s: State): Option<State> {
    if s.phase == Waiting && s.files.live == {} then Some(s.(phase := Returned)) else None
  }

  function Step(c: Config, s: State, a: Action): Option<State>
    requires c.Valid()
  {
    match a
    case Send => SendStep(c, s)
    case Take(ofRoll, r) => TakeStep(c, s, ofRoll, r)
    case Emit(ofRoll, r) => EmitStep(c, s, ofRoll, r)
    case SendFin => SendFinStep(c, s)
    case Abort => AbortStep(c, s)
    case Receive => ReceiveStep(s)
    case Hand => HandStep(c, s)
    case Consume(f) => ConsumeStep(c, s, f)
    case Remove(f) => RemoveStep(s, f)
    case Exit => ExitStep(s)
    case Return => ReturnStep(s)
  }

  /** A run: the state after a list of actions, if each was possible. */
  function Exec(c: Config, s: State, actions: seq<Action>): Option<State>
    requires c.Valid()
    decreases |actions|
  {
    if actions == [] then Some(s)
    else match Step(c, s, actions[0])
      case None => None
      case Some(s') => Exec(c, s', actions[1..])
  }

  // ---- messages in queues ----

  /** The numbers of job j's messages in a queue, in order. */
  function Proj(q: seq<Msg>, j: nat): seq<nat> {
    if q == [] then []
    else
      var most, last := q[..|q| - 1], q[|q| - 1];
      if last.Data? && last.j == j then Proj(most, j) + [last.m] else Proj(most, j)
  }

  function Range(lo: nat, hi: nat): seq<nat> {
    if lo < hi then seq(hi - lo, i => lo + i) else []
  }

  lemma ProjPush(q: seq<Msg>, msg: Msg, j: nat)
    ensures Proj(q + [msg], j) == if msg.Data? && msg.j == j then Proj(q, j) + [msg.m] else Proj(q, j)
  {
  }

  lemma {:induction false} ProjPop(q: seq<Msg>, j: nat)
    requires q != []
    ensures Proj(q, j) == if q[0].Data? && q[0].j == j then [q[0].m] + Proj(q[1..], j) else Proj(q[1..], j)
  {
    var n := |q| - 1;
    if n > 0 {
      ProjPop(q[..n], j);
      assert q[..n][1..] == q[1..][..n - 1];
    } else {
      assert q[1..] == [] && q[..0] == [];
    }
  }

  lemma RangePush(lo: nat, hi: nat)
    requires lo <= hi
    ensures Range(lo, hi + 1) == Range(lo, hi) + [hi]
  {
  }

  lemma RangePop(lo: nat, hi: nat, m: nat, rest: seq<nat>)
    requires Range(lo, hi) == [m] + rest
    ensures m == lo && lo < hi && rest == Range(lo + 1, hi)
  {
    assert Range(lo, hi)[0] == m;
    assert Range(lo, hi)[1..] == rest;
  }
}
