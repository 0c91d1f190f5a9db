/** What every step of a local sync keeps. */
module LocalSyncInvariant {
  import opened Types
  import opened Pools
  import opened LocalSync

  predicate Holds(l: Link, j: nat) {
    l.hold.Some? && l.hold.value.Data? && l.hold.value.j == j
  }

  /** The first message of job j that the receiver has not taken off its channel. */
  function Next(l: Link, handed: seq<nat>, j: nat): nat
    requires j < |handed|
  {
    handed[j] + (if Holds(l, j) then 1 else 0)
  }

  ghost predicate InChannel(l: Link, n: nat, i: nat)
    requires i < |l.ch|
  {
    && (l.ch[i].Data? ==> l.ch[i].j < n)
    && (l.ch[i].Last? <==> l.finSent && !l.finSeen && i == |l.ch| - 1)
  }

  /** Of job j, the channel holds exactly the emitted messages that were not taken off it, in order. */
  ghost predicate Lane(l: Link, msgs: seq<nat>, prog: seq<nat>, handed: seq<nat>, j: nat)
    requires |prog| == |handed| == |msgs| && j < |msgs|
  {
    Next(l, handed, j) <= prog[j] <= msgs[j] && Proj(l.ch, j) == Range(Next(l, handed, j), prog[j])
  }

  /** The receiver's channel and the message it holds; the FIN comes behind all data. */
  ghost predicate LinkInv(l: Link, msgs: seq<nat>, prog: seq<nat>, handed: seq<nat>) {
    && |prog| == |handed| == |msgs|
    && (l.hold.Some? ==>
          l.hold.value.Data? && l.hold.value.j < |msgs| && l.hold.value.m == handed[l.hold.value.j])
    && (forall j :: 0 <= j < |msgs| ==> Lane(l, msgs, prog, handed, j))
    && (forall i :: 0 <= i < |l.ch| ==> InChannel(l, |msgs|, i))
    && (l.finSent && !l.finSeen ==> l.ch != [])
    && (l.finSeen ==> l.finSent && l.ch == [] && l.hold == None)
    && (l.finSent ==> prog == msgs)
  }

  predicate Sized(c: Config, handed: seq<nat>, written: seq<nat>) {
    |handed| == |written| == |c.file| == |c.msgs| == |c.good|
  }

  /** The jobs of file f that its writer has not seen ended: those whose End it has not taken, and those that cannot
      end. */
  function Unended(c: Config, written: seq<nat>, f: nat): set<nat>
    requires |written| == |c.file| == |c.msgs| == |c.good|
  {
    set j | 0 <= j < |c.file| && c.file[j] == f && (written[j] < c.msgs[j] || !c.JobOk(j))
  }

  /** A writer has failed exactly if it has taken a message that does not decode; it takes none of its job after
      that. */
  ghost predicate FailedRightly(c: Config, w: Wr, f: nat, written: seq<nat>)
    requires |written| == |c.file| == |c.msgs| == |c.good|
  {
    && (w.failed <==> exists j :: 0 <= j < |c.file| && c.file[j] == f && written[j] > c.good[j])
    && forall j :: 0 <= j < |c.file| && c.file[j] == f ==> written[j] <= c.good[j] + 1
  }

  ghost predicate InboxInv(c: Config, inbox: seq<Msg>, f: nat, handed: seq<nat>, written: seq<nat>)
    requires Sized(c, handed, written)
  {
    && (forall i :: 0 <= i < |inbox| ==> inbox[i].Data? && inbox[i].j < |c.file| && c.file[inbox[i].j] == f)
    && (forall j :: 0 <= j < |c.file| && c.file[j] == f ==> Proj(inbox, j) == Range(written[j], handed[j]))
  }

  /** A writer: its inbox holds, per job of its file, exactly what was handed to it and not taken; it counts its open
      streams. */
  ghost predicate WriterInv(c: Config, w: Wr, f: nat, handed: seq<nat>, written: seq<nat>)
    requires Sized(c, handed, written)
  {
    w.streams == |Unended(c, written, f)| && InboxInv(c, w.inbox, f, handed, written) && FailedRightly(c, w, f, written)
  }

  ghost predicate WritersInv(c: Config, writers: map<nat, Wr>, handed: seq<nat>, written: seq<nat>)
    requires Sized(c, handed, written)
  {
    forall f :: f in writers ==> WriterInv(c, writers[f], f, handed, written)
  }

  /** A file has a writer as soon as a message was handed on; a writer with open streams is in the map; no
      file got two. */
  ghost predicate Bookkeeping(c: Config, files: Files)
    requires Sized(c, files.handed, files.written)
  {
    && (forall j :: 0 <= j < |c.file| ==>
          files.written[j] <= files.handed[j] <= c.msgs[j]
          && (c.file[j] !in files.writers ==> files.handed[j] == 0))
    && files.live <= files.writers.Keys
    && (forall f :: f in files.writers ==> f in c.file)
    && (forall f :: f in files.writers && files.writers[f].streams != 0 ==> f in files.live)
    && files.created.Keys == files.writers.Keys && (forall f :: f in files.created ==> files.created[f] == 1)
  }

  ghost predicate FilesInv(c: Config, files: Files) {
    && Sized(c, files.handed, files.written)
    && WritersInv(c, files.writers, files.handed, files.written)
    && Bookkeeping(c, files)
  }

  ghost predicate PoolsInv(c: Config, s: State)
    requires c.Valid()
  {
    && PoolInv(c.Roll(), s.roll, c.msgs, s.prog, s.takes)
    && PoolInv(c.Bytes(), s.bytes, c.msgs, s.prog, s.takes)
  }

  ghost predicate PhaseInv(s: State) {
    && (s.phase != Looping ==> WritersDone(s))
    && (s.phase == Returned ==> s.files.live == {})
  }

  ghost predicate Inv(c: Config, s: State)
    requires c.Valid()
  {
    PoolsInv(c, s) && LinkInv(s.link, c.msgs, s.prog, s.files.handed) && FilesInv(c, s.files) && PhaseInv(s)
  }

  lemma InitInv(c: Config)
    requires c.Valid()
    ensures Inv(c, Init(c))
  {
    PoolInit(c.Roll(), c.msgs);
    PoolInit(c.Bytes(), c.msgs);
    hide PoolInv;
    assert forall j: nat :: Proj([], j) == [];
  }

  // ---- pools ----

  lemma SendKeepsPools(c: Config, s: State)
    requires c.Valid() && PoolsInv(c, s) && SendStep(c, s).Some?
    ensures PoolsInv(c, SendStep(c, s).value)
  {
    hide PoolInv, ItemAt;
    var s' := SendStep(c, s).value;
    if s.roll.sent < c.Roll().jobs + c.Roll().fins {
      SendKeeps(c.Roll(), s.roll, c.msgs, s.prog, s.takes);
    }
    if s.bytes.sent < c.Bytes().jobs + c.Bytes().fins {
      SendKeeps(c.Bytes(), s.bytes, c.msgs, s.prog, s.takes);
    }
  }

  /** Two pools with jobs of their own. */
  ghost predicate Apart(a: PoolConfig, b: PoolConfig) {
    forall j :: IsJob(a, j) ==> !IsJob(b, j)
  }

  lemma PoolsApart(c: Config)
    requires c.Valid()
    ensures Apart(c.Roll(), c.Bytes()) && Apart(c.Bytes(), c.Roll())
  {
  }

  lemma TakeOne(a: PoolConfig, p: Pool, b: PoolConfig, q: Pool, r: nat, msgs: seq<nat>, prog: seq<nat>,
                takes: seq<nat>)
    requires PoolInv(a, p, msgs, prog, takes) && PoolInv(b, q, msgs, prog, takes) && Apart(a, b)
    requires r < |p.readers| && p.readers[r].Idle? && p.ch != [] && (p.ch[0].JobItem? ==> p.ch[0].j < |takes|)
    ensures PoolInv(a, TakeItem(p, r, msgs), msgs, prog, TakesAfter(takes, p.ch[0]))
    ensures PoolInv(b, q, msgs, prog, TakesAfter(takes, p.ch[0]))
  {
    TakeKeeps(a, p, r, msgs, prog, takes);
    assert |takes| == |msgs|;
    hide PoolInv, TakeItem;
    if p.ch[0].JobItem? {
      OtherKeeps(b, q, msgs, prog, takes, p.ch[0].j, takes[p.ch[0].j] + 1);
    }
  }

  lemma TakeKeepsPools(c: Config, s: State, ofRoll: bool, r: nat)
    requires c.Valid() && PoolsInv(c, s) && TakeStep(c, s, ofRoll, r).Some?
    ensures PoolsInv(c, TakeStep(c, s, ofRoll, r).value)
  {
    hide PoolInv, TakeItem, TakesAfter, Apart;
    PoolsApart(c);
    if ofRoll {
      TakeOne(c.Roll(), s.roll, c.Bytes(), s.bytes, r, c.msgs, s.prog, s.takes);
    } else {
      TakeOne(c.Bytes(), s.bytes, c.Roll(), s.roll, r, c.msgs, s.prog, s.takes);
    }
  }

  lemma PoolLengths(c: Config, s: State)
    requires c.Valid() && PoolsInv(c, s)
    ensures |s.prog| == |s.takes| == |c.msgs|
  {
  }

  lemma EmitPool(a: PoolConfig, p: Pool, b: PoolConfig, q: Pool, r: nat, msgs: seq<nat>, prog: seq<nat>,
                 takes: seq<nat>)
    requires PoolInv(a, p, msgs, prog, takes) && PoolInv(b, q, msgs, prog, takes) && Apart(a, b)
    requires r < |p.readers| && p.readers[r].Busy?
    ensures var j := p.readers[r].j;
            && j < |msgs| && |prog| == |msgs| && prog[j] < msgs[j]
            && PoolInv(a, EmitOne(p, r, prog[j] + 1 == msgs[j]), msgs, prog[j := prog[j] + 1], takes)
            && PoolInv(b, q, msgs, prog[j := prog[j] + 1], takes)
  {
    assert |prog| == |msgs|;
    hide PoolInv, EmitOne, IsJob;
    EmitKeeps(a, p, r, msgs, prog, takes);
    var j := p.readers[r].j;
    OtherKeeps(b, q, msgs, prog, takes, j, prog[j] + 1);
  }

  lemma EmitKeepsPools(c: Config, s: State, ofRoll: bool, r: nat)
    requires c.Valid() && PoolsInv(c, s) && EmitStep(c, s, ofRoll, r).Some?
    ensures PoolsInv(c, EmitStep(c, s, ofRoll, r).value)
  {
    hide PoolInv, EmitOne, Apart;
    PoolsApart(c);
    if ofRoll {
      EmitPool(c.Roll(), s.roll, c.Bytes(), s.bytes, r, c.msgs, s.prog, s.takes);
    } else {
      EmitPool(c.Bytes(), s.bytes, c.Roll(), s.roll, r, c.msgs, s.prog, s.takes);
    }
  }

  /** A busy reader still has messages to emit. */
  lemma EmitHasMore(c: Config, s: State, ofRoll: bool, r: nat)
    requires c.Valid() && PoolsInv(c, s)
    requires r < |PoolOf(s, ofRoll).readers| && PoolOf(s, ofRoll).readers[r].Busy?
    ensures |s.prog| == |c.msgs|
    ensures var j := PoolOf(s, ofRoll).readers[r].j; j < |c.msgs| && s.prog[j] < c.msgs[j]
  {
  }

  /** Without diff files, roll readers get neither a job nor a FIN: none of them ever returns. */
  lemma NoDiffNoReturn(c: Config, s: State)
    requires c.Valid() && PoolsInv(c, s)
    ensures c.diff == 0 ==> !AllReturned(s.roll) && !AllExited(s.roll)
  {
    if c.diff == 0 {
      NoFinNoExit(c.Roll(), s.roll, c.msgs, s.prog, s.takes, 0);
      assert !s.roll.readers[0].Errored?;
    }
  }

  /** Once all readers have returned on a FIN, every job was taken by exactly one reader and all its messages are
      out. */
  lemma AllProcessed(c: Config, s: State)
    requires c.Valid() && PoolsInv(c, s) && AllExited(s.roll) && AllExited(s.bytes)
    ensures c.diff > 0
    ensures s.prog == c.msgs && forall j :: 0 <= j < |c.msgs| ==> s.takes[j] == 1 && c.msgs[j] > 0
    ensures s.roll.ch == [] && s.bytes.ch == []
  {
    PoolLengths(c, s);
    NoDiffNoReturn(c, s);
    PoolAccounting(c.Roll(), s.roll, c.msgs, s.prog, s.takes);
    PoolAccounting(c.Bytes(), s.bytes, c.msgs, s.prog, s.takes);
    hide Flow;
    forall j | 0 <= j < |c.msgs| ensures s.prog[j] == c.msgs[j] > 0 && s.takes[j] == 1 {
      assert IsJob(c.Roll(), j) || IsJob(c.Bytes(), j);
    }
  }

  // ---- the receiver's channel ----

  lemma LaneAfterEmit(l: Link, msgs: seq<nat>, prog: seq<nat>, handed: seq<nat>, j0: nat, j: nat)
    requires |prog| == |handed| == |msgs| && j < |msgs| && Lane(l, msgs, prog, handed, j)
    requires j0 < |msgs| && prog[j0] < msgs[j0]
    ensures Lane(l.(ch := l.ch + [Data(j0, prog[j0])]), msgs, prog[j0 := prog[j0] + 1], handed, j)
  {
    hide Proj, Range;
    ProjPush(l.ch, Data(j0, prog[j0]), j);
    RangePush(Next(l, handed, j), prog[j]);
  }

  lemma EmitKeepsLink(l: Link, msgs: seq<nat>, prog: seq<nat>, handed: seq<nat>, j0: nat)
    requires LinkInv(l, msgs, prog, handed) && j0 < |msgs| && prog[j0] < msgs[j0]
    ensures LinkInv(l.(ch := l.ch + [Data(j0, prog[j0])]), msgs, prog[j0 := prog[j0] + 1], handed)
  {
    hide Lane;
    var l', prog' := l.(ch := l.ch + [Data(j0, prog[j0])]), prog[j0 := prog[j0] + 1];
    forall j | 0 <= j < |msgs| ensures Lane(l', msgs, prog', handed, j) {
      LaneAfterEmit(l, msgs, prog, handed, j0, j);
    }
    forall i | 0 <= i < |l'.ch| ensures InChannel(l', |msgs|, i) {
      assert i < |l.ch| ==> InChannel(l, |msgs|, i);
    }
  }

  lemma FinKeepsLink(l: Link, msgs: seq<nat>, prog: seq<nat>, handed: seq<nat>)
    requires LinkInv(l, msgs, prog, handed) && prog == msgs && !l.finSent
    ensures LinkInv(l.(finSent := true, ch := l.ch + [Last]), msgs, prog, handed)
  {
    var l' := l.(finSent := true, ch := l.ch + [Last]);
    forall j | 0 <= j < |msgs| ensures Lane(l', msgs, prog, handed, j) {
      hide Proj, Range;
      assert Lane(l, msgs, prog, handed, j);
      ProjPush(l.ch, Last, j);
    }
    forall i | 0 <= i < |l'.ch| ensures InChannel(l', |msgs|, i) {
      assert i < |l.ch| ==> InChannel(l, |msgs|, i);
    }
  }

  lemma LaneAfterTake(l: Link, msgs: seq<nat>, prog: seq<nat>, handed: seq<nat>, j: nat)
    requires |prog| == |handed| == |msgs| && j < |msgs| && Lane(l, msgs, prog, handed, j)
    requires l.ch != [] && l.hold == None
    ensures Lane(TakeOff(l), msgs, prog, handed, j)
    ensures l.ch[0].Data? && l.ch[0].j == j ==> l.ch[0].m == handed[j]
  {
    hide Proj, Range;
    ProjPop(l.ch, j);
    if l.ch[0].Data? && l.ch[0].j == j {
      RangePop(Next(l, handed, j), prog[j], l.ch[0].m, Proj(l.ch[1..], j));
    }
  }

  lemma TakeOffKeepsLink(l: Link, msgs: seq<nat>, prog: seq<nat>, handed: seq<nat>)
    requires LinkInv(l, msgs, prog, handed) && l.ch != [] && l.hold == None
    ensures LinkInv(TakeOff(l), msgs, prog, handed)
  {
    hide Lane;
    var l' := TakeOff(l);
    assert InChannel(l, |msgs|, 0);
    forall j | 0 <= j < |msgs|
      ensures Lane(l', msgs, prog, handed, j)
      ensures l.ch[0].Data? && l.ch[0].j == j ==> l.ch[0].m == handed[j]
    {
      LaneAfterTake(l, msgs, prog, handed, j);
    }
    forall i | 0 <= i < |l'.ch| ensures InChannel(l', |msgs|, i) {
      assert InChannel(l, |msgs|, i + 1);
    }
  }

  lemma HandKeepsLink(l: Link, msgs: seq<nat>, prog: seq<nat>, handed: seq<nat>)
    requires LinkInv(l, msgs, prog, handed) && l.hold.Some?
    ensures var j := l.hold.value.j;
            LinkInv(l.(hold := None), msgs, prog, handed[j := handed[j] + 1])
  {
    hide Proj, Range;
    var j0 := l.hold.value.j;
    var l', handed' := l.(hold := None), handed[j0 := handed[j0] + 1];
    forall j | 0 <= j < |msgs| ensures Lane(l', msgs, prog, handed', j) {
      assert Lane(l, msgs, prog, handed, j);
    }
    forall i | 0 <= i < |l'.ch| ensures InChannel(l', |msgs|, i) {
      assert InChannel(l, |msgs|, i);
    }
  }

  /** The message in hand is not among those handed on, and is one the readers have emitted. */
  lemma InHand(l: Link, msgs: seq<nat>, prog: seq<nat>, handed: seq<nat>)
    requires LinkInv(l, msgs, prog, handed) && l.hold.Some?
    ensures l.hold.value.Data? && l.hold.value.j < |msgs| && !l.finSeen
    ensures l.hold.value.m == handed[l.hold.value.j] < prog[l.hold.value.j] <= msgs[l.hold.value.j]
  {
    hide Proj, Range;
    assert Lane(l, msgs, prog, handed, l.hold.value.j);
  }

  // ---- handing a message on ----

  lemma Nonempty(xs: set<nat>, x: nat)
    requires x in xs
    ensures |xs| > 0
  {
  }

  /** While messages of a job are outstanding, its file has no writer yet or one that is in the map with open streams:
      no message goes to a writer that has finished, and no file gets a second writer. */
  lemma OutstandingMeansLive(c: Config, files: Files, j: nat)
    requires FilesInv(c, files) && j < |c.file| && files.written[j] < c.msgs[j]
    ensures c.file[j] in files.writers <==> c.file[j] in files.live
    ensures c.file[j] in files.writers ==> files.writers[c.file[j]].streams > 0
  {
    var f := c.file[j];
    if f in files.writers {
      assert WriterInv(c, files.writers[f], f, files.handed, files.written);
      assert j in Unended(c, files.written, f);
      Nonempty(Unended(c, files.written, f), j);
    }
  }

  /** A writer is not touched by what happens to jobs of other files. */
  lemma OtherWriter(c: Config, w: Wr, f: nat, handed: seq<nat>, written: seq<nat>, handed': seq<nat>,
                    written': seq<nat>, j0: nat)
    requires Sized(c, handed, written) && Sized(c, handed', written')
    requires WriterInv(c, w, f, handed, written) && j0 < |c.file| && c.file[j0] != f
    requires forall j :: 0 <= j < |c.file| && j != j0 ==> handed'[j] == handed[j] && written'[j] == written[j]
    ensures WriterInv(c, w, f, handed', written')
  {
    hide Proj, Range;
    assert Unended(c, written', f) == Unended(c, written, f);
  }

  lemma PushToWriter(c: Config, w: Wr, f: nat, handed: seq<nat>, written: seq<nat>, msg: Msg)
    requires Sized(c, handed, written) && WriterInv(c, w, f, handed, written)
    requires msg.Data? && msg.j < |c.file| && c.file[msg.j] == f && msg.m == handed[msg.j]
    requires written[msg.j] <= handed[msg.j]
    ensures WriterInv(c, w.(inbox := w.inbox + [msg]), f, handed[msg.j := handed[msg.j] + 1], written)
  {
    hide Proj, Range;
    forall j | 0 <= j < |c.file| && c.file[j] == f
      ensures Proj(w.inbox + [msg], j) == Range(written[j], handed[msg.j := handed[msg.j] + 1][j])
    {
      ProjPush(w.inbox, msg, j);
      if j == msg.j {
        RangePush(written[j], handed[j]);
      }
    }
  }

  lemma NewWriter(c: Config, f: nat, handed: seq<nat>, written: seq<nat>, msg: Msg)
    requires c.Valid() && Sized(c, handed, written)
    requires forall j :: 0 <= j < |c.file| && c.file[j] == f ==> written[j] == handed[j] == 0
    requires msg.Data? && msg.j < |c.file| && c.file[msg.j] == f && msg.m == 0
    ensures WriterInv(c, Wr([msg], c.Streams(f), false), f, handed[msg.j := handed[msg.j] + 1], written)
  {
    forall j | 0 <= j < |c.file| && c.file[j] == f
      ensures Proj([msg], j) == Range(written[j], handed[msg.j := handed[msg.j] + 1][j])
    {
      assert [] + [msg] == [msg];
      ProjPush([], msg, j);
    }
    assert Unended(c, written, f) == set j | 0 <= j < |c.file| && c.file[j] == f;
  }

  /** The writers after job j0 of file f0 has moved on, given that f0's writer is right. */
  lemma WritersUpdate(c: Config, writers: map<nat, Wr>, handed: seq<nat>, written: seq<nat>, f0: nat, w: Wr,
                      handed': seq<nat>, written': seq<nat>, j0: nat)
    requires Sized(c, handed, written) && Sized(c, handed', written')
    requires WritersInv(c, writers, handed, written) && WriterInv(c, w, f0, handed', written')
    requires j0 < |c.file| && c.file[j0] == f0
    requires forall j :: 0 <= j < |c.file| && j != j0 ==> handed'[j] == handed[j] && written'[j] == written[j]
    ensures WritersInv(c, writers[f0 := w], handed', written')
  {
    hide WriterInv;
    forall f | f in writers && f != f0 ensures WriterInv(c, writers[f], f, handed', written') {
      OtherWriter(c, writers[f], f, handed, written, handed', written', j0);
    }
  }

  /** Handing on a message for which the file has a writer in the map. */
  lemma HandToOld(c: Config, files: Files, msg: Msg)
    requires FilesInv(c, files) && msg.Data? && msg.j < |c.file| && c.file[msg.j] in files.writers
    requires msg.m == files.handed[msg.j]
    ensures var f := c.file[msg.j];
            var w := files.writers[f].(inbox := files.writers[f].inbox + [msg]);
            WritersInv(c, files.writers[f := w], files.handed[msg.j := files.handed[msg.j] + 1], files.written)
  {
    var f, handed' := c.file[msg.j], files.handed[msg.j := files.handed[msg.j] + 1];
    hide WriterInv;
    PushToWriter(c, files.writers[f], f, files.handed, files.written, msg);
    WritersUpdate(c, files.writers, files.handed, files.written, f,
                  files.writers[f].(inbox := files.writers[f].inbox + [msg]), handed', files.written, msg.j);
  }

  /** Handing on a file's first message. */
  lemma HandToNew(c: Config, files: Files, msg: Msg)
    requires c.Valid() && FilesInv(c, files) && msg.Data? && msg.j < |c.file| && c.file[msg.j] !in files.writers
    requires msg.m == files.handed[msg.j]
    ensures WritersInv(c, files.writers[c.file[msg.j] := Wr([msg], c.Streams(c.file[msg.j]), false)],
                       files.handed[msg.j := files.handed[msg.j] + 1], files.written)
  {
    var f, handed' := c.file[msg.j], files.handed[msg.j := files.handed[msg.j] + 1];
    hide WriterInv;
    NewWriter(c, f, files.handed, files.written, msg);
    WritersUpdate(c, files.writers, files.handed, files.written, f, Wr([msg], c.Streams(f), false), handed',
                  files.written, msg.j);
  }

  lemma HandOverKeeps(c: Config, files: Files, msg: Msg)
    requires c.Valid() && FilesInv(c, files) && HandOver(c, files, msg).Some?
    requires msg.m == files.handed[msg.j] < c.msgs[msg.j]
    ensures FilesInv(c, HandOver(c, files, msg).value)
  {
    hide WritersInv, Config.Streams;
    OutstandingMeansLive(c, files, msg.j);
    if c.file[msg.j] in files.writers {
      HandToOld(c, files, msg);
    } else {
      HandToNew(c, files, msg);
    }
  }

  // ---- a writer takes a message ----

  lemma InboxInOrder(c: Config, inbox: seq<Msg>, f: nat, handed: seq<nat>, written: seq<nat>)
    requires Sized(c, handed, written) && InboxInv(c, inbox, f, handed, written) && inbox != []
    ensures var msg := inbox[0];
            && msg.Data? && msg.j < |c.file| && c.file[msg.j] == f
            && msg.m == written[msg.j] < handed[msg.j]
            && forall j :: 0 <= j < |c.file| && c.file[j] == f ==>
                 Proj(inbox[1..], j) == Range(if j == msg.j then written[j] + 1 else written[j], handed[j])
  {
    hide Proj, Range;
    var msg := inbox[0];
    forall j | 0 <= j < |c.file| && c.file[j] == f
      ensures j == msg.j ==> msg.m == written[j] < handed[j]
      ensures Proj(inbox[1..], j) == Range(if j == msg.j then written[j] + 1 else written[j], handed[j])
    {
      ProjPop(inbox, j);
      if j == msg.j {
        RangePop(written[j], handed[j], msg.m, Proj(inbox[1..], j));
      }
    }
  }

  /** Writers take the messages of each stream in order: what they take is the next one of its stream. */
  lemma InOrder(c: Config, w: Wr, f: nat, handed: seq<nat>, written: seq<nat>)
    requires Sized(c, handed, written) && WriterInv(c, w, f, handed, written) && w.inbox != []
    ensures var msg := w.inbox[0];
            && msg.Data? && msg.j < |c.file| && c.file[msg.j] == f
            && msg.m == written[msg.j] < handed[msg.j]
  {
    hide InboxInv;
    InboxInOrder(c, w.inbox, f, handed, written);
  }

  /** Taking a message of job j ends the stream exactly if it is its last and all of them decode. */
  lemma OneMoreWritten(c: Config, written: seq<nat>, f: nat, j: nat)
    requires |written| == |c.file| == |c.msgs| == |c.good| && j < |c.file| && c.file[j] == f && written[j] < c.msgs[j]
    ensures var written' := written[j := written[j] + 1];
            |Unended(c, written', f)|
            == |Unended(c, written, f)| - (if written[j] + 1 == c.msgs[j] && c.JobOk(j) then 1 else 0)
  {
    var written' := written[j := written[j] + 1];
    if written[j] + 1 == c.msgs[j] && c.JobOk(j) {
      assert Unended(c, written', f) == Unended(c, written, f) - {j};
      assert j in Unended(c, written, f);
    } else {
      assert Unended(c, written', f) == Unended(c, written, f);
    }
  }

  /** A writer fails over a message that does not decode, and over nothing else. */
  lemma TakesRightly(c: Config, w: Wr, f: nat, written: seq<nat>)
    requires |written| == |c.file| == |c.msgs| == |c.good| && FailedRightly(c, w, f, written) && !w.failed
    requires w.inbox != [] && w.inbox[0].Data? && w.inbox[0].j < |c.file| && c.file[w.inbox[0].j] == f
    requires w.inbox[0].m == written[w.inbox[0].j] < c.msgs[w.inbox[0].j]
    ensures var j := w.inbox[0].j;
            FailedRightly(c, TakeFirst(c, w), f, written[j := written[j] + 1])
  {
    var j := w.inbox[0].j;
    var written' := written[j := written[j] + 1];
    assert w.inbox[0].m >= c.good[j] ==> written'[j] > c.good[j];
  }

  lemma RestOfInbox(c: Config, w: Wr)
    requires |c.msgs| == |c.good| && w.inbox != [] && w.inbox[0].Data? && w.inbox[0].j < |c.msgs|
    ensures TakeFirst(c, w).inbox == w.inbox[1..]
  {
  }

  lemma TakeFirstKeeps(c: Config, w: Wr, f: nat, handed: seq<nat>, written: seq<nat>)
    requires c.Valid() && Sized(c, handed, written) && WriterInv(c, w, f, handed, written) && w.inbox != []
    requires w.inbox[0].Data? && w.inbox[0].j < |c.msgs| && handed[w.inbox[0].j] <= c.msgs[w.inbox[0].j] && !w.failed
    ensures var j := w.inbox[0].j;
            WriterInv(c, TakeFirst(c, w), f, handed, written[j := written[j] + 1])
  {
    InOrder(c, w, f, handed, written);
    hide Proj, Range, Unended, InboxInv, FailedRightly, Config.JobOk, TakeFirst;
    var j := w.inbox[0].j;
    RestOfInbox(c, w);
    OneMoreWritten(c, written, f, j);
    TakesRightly(c, w, f, written);
    InboxAfterTake(c, w.inbox, f, handed, written);
    CountsRightly(c, w, f, written);
  }

  /** The stream counter drops exactly with the last message of a job all of whose messages decode. */
  lemma CountsRightly(c: Config, w: Wr, f: nat, written: seq<nat>)
    requires c.Valid() && |written| == |c.file| && FailedRightly(c, w, f, written) && !w.failed
    requires w.inbox != [] && w.inbox[0].Data? && w.inbox[0].j < |c.file| && c.file[w.inbox[0].j] == f
    requires w.inbox[0].m == written[w.inbox[0].j] < c.msgs[w.inbox[0].j]
    ensures var j := w.inbox[0].j;
            TakeFirst(c, w).streams == if written[j] + 1 == c.msgs[j] && c.JobOk(j) then w.streams - 1 else w.streams
  {
  }

  lemma InboxAfterTake(c: Config, inbox: seq<Msg>, f: nat, handed: seq<nat>, written: seq<nat>)
    requires Sized(c, handed, written) && InboxInv(c, inbox, f, handed, written) && inbox != []
    ensures inbox[0].Data? && inbox[0].j < |c.file|
    ensures InboxInv(c, inbox[1..], f, handed, written[inbox[0].j := written[inbox[0].j] + 1])
  {
    hide Proj, Range;
    InboxInOrder(c, inbox, f, handed, written);
  }

  /** The message at the head of a writer's inbox belongs to its file and is the next one of its stream. */
  lemma HeadInOrder(c: Config, files: Files, f: nat)
    requires FilesInv(c, files) && f in files.writers && files.writers[f].inbox != []
    ensures var msg := files.writers[f].inbox[0];
            && msg.Data? && msg.j < |c.file| && c.file[msg.j] == f
            && msg.m == files.written[msg.j] < files.handed[msg.j] <= c.msgs[msg.j]
  {
    hide Proj, Range, WriterInv;
    InOrder(c, files.writers[f], f, files.handed, files.written);
    WithinJob(c, files, files.writers[f].inbox[0].j);
  }

  lemma TakeInKeepsWriters(c: Config, writers: map<nat, Wr>, handed: seq<nat>, written: seq<nat>, f: nat, w: Wr,
                           j: nat, written': seq<nat>)
    requires c.Valid() && Sized(c, handed, written) && WritersInv(c, writers, handed, written)
    requires f in writers && w == writers[f] && w.inbox != [] && !w.failed
    requires w.inbox[0].Data? && j == w.inbox[0].j < |c.file| && c.file[j] == f && handed[j] <= c.msgs[j]
    requires written' == written[j := written[j] + 1]
    ensures WritersInv(c, writers[f := TakeFirst(c, w)], handed, written')
  {
    hide TakeFirst, WriterInv;
    TakeFirstKeeps(c, w, f, handed, written);
    WritersUpdate(c, writers, handed, written, f, TakeFirst(c, w), handed, written', j);
  }

  lemma WithinJob(c: Config, files: Files, j: nat)
    requires FilesInv(c, files) && j < |c.file|
    ensures files.written[j] <= files.handed[j] <= c.msgs[j]
  {
  }

  lemma TakeInKeeps(c: Config, files: Files, f: nat)
    requires c.Valid() && FilesInv(c, files) && TakeIn(c, files, f).Some?
    ensures FilesInv(c, TakeIn(c, files, f).value)
  {
    hide WritersInv, TakeFirst;
    HeadInOrder(c, files, f);
    var j := files.writers[f].inbox[0].j;
    TakeInKeepsWriters(c, files.writers, files.handed, files.written, f, files.writers[f], j,
                       files.written[j := files.written[j] + 1]);
  }

  // ---- all steps ----

  /** Every step keeps the invariant. */
  lemma StepKeepsInv(c: Config, s: State, a: Action)
    requires c.Valid() && Inv(c, s) && Step(c, s, a).Some?
    ensures Inv(c, Step(c, s, a).value)
  {
    hide PoolInv, LinkInv, FilesInv, NoneAlive;
    match a {
      case Send => SendKeepsPools(c, s);
      case Take(ofRoll, r) => TakeKeepsPools(c, s, ofRoll, r);
      case Emit(ofRoll, r) => EmitKeepsInv(c, s, ofRoll, r);
      case SendFin => SendFinKeepsInv(c, s);
      case Abort =>
      case Receive => ReceiveKeepsInv(c, s);
      case Hand => HandKeepsInv(c, s);
      case Consume(f) => ConsumeKeepsInv(c, s, f);
      case Remove(f) => RemoveKeepsInv(c, s, f);
      case Exit =>
      case Return =>
    }
  }

  lemma EmitKeepsInv(c: Config, s: State, ofRoll: bool, r: nat)
    requires c.Valid() && Inv(c, s) && EmitStep(c, s, ofRoll, r).Some?
    ensures Inv(c, EmitStep(c, s, ofRoll, r).value)
  {
    hide PoolsInv, LinkInv, FilesInv, EmitOne;
    EmitKeepsPools(c, s, ofRoll, r);
    EmitHasMore(c, s, ofRoll, r);
    EmitKeepsLink(s.link, c.msgs, s.prog, s.files.handed, PoolOf(s, ofRoll).readers[r].j);
  }

  lemma SendFinKeepsInv(c: Config, s: State)
    requires c.Valid() && Inv(c, s) && SendFinStep(c, s).Some?
    ensures Inv(c, SendFinStep(c, s).value)
  {
    hide PoolInv, LinkInv, FilesInv;
    AllProcessed(c, s);
    FinKeepsLink(s.link, c.msgs, s.prog, s.files.handed);
  }

  lemma ReceiveKeepsInv(c: Config, s: State)
    requires c.Valid() && Inv(c, s) && ReceiveStep(s).Some?
    ensures Inv(c, ReceiveStep(s).value)
  {
    hide PoolInv, LinkInv, FilesInv;
    TakeOffKeepsLink(s.link, c.msgs, s.prog, s.files.handed);
  }

  /** With a message in hand the receiver is still in its loop. */
  lemma StillLooping(c: Config, s: State)
    requires c.Valid() && Inv(c, s) && s.link.hold.Some?
    ensures s.phase == Looping
  {
  }

  lemma HandKeepsInv(c: Config, s: State)
    requires c.Valid() && Inv(c, s) && HandStep(c, s).Some?
    ensures Inv(c, HandStep(c, s).value)
  {
    hide PoolInv, LinkInv, FilesInv;
    StillLooping(c, s);
    InHand(s.link, c.msgs, s.prog, s.files.handed);
    HandKeepsLink(s.link, c.msgs, s.prog, s.files.handed);
    HandOverKeeps(c, s.files, s.link.hold.value);
  }

  /** A writer with open streams keeps the receiver in its loop. */
  lemma AliveKeepsLooping(c: Config, s: State, f: nat)
    requires c.Valid() && Inv(c, s) && f in s.files.writers && s.files.writers[f].streams != 0
    ensures s.phase == Looping
  {
    hide PoolInv, LinkInv, WritersInv;
  }

  lemma ConsumeKeepsInv(c: Config, s: State, f: nat)
    requires c.Valid() && Inv(c, s) && ConsumeStep(c, s, f).Some?
    ensures Inv(c, ConsumeStep(c, s, f).value)
  {
    hide PoolInv, LinkInv, FilesInv;
    AliveKeepsLooping(c, s, f);
    TakeInKeeps(c, s.files, f);
  }

  lemma RemoveKeepsInv(c: Config, s: State, f: nat)
    requires c.Valid() && Inv(c, s) && RemoveStep(s, f).Some?
    ensures Inv(c, RemoveStep(s, f).value)
  {
    hide PoolInv, LinkInv, WritersInv;
  }

  /** The invariant holds after every run. */
  lemma {:induction false} RunKeepsInv(c: Config, s: State, actions: seq<Action>)
    requires c.Valid() && Inv(c, s) && Exec(c, s, actions).Some?
    ensures Inv(c, Exec(c, s, actions).value)
    decreases |actions|
  {
    if actions != [] {
      hide Inv, Step;
      StepKeepsInv(c, s, actions[0]);
      RunKeepsInv(c, Step(c, s, actions[0]).value, actions[1..]);
    }
  }
}
