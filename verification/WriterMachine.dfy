/** The receiving state machine of FileWriter.Start, message by message, on values. */
module WriterMachine {
  import opened Types
  import opened Interpreter

  /** A received message: the stream is named by its offset. */
  datatype Chunk = Chunk(offset: int, seqNo: int, body: seq<byte>)

  /** One temporary file: the expected sequence number, the messages that came early, the contents, and whether the
      file was closed. */
  datatype Stream = Stream(next: int, cache: map<int, seq<byte>>, file: seq<byte>, closed: bool)

  datatype Writer = Writer(streams: int, files: map<int, Stream>)

  /** After a message the writer goes on, leaves its loop with the temporary files, or returns an error. */
  datatype Progress = Going(w: Writer) | Complete(files: map<int, seq<byte>>) | Crashed

  const NEW_STREAM: Stream := Stream(0, map[], [], false)

  /** writeToFile on a stream: appending to a closed file fails. */
  function Put(s: Stream, body: seq<byte>, reference: Option<seq<byte>>, bs: nat): Written {
    match Decode(body, reference, bs)
    case Broken => Broken
    case Wrote(bytes, ended) => if s.closed && bytes != [] then Broken else Wrote(bytes, ended)
  }

  /** What a message does to its stream and to the number of open streams. */
  datatype Handled = Kept(s: Stream, streams: int) | AllEnded(s: Stream) | Failed

  /** The loop over cached messages. When it meets an End and other streams are open, `continue` re-enters this loop
      with the same message still expected and still cached. */
  function Drain(s: Stream, streams: int, reference: Option<seq<byte>>, bs: nat): Handled
    decreases |s.cache|, if s.closed then 0 else 1
  {
    if s.next !in s.cache then Kept(s, streams)
    else match Put(s, s.cache[s.next], reference, bs)
      case Broken => Failed
      case Wrote(bytes, ended) =>
        if ended then
          if s.closed then Failed
          else
            var s' := s.(file := s.file + bytes, closed := true);
            if streams - 1 == 0 then AllEnded(s') else Drain(s', streams - 1, reference, bs)
        else
          var cache' := s.cache - {s.next};
          assert s.cache.Keys == cache'.Keys + {s.next};
          Drain(s.(next := s.next + 1, cache := cache', file := s.file + bytes), streams, reference, bs)
  }

  function Handle(s: Stream, streams: int, seqNo: int, body: seq<byte>, reference: Option<seq<byte>>, bs: nat): Handled
  {
    if seqNo != s.next then Kept(s.(cache := s.cache[seqNo := body]), streams)
    else match Put(s, body, reference, bs)
      case Broken => Failed
      case Wrote(bytes, ended) =>
        if ended then
          if s.closed then Failed
          else
            var s' := s.(file := s.file + bytes, closed := true);
            if streams - 1 == 0 then AllEnded(s') else Kept(s', streams - 1)
        else Drain(s.(next := s.next + 1, file := s.file + bytes), streams, reference, bs)
  }

  function StreamAt(w: Writer, offset: int): Stream {
    if offset in w.files then w.files[offset] else NEW_STREAM
  }

  function Contents(files: map<int, Stream>): map<int, seq<byte>> {
    map o | o in files :: files[o].file
  }

  function Receive(w: Writer, c: Chunk, reference: Option<seq<byte>>, bs: nat): Progress {
    match Handle(StreamAt(w, c.offset), w.streams, c.seqNo, c.body, reference, bs)
    case Kept(s, streams) => Going(Writer(streams, w.files[c.offset := s]))
    case AllEnded(s) => Complete(Contents(w.files[c.offset := s]))
    case Failed => Crashed
  }

  /** The receive loop: once left, it reads no further message. */
  function Run(w: Writer, arrivals: seq<Chunk>, reference: Option<seq<byte>>, bs: nat): Progress
    decreases |arrivals|
  {
    if arrivals == [] then Going(w)
    else match Receive(w, arrivals[0], reference, bs)
      case Going(w') => Run(w', arrivals[1..], reference, bs)
      case Complete(files) => Complete(files)
      case Crashed => Crashed
  }

  // ---- one stream whose messages arrive in any order ----

  /** A stream's messages: every body that decodes ends the stream exactly if it is the last one. */
  ghost predicate IsStream(bodies: seq<seq<byte>>, reference: Option<seq<byte>>, bs: nat) {
    && bodies != []
    && forall i :: 0 <= i < |bodies| ==> EndsOnlyIf(bodies[i], i == |bodies| - 1, reference, bs)
  }

  ghost predicate EndsOnlyIf(body: seq<byte>, last: bool, reference: Option<seq<byte>>, bs: nat) {
    match Decode(body, reference, bs) case Broken => true case Wrote(_, ended) => ended == last
  }

  predicate Ok(body: seq<byte>, reference: Option<seq<byte>>, bs: nat) {
    Decode(body, reference, bs).Wrote?
  }

  ghost predicate OkBetween(bodies: seq<seq<byte>>, i: nat, j: nat, reference: Option<seq<byte>>, bs: nat)
    requires j <= |bodies|
  {
    forall k :: i <= k < j ==> Ok(bodies[k], reference, bs)
  }

  /** How many messages decode before the first that does not. */
  function Decodable(bodies: seq<seq<byte>>, reference: Option<seq<byte>>, bs: nat): (n: nat)
    ensures n <= |bodies|
    ensures forall k :: 0 <= k < n ==> Ok(bodies[k], reference, bs)
    ensures n < |bodies| ==> !Ok(bodies[n], reference, bs)
  {
    if bodies == [] || !Ok(bodies[0], reference, bs) then 0
    else
      var n := Decodable(bodies[1..], reference, bs);
      assert forall k :: 0 <= k < n ==> bodies[k + 1] == bodies[1..][k];
      n + 1
  }

  /** The bytes of the first n messages. */
  function Decoded(bodies: seq<seq<byte>>, n: nat, reference: Option<seq<byte>>, bs: nat): seq<byte>
    requires n <= |bodies|
  {
    if n == 0 then []
    else
      Decoded(bodies, n - 1, reference, bs) +
      match Decode(bodies[n - 1], reference, bs) case Broken => [] case Wrote(bytes, _) => bytes
  }

  /** The first number from j on that is below n and not in `got`; n if there is none. */
  function Missing(got: set<int>, j: nat, n: nat): (m: nat)
    requires j <= n
    ensures j <= m <= n
    ensures forall k :: j <= k < m ==> k in got
    ensures m < n ==> m !in got
    decreases n - j
  {
    if j < n && j in got then Missing(got, j + 1, n) else j
  }

  lemma {:induction false} MissingUnique(got: set<int>, j: nat, n: nat, m: nat)
    requires j <= m <= n && (forall k :: j <= k < m ==> k in got) && (m < n ==> m !in got)
    ensures Missing(got, j, n) == m
  {
  }

  function Cached(bodies: seq<seq<byte>>, got: set<int>, from: int): map<int, seq<byte>> {
    map i | i in got && 0 <= i < |bodies| && from <= i :: bodies[i]
  }

  /** The stream once the messages in `got` have been handled: everything before the first missing one is written,
      everything after it is cached. */
  function Expect(bodies: seq<seq<byte>>, got: set<int>, reference: Option<seq<byte>>, bs: nat): Stream
    requires bodies != []
  {
    var m := Missing(got, 0, |bodies|);
    if m < |bodies| then Stream(m, Cached(bodies, got, m), Decoded(bodies, m, reference, bs), false)
    else Stream(m - 1, map[], Decoded(bodies, m, reference, bs), true)
  }

  /** Draining from a stream whose first j messages are written. */
  lemma {:induction false} DrainFrom(bodies: seq<seq<byte>>, got: set<int>, j: nat, streams: int,
                                     reference: Option<seq<byte>>, bs: nat)
    requires IsStream(bodies, reference, bs) && j < |bodies|
    ensures var n, m := |bodies|, Missing(got, j, |bodies|);
            var s := Stream(j, Cached(bodies, got, j), Decoded(bodies, j, reference, bs), false);
            var r := Drain(s, streams, reference, bs);
            if !OkBetween(bodies, j, m, reference, bs) then r == Failed
            else if m < n then
              r == Kept(Stream(m, Cached(bodies, got, m), Decoded(bodies, m, reference, bs), false), streams)
            else if streams == 1 then r.AllEnded? && r.s.file == Decoded(bodies, n, reference, bs)
            else r == Failed
    decreases |bodies| - j
  {
    hide Decode;
    var n, m := |bodies|, Missing(got, j, |bodies|);
    var s := Stream(j, Cached(bodies, got, j), Decoded(bodies, j, reference, bs), false);
    if j in got {
      assert EndsOnlyIf(bodies[j], j == n - 1, reference, bs);
      assert s.cache[j] == bodies[j];
      if Ok(bodies[j], reference, bs) {
        if j < n - 1 {
          DrainFrom(bodies, got, j + 1, streams, reference, bs);
          assert s.cache - {j} == Cached(bodies, got, j + 1);
          OkFrom(bodies, j, m, reference, bs);
        } else {
          DrainEnd(s, streams, reference, bs);
        }
      } else {
        assert !OkBetween(bodies, j, m, reference, bs);
      }
    }
  }

  lemma OkFrom(bodies: seq<seq<byte>>, j: nat, m: nat, reference: Option<seq<byte>>, bs: nat)
    requires j < m <= |bodies| && Ok(bodies[j], reference, bs)
    ensures OkBetween(bodies, j, m, reference, bs) <==> OkBetween(bodies, j + 1, m, reference, bs)
  {
  }

  /** An End taken from the cache finishes the file if it is the last one; otherwise the loop closes the file, meets
      the same message again and fails: it writes to the closed file or closes it a second time. */
  lemma DrainEnd(s: Stream, streams: int, reference: Option<seq<byte>>, bs: nat)
    requires s.next in s.cache && !s.closed
    requires var d := Decode(s.cache[s.next], reference, bs); d.Wrote? && d.ended
    ensures var r := Drain(s, streams, reference, bs);
            if streams == 1 then
              r.AllEnded? && r.s.file == s.file + Decode(s.cache[s.next], reference, bs).bytes
            else r == Failed
  {
  }

  /** A message that comes before its turn is cached. */
  lemma HandleEarly(bodies: seq<seq<byte>>, got: set<int>, q: nat, streams: int, reference: Option<seq<byte>>, bs: nat)
    requires bodies != [] && q < |bodies| && q !in got && q != Missing(got, 0, |bodies|)
    ensures var m := Missing(got, 0, |bodies|);
            && m < q && Missing(got + {q}, 0, |bodies|) == m
            && Handle(Expect(bodies, got, reference, bs), streams, q, bodies[q], reference, bs)
               == Kept(Expect(bodies, got + {q}, reference, bs), streams)
  {
    hide Decode, Drain, Decoded;
    var m := Missing(got, 0, |bodies|);
    MissingUnique(got + {q}, 0, |bodies|, m);
    assert Expect(bodies, got, reference, bs).cache[q := bodies[q]] == Cached(bodies, got + {q}, m);
  }

  /** The message whose turn it is is written, and with it what was cached behind it. */
  lemma HandleNext(bodies: seq<seq<byte>>, got: set<int>, q: nat, streams: int, reference: Option<seq<byte>>, bs: nat)
    requires IsStream(bodies, reference, bs) && q < |bodies| && q == Missing(got, 0, |bodies|)
    ensures var n, m' := |bodies|, Missing(got + {q}, 0, |bodies|);
            var r := Handle(Expect(bodies, got, reference, bs), streams, q, bodies[q], reference, bs);
            && q < m'
            && if !OkBetween(bodies, q, m', reference, bs) then r == Failed
               else if m' < n then r == Kept(Expect(bodies, got + {q}, reference, bs), streams)
               else if streams == 1 then r.AllEnded? && r.s.file == Decoded(bodies, n, reference, bs)
               else if q == n - 1 then r == Kept(Expect(bodies, got + {q}, reference, bs), streams - 1)
               else r == Failed
  {
    hide Decode, Drain;
    var n, got' := |bodies|, got + {q};
    var m' := Missing(got', q + 1, n);
    MissingUnique(got', 0, n, m');
    assert EndsOnlyIf(bodies[q], q == n - 1, reference, bs);
    if Ok(bodies[q], reference, bs) {
      if q < n - 1 {
        DrainFrom(bodies, got', q + 1, streams, reference, bs);
        assert Expect(bodies, got, reference, bs).cache == Cached(bodies, got', q + 1);
      }
      OkFrom(bodies, q, m', reference, bs);
    } else {
      assert !OkBetween(bodies, q, m', reference, bs);
    }
  }

  /** One message of a stream, whatever came before it. */
  lemma HandleOne(bodies: seq<seq<byte>>, got: set<int>, q: nat, streams: int, reference: Option<seq<byte>>, bs: nat)
    requires IsStream(bodies, reference, bs) && q < |bodies| && q !in got
    ensures var n, m, m' := |bodies|, Missing(got, 0, |bodies|), Missing(got + {q}, 0, |bodies|);
            var s' := Expect(bodies, got + {q}, reference, bs);
            var r := Handle(Expect(bodies, got, reference, bs), streams, q, bodies[q], reference, bs);
            && m <= q && m <= m'
            && if !OkBetween(bodies, m, m', reference, bs) then r == Failed
               else if m' < n then r == Kept(s', streams)
               else if streams == 1 then r.AllEnded? && r.s.file == Decoded(bodies, n, reference, bs)
               else if q == n - 1 then r == Kept(s', streams - 1)
               else r == Failed
  {
    hide Handle, Expect, IsStream, Ok, Decoded;
    if q == Missing(got, 0, |bodies|) {
      HandleNext(bodies, got, q, streams, reference, bs);
    } else {
      StreamNotEmpty(bodies, reference, bs);
      HandleEarly(bodies, got, q, streams, reference, bs);
    }
  }

  lemma StreamNotEmpty(bodies: seq<seq<byte>>, reference: Option<seq<byte>>, bs: nat)
    requires IsStream(bodies, reference, bs)
    ensures bodies != []
  {
  }

  /** A stream whose messages arrive in order: every message that decodes is written at once, the last one ends the
      stream, and the first that does not decode makes the writer fail. */
  lemma InOrderStep(bodies: seq<seq<byte>>, got: set<int>, q: nat, streams: int, reference: Option<seq<byte>>, bs: nat)
    requires forall i :: i in got <==> 0 <= i < q
    requires IsStream(bodies, reference, bs) && q < |bodies| && q <= Decodable(bodies, reference, bs)
    ensures var r := Handle(Expect(bodies, got, reference, bs), streams, q, bodies[q], reference, bs);
            if q >= Decodable(bodies, reference, bs) then r == Failed
            else if q < |bodies| - 1 then r == Kept(Expect(bodies, got + {q}, reference, bs), streams)
            else if streams == 1 then r.AllEnded? && r.s.file == Decoded(bodies, |bodies|, reference, bs)
            else r == Kept(Expect(bodies, got + {q}, reference, bs), streams - 1)
  {
    hide Handle, Expect, Decoded, IsStream, Missing, Decodable;
    MissingUnique(got, 0, |bodies|, q);
    MissingUnique(got + {q}, 0, |bodies|, q + 1);
    HandleNext(bodies, got, q, streams, reference, bs);
    assert OkBetween(bodies, q, q + 1, reference, bs) <==> Ok(bodies[q], reference, bs) by {
      hide Ok;
    }
  }
}
