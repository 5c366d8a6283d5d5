/**
 * What one TCP connection sees: the banner, then one echo per chunk read,
 * until the first event that ends the echo loop. The input is the sequence
 * of outcomes of `reader.read(1024)` the handler observes, in order.
 */
module Session {
  import opened Bytes
  import opened Keyword

  /** The handler reads at most this many bytes per call. */
  const ReadSize: nat := 1024

  /** b"Echo: " */
  const EchoPrefix: Bytes := [69, 99, 104, 111, 58, 32]

  /**
   * An exception raised while the handler awaits: the two it swallows
   * (`ConnectionResetError`, `asyncio.CancelledError`), or any other, which
   * propagates out of the handler once the `finally` block has run.
   */
  datatype AbortReason = Reset | Cancelled | OtherError

  /** One outcome of `reader.read(1024)`: the bytes read (empty at end of stream), or an exception. */
  datatype ReadOutcome = Read(data: Bytes) | Abort(reason: AbortReason)

  /** How the echo loop ended, or that it is still waiting for its next read. */
  datatype Exit = Suspended | PeerClosed | KeywordSent | Aborted(reason: AbortReason)

  /** What `read(1024)` can return. */
  predicate WellFormed(e: ReadOutcome)
  {
    e.Read? ==> |e.data| <= ReadSize
  }

  /** The reply written for a chunk that is not a keyword. */
  function Echo(chunk: Bytes): (r: Bytes)
    ensures |r| == |EchoPrefix| + |chunk| && r[|EchoPrefix|..] == chunk
  {
    EchoPrefix + chunk
  }

  /** An outcome that leaves the echo loop: an exception, an empty read, or a keyword. */
  predicate IsStop(e: ReadOutcome)
  {
    match e
    case Abort(_) => true
    case Read(data) => data == [] || IsTerminator(data)
  }

  /** The loop exit a stopping outcome leads to. */
  function ExitOf(e: ReadOutcome): (x: Exit)
    requires IsStop(e)
    ensures x != Suspended
  {
    match e
    case Abort(r) => Aborted(r)
    case Read(data) => if data == [] then PeerClosed else KeywordSent
  }

  /** The position of the first stopping outcome, or the length of the trace if there is none. */
  function StopIndex(t: seq<ReadOutcome>): (k: nat)
    ensures k <= |t|
    ensures forall j :: 0 <= j < k ==> !IsStop(t[j])
    ensures k < |t| ==> IsStop(t[k])
  {
    if t == [] || IsStop(t[0]) then 0 else 1 + StopIndex(t[1..])
  }

  /** How the loop ends on trace `t`. */
  function Outcome(t: seq<ReadOutcome>): (x: Exit)
    ensures x == Suspended <==> StopIndex(t) == |t|
    ensures x == PeerClosed <==> StopIndex(t) < |t| && t[StopIndex(t)] == Read([])
    ensures x.Aborted? <==> StopIndex(t) < |t| && t[StopIndex(t)].Abort?
  {
    var k := StopIndex(t);
    if k == |t| then Suspended else ExitOf(t[k])
  }

  /** The echoes the loop writes, one read at a time. */
  function EchoOutput(t: seq<ReadOutcome>): (r: Bytes)
    ensures |r| >= 6 * StopIndex(t)
  {
    if t == [] || IsStop(t[0]) then [] else Echo(t[0].data) + EchoOutput(t[1..])
  }

  /** Everything written to the peer: the banner (nothing when it is empty), then the echoes. */
  function Transcript(banner: Bytes, t: seq<ReadOutcome>): (r: Bytes)
    ensures |r| >= |banner| && r[..|banner|] == banner
    ensures StopIndex(t) == 0 ==> r == banner
  {
    banner + EchoOutput(t)
  }

  /** Reference definition: the echoes of a list of chunks, concatenated. */
  function EchoAll(chunks: seq<Bytes>): Bytes
  {
    if chunks == [] then [] else Echo(chunks[0]) + EchoAll(chunks[1..])
  }

  /** The chunks of a trace that holds only reads. */
  function Chunks(t: seq<ReadOutcome>): (cs: seq<Bytes>)
    requires forall j :: 0 <= j < |t| ==> t[j].Read?
    ensures |cs| == |t|
    ensures forall j :: 0 <= j < |t| ==> cs[j] == t[j].data
  {
    seq(|t|, j requires 0 <= j < |t| => t[j].data)
  }

  /** Each reply is `"Echo: "` followed by the chunk, so at most 1030 bytes. */
  lemma EchoBound(chunk: Bytes)
    requires |chunk| <= ReadSize
    ensures |Echo(chunk)| == |chunk| + 6 <= 1030
    ensures Echo(chunk)[..6] == EchoPrefix && Echo(chunk)[6..] == chunk
  {
  }

  /**
   * The output is exactly the echoes of the chunks before the first stopping
   * outcome, in input order.
   */
  lemma {:induction false} EchoOutputIsEchoesBeforeStop(t: seq<ReadOutcome>)
    ensures EchoOutput(t) == EchoAll(Chunks(t[..StopIndex(t)]))
  {
    var k := StopIndex(t);
    if t != [] && !IsStop(t[0]) {
      EchoOutputIsEchoesBeforeStop(t[1..]);
      var cs := Chunks(t[..k]);
      assert cs[0] == t[0].data;
      assert cs[1..] == Chunks(t[1..][..k - 1]);
      calc {
        EchoAll(cs);
        Echo(cs[0]) + EchoAll(cs[1..]);
        Echo(t[0].data) + EchoOutput(t[1..]);
      }
    } else {
      assert Chunks(t[..k]) == [];
    }
  }

  /** Once the loop has stopped, nothing that follows is ever echoed, and the exit does not change. */
  lemma {:induction false} NothingAfterStop(t: seq<ReadOutcome>, rest: seq<ReadOutcome>)
    requires StopIndex(t) < |t|
    ensures EchoOutput(t + rest) == EchoOutput(t)
    ensures StopIndex(t + rest) == StopIndex(t)
    ensures Outcome(t + rest) == Outcome(t)
  {
    if !IsStop(t[0]) {
      assert (t + rest)[1..] == t[1..] + rest;
      NothingAfterStop(t[1..], rest);
    }
  }

  /** The loop stops on the trace exactly when it contains a stopping outcome. */
  lemma StopsIffSomeStop(t: seq<ReadOutcome>)
    ensures Outcome(t) != Suspended <==> exists j :: 0 <= j < |t| && IsStop(t[j])
  {
  }

  /** With well-formed reads, every echo is at most 1030 bytes, so the output is bounded by the reads before the stop. */
  lemma {:induction false} EchoOutputBound(t: seq<ReadOutcome>)
    requires forall j :: 0 <= j < |t| ==> WellFormed(t[j])
    ensures |EchoOutput(t)| <= 1030 * StopIndex(t)
  {
    if t != [] && !IsStop(t[0]) {
      EchoOutputBound(t[1..]);
    }
  }

  /**
   * The first bytes written are the banner; after it, either the loop stopped
   * at once and nothing more is written, or the first thing written is the
   * echo of the first chunk.
   */
  lemma FirstWrites(banner: Bytes, t: seq<ReadOutcome>)
    ensures Transcript(banner, t)[..|banner|] == banner
    ensures t == [] || IsStop(t[0]) ==> Transcript(banner, t) == banner
    ensures t != [] && !IsStop(t[0]) ==>
              Transcript(banner, t)[..|banner| + |t[0].data| + 6] == banner + Echo(t[0].data)
  {
  }

  /** An empty read ends the loop with nothing further written. */
  lemma EmptyReadEnds(rest: seq<ReadOutcome>)
    ensures EchoOutput([Read([])] + rest) == []
    ensures Outcome([Read([])] + rest) == PeerClosed
  {
  }

  /** A keyword chunk ends the loop and is not echoed. */
  lemma KeywordEnds(data: Bytes, rest: seq<ReadOutcome>)
    requires IsTerminator(data)
    ensures EchoOutput([Read(data)] + rest) == []
    ensures Outcome([Read(data)] + rest) == KeywordSent
  {
  }

  /** Any other chunk is echoed and the loop goes on with the next read. */
  lemma ChunkEchoed(t: seq<ReadOutcome>)
    requires t != [] && t[0].Read? && t[0].data != [] && !IsTerminator(t[0].data)
    ensures EchoOutput(t) == Echo(t[0].data) + EchoOutput(t[1..])
    ensures StopIndex(t) == 1 + StopIndex(t[1..])
    ensures Outcome(t) == Outcome(t[1..])
  {
  }
}
