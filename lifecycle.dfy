/**
 * The connection lifecycle of the TCP handler and the shutdown sweep, over
 * the shared `clients` registry. Each method gives the sequential effect of
 * one task; the interleaving between tasks appears only as the schedule the
 * sweep is given.
 */
module Lifecycle {
  import opened Bytes
  import opened Keyword
  import opened Session
  import opened Registry

  /** How `await writer.wait_closed()` in the handler's `finally` block ends. */
  datatype WaitOutcome = WaitDone | WaitFailed | WaitCancelled

  /** b"HELLO\r\n" */
  const Hello: Bytes := [72, 69, 76, 76, 79, 13, 10]

  /** b"ping" */
  const Ping: Bytes := [112, 105, 110, 103]

  /**
   * The `while True` loop of `handle_tcp`: read, stop on an empty read, a
   * keyword or an exception, otherwise write the echo and read again. It
   * returns what it wrote and how it ended; when the trace runs out before a
   * stop, the loop is still waiting on its next read.
   */
  method EchoLoop(trace: seq<ReadOutcome>) returns (out: Bytes, exit: Exit)
    ensures out == EchoOutput(trace)
    ensures exit == Outcome(trace)
    ensures exit == Suspended <==> forall j :: 0 <= j < |trace| ==> !IsStop(trace[j])
  {
    out := [];
    var i := 0;
    while true
      invariant 0 <= i <= StopIndex(trace)
      invariant out + EchoOutput(trace[i..]) == EchoOutput(trace)
      decreases |trace| - i
    {
      if i == |trace| {
        exit := Suspended;
        return;
      }
      match trace[i]
      case Abort(reason) =>
        exit := Aborted(reason);
        return;
      case Read(data) =>
        if data == [] {
          exit := PeerClosed;
          return;
        }
        if IsTerminator(data) {
          exit := KeywordSent;
          return;
        }
        ChunkEchoed(trace[i..]);
        assert trace[i..][1..] == trace[i + 1..];
        out := out + Echo(data);
        i := i + 1;
    }
  }

  /** How the registry and the closed writers move on over one step of the sweep. */
  lemma SweepStep(snapshot: seq<Conn>, departures: seq<seq<Conn>>, i: nat, base: set<WriterId>)
    requires i < |snapshot| && |departures| == |snapshot|
    ensures RemoveAll(snapshot, Flatten(departures[..i + 1]))
            == RemoveAll(RemoveAll(snapshot, Flatten(departures[..i])), departures[i])
    ensures base + Writers(snapshot[..i + 1]) + Writers(Flatten(departures[..i + 1]))
            == base + Writers(snapshot[..i]) + Writers(Flatten(departures[..i]))
               + {snapshot[i].writer} + Writers(departures[i])
  {
    var done := Flatten(departures[..i]);
    TakeSnoc(snapshot, i);
    WritersAppend(snapshot[..i], [snapshot[i]]);
    WritersSingleton(snapshot[i]);
    TakeSnoc(departures, i);
    FlattenSnoc(departures[..i], departures[i]);
    WritersAppend(done, departures[i]);
    RemoveAllAppend(snapshot, done, departures[i]);
  }

  /** The module-level state the handlers and the shutdown sweep share. */
  class Server {
    /** The `clients` list, in insertion order. */
    var clients: seq<Conn>
    /** The writers on which `close()` has been called. */
    var closed: set<WriterId>

    /** Each accepted socket has its own writer, so no entry is registered twice. */
    ghost predicate Valid()
      reads this
    {
      NoDup(clients)
    }

    constructor ()
      ensures Valid()
      ensures clients == [] && closed == {}
    {
      clients := [];
      closed := {};
    }

    /** `clients.append((addr, writer))` on accept. */
    method Register(c: Conn)
      requires Valid() && c !in clients
      modifies this`clients
      ensures Valid()
      ensures clients == old(clients) + [c]
    {
      clients := clients + [c];
    }

    /** `if (addr, writer) in clients: clients.remove((addr, writer))`. */
    method RemoveIfPresent(c: Conn)
      requires Valid()
      modifies this`clients
      ensures Valid()
      ensures clients == RemoveFirst(old(clients), c)
      ensures c !in clients
    {
      if c in clients {
        RemoveFirstNoDup(clients, c);
        clients := RemoveFirst(clients, c);
      }
    }

    /** `writer.close()`; closing twice is harmless and a failure to close is ignored. */
    method CloseWriter(w: WriterId)
      modifies this`closed
      ensures closed == old(closed) + {w}
    {
      closed := closed + {w};
    }

    /**
     * The handler's `finally` block: close the writer, await `wait_closed()`,
     * then leave the registry if still there. A failure raised by the wait is
     * an `Exception` and is swallowed; a cancellation is not, so it escapes
     * before the guarded removal and the entry stays registered.
     */
    method Cleanup(c: Conn, wait: WaitOutcome)
      requires Valid()
      modifies this
      ensures Valid()
      ensures closed == old(closed) + {c.writer}
      ensures wait != WaitCancelled ==> clients == RemoveFirst(old(clients), c) && c !in clients
      ensures wait == WaitCancelled ==> clients == old(clients)
    {
      CloseWriter(c.writer);
      if wait != WaitCancelled {
        RemoveIfPresent(c);
      }
    }

    /**
     * The start of `handle_tcp`: register `(addr, writer)`, and only then write
     * the banner, if there is one. Returns the bytes written so far.
     */
    method Accept(c: Conn, banner: Bytes) returns (out: Bytes)
      requires Valid() && c !in clients
      modifies this`clients
      ensures Valid()
      ensures clients == old(clients) + [c]
      ensures out == banner
    {
      Register(c);
      out := [];
      if |banner| > 0 {
        out := out + banner;
      }
    }

    /**
     * `handle_tcp` for the connection `c`, whose reads return `trace` in order.
     * It registers `c`, writes the banner if there is one, echoes every chunk
     * until the first empty read, keyword or exception, and then closes and
     * unregisters, unless `wait` says the task was cancelled while awaiting
     * the closure. If the trace runs out first, the handler is still waiting
     * on its next read: `c` stays registered and open.
     */
    method HandleTcp(c: Conn, banner: Bytes, trace: seq<ReadOutcome>, wait: WaitOutcome)
      returns (out: Bytes, exit: Exit)
      requires Valid() && c !in clients
      modifies this
      ensures Valid()
      ensures out == Transcript(banner, trace)
      ensures exit == Outcome(trace)
      ensures exit == Suspended ==> clients == old(clients) + [c] && closed == old(closed)
      ensures exit != Suspended ==> closed == old(closed) + {c.writer}
      ensures exit != Suspended && wait != WaitCancelled ==> clients == old(clients) && c !in clients
      ensures exit != Suspended && wait == WaitCancelled ==> clients == old(clients) + [c]
    {
      out := Accept(c, banner);
      var echoed;
      echoed, exit := EchoLoop(trace);
      out := out + echoed;
      if exit == Suspended {
        // still awaiting `reader.read(1024)`: the finally block has not run
        return;
      }
      RemoveFirstAt(clients, c, |old(clients)|);
      assert clients[..|old(clients)|] == old(clients);
      Cleanup(c, wait);
    }

    /** The `finally` blocks of the handlers in `leaving`, one after another. */
    method RunCleanups(leaving: seq<Conn>)
      requires Valid()
      modifies this
      ensures Valid()
      ensures clients == RemoveAll(old(clients), leaving)
      ensures closed == old(closed) + Writers(leaving)
    {
      var j := 0;
      while j < |leaving|
        invariant 0 <= j <= |leaving|
        invariant Valid()
        invariant clients == RemoveAll(old(clients), leaving[..j])
        invariant closed == old(closed) + Writers(leaving[..j])
      {
        RemoveAllAppend(old(clients), leaving[..j], [leaving[j]]);
        assert leaving[..j] + [leaving[j]] == leaving[..j + 1];
        WritersAppend(leaving[..j], [leaving[j]]);
        Cleanup(leaving[j], WaitDone);
        j := j + 1;
      }
      assert leaving[..j] == leaving;
    }

    /**
     * One step of the shutdown sweep: `writer.close()` on `entry`, then
     * `await writer.wait_closed()`, during which the handlers in `leaving` run
     * their `finally` blocks.
     */
    method CloseAndAwait(entry: Conn, leaving: seq<Conn>)
      requires Valid()
      modifies this
      ensures Valid()
      ensures clients == RemoveAll(old(clients), leaving)
      ensures closed == old(closed) + {entry.writer} + Writers(leaving)
    {
      CloseWriter(entry.writer);
      RunCleanups(leaving);
    }

    /**
     * The shutdown sweep `for addr, writer in list(clients)`: close each writer
     * of the snapshot in order. While the sweep awaits the i-th closure, the
     * handlers listed in `departures[i]` run their own `finally` blocks and may
     * remove entries from `clients`; the sweep still visits exactly the snapshot.
     */
    method Sweep(departures: seq<seq<Conn>>) returns (visited: seq<Conn>)
      requires Valid()
      requires |departures| == |clients|
      modifies this
      ensures Valid()
      ensures visited == old(clients)
      ensures clients == RemoveAll(old(clients), Flatten(departures))
      ensures closed == old(closed) + Writers(old(clients)) + Writers(Flatten(departures))
    {
      var snapshot := clients;
      visited := [];
      var i := 0;
      while i < |snapshot|
        invariant 0 <= i <= |snapshot|
        invariant Valid()
        invariant visited == snapshot[..i]
        invariant clients == RemoveAll(snapshot, Flatten(departures[..i]))
        invariant closed == old(closed) + Writers(snapshot[..i]) + Writers(Flatten(departures[..i]))
      {
        var entry := snapshot[i];
        CloseAndAwait(entry, departures[i]);
        SweepStep(snapshot, departures, i, old(closed));
        TakeSnoc(snapshot, i);
        visited := visited + [entry];
        i := i + 1;
      }
      TakeAll(snapshot);
      TakeAll(departures);
    }
  }

  /**
   * A client connects to a service whose banner is "HELLO\r\n", sends "ping",
   * then "quit": it reads the banner, then "Echo: ping", and the connection
   * ends closed and unregistered.
   */
  method HelloPingQuit() returns (out: Bytes, exit: Exit, registered: seq<Conn>)
    ensures out == Hello + Echo(Ping)
    ensures exit == KeywordSent
    ensures registered == []
  {
    var server := new Server();
    var trace := [Read(Ping), Read(QuitWord), Read(Ping)];
    PingThenQuit();
    var c := Conn(Peer("127.0.0.1", 50000), 1);
    var banner: Bytes := Hello;
    out, exit := server.HandleTcp(c, banner, trace, WaitDone);
    assert out == banner + EchoOutput(trace);
    registered := server.clients;
  }

  /** "ping" is echoed, "quit" ends the loop, and the "ping" after it is never read. */
  lemma PingThenQuit()
    ensures var trace := [Read(Ping), Read(QuitWord), Read(Ping)];
            EchoOutput(trace) == Echo(Ping) && Outcome(trace) == KeywordSent
  {
    var ping: Bytes := Ping;
    var trace := [Read(ping), Read(QuitWord), Read(ping)];
    var rest := [Read(QuitWord)] + [Read(ping)];
    assert EchoOutput(rest) == [] && Outcome(rest) == KeywordSent by {
      PlainQuitEnds();
      KeywordEnds(QuitWord, [Read(ping)]);
    }
    assert EchoOutput(trace) == Echo(ping) + EchoOutput(rest) && Outcome(trace) == Outcome(rest) by {
      PingDoesNotEnd();
      ChunkEchoed(trace);
      assert trace[1..] == rest;
    }
  }

  /**
   * Shutdown with two connections open: the sweep closes both writers and,
   * as each handler leaves after its writer is closed, the registry ends empty.
   */
  method ShutdownWithTwoOpen() returns (visited: seq<Conn>, registered: seq<Conn>, closed: set<WriterId>)
    ensures visited == [Conn(Peer("127.0.0.1", 50001), 1), Conn(Peer("127.0.0.1", 50002), 2)]
    ensures registered == []
    ensures closed == {1, 2}
  {
    var server := new Server();
    var a := Conn(Peer("127.0.0.1", 50001), 1);
    var b := Conn(Peer("127.0.0.1", 50002), 2);
    var _, _ := server.HandleTcp(a, [], [], WaitDone);
    var _, _ := server.HandleTcp(b, [], [], WaitDone);
    assert server.clients == [a, b];
    DrainingSweepEmpties(server.clients);
    FlattenSingletons(server.clients);
    visited := server.Sweep(Singletons(server.clients));
    registered := server.clients;
    closed := server.closed;
  }

  /**
   * A peer that closes at once, with the handler cancelled while it awaits
   * `wait_closed()`: the writer is closed but the entry stays registered.
   */
  method CancelledWhileClosing() returns (exit: Exit, registered: seq<Conn>, closed: set<WriterId>)
    ensures exit == PeerClosed
    ensures registered == [Conn(Peer("127.0.0.1", 50003), 3)]
    ensures closed == {3}
  {
    var server := new Server();
    var c := Conn(Peer("127.0.0.1", 50003), 3);
    var out;
    out, exit := server.HandleTcp(c, Hello, [Read([])], WaitCancelled);
    registered := server.clients;
    closed := server.closed;
  }
}
