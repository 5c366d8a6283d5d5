# Fake service responder: connection lifecycle model

The responder in `nmap/nmap_local_python.py` opens TCP listeners that send a
canned banner and then echo what the peer sends, and UDP responders that
answer every datagram with a fixed reply. This project models its
sequential core in Dafny and proves what that core promises:

- the termination test of the echo loop, `data.strip().lower() in (b"quit", b"exit")`,
  as exact byte-string functions (`Keyword`): `strip()` trims the six ASCII
  whitespace bytes, `lower()` folds only `A`..`Z`;
- the echo loop of `handle_tcp` over an abstract trace of read outcomes
  (`Session` for the specification, `Lifecycle.EchoLoop` for the loop): a
  chunk of at most 1024 bytes, an empty read, or an exception;
- the `clients` registry (`Registry` for the list operations,
  `Lifecycle.Server` for the shared state): append on accept, membership-guarded
  `list.remove` in the handler's `finally` block, and the shutdown sweep over
  a snapshot `list(clients)`;
- the UDP reply rule of `UDPProtocol.datagram_received` (`Udp`).

Bytes are integers in `0..255`; writes to the peer are an output byte
sequence the handler returns; `writer.close()` is recorded as the set of
closed writers. The interleaving between tasks is represented only where it
matters to the registry: the sweep takes a schedule saying which handlers run
their own `finally` block while it awaits each `wait_closed()`.

The shutdown sweep (`nmap/nmap_local_python.py:134-140`) only closes writers and
never removes registry entries; entries leave the registry only through each
handler's own guarded removal (`:60-61`), which the sweep's closures trigger.
That removal is skipped when the handler is cancelled while it awaits
`wait_closed()` (`:57`): `asyncio.CancelledError` is not an `Exception`, so
the `except` at `:58` does not catch it, and the entry stays in `clients`.

## Model

| member | source | states |
|---|---|---|
| Keyword.IsSpace | nmap/nmap_local_python.py:47 | the bytes `strip()` removes are exactly `\t`, `\n`, `\x0b`, `\x0c`, `\r` (the range 9..13) and the space |
| Keyword.TrimLeft | nmap/nmap_local_python.py:47 | `lstrip` never lengthens its input and what it keeps does not start with whitespace (what it dropped: `TrimLeftSpec`) |
| Keyword.TrimRight | nmap/nmap_local_python.py:47 | `rstrip` never lengthens its input and what it keeps does not end with whitespace (what it dropped: `TrimRightSpec`) |
| Keyword.Strip | nmap/nmap_local_python.py:47 | `strip()` never lengthens its input and what it keeps does not end with whitespace (its full characterisation: `StripUnique`) |
| Keyword.LowerByte | nmap/nmap_local_python.py:47 | `lower()` on one byte never yields an upper-case letter, leaves every byte outside `A`..`Z` alone, and yields a lower-case letter exactly for letters |
| Keyword.Lower | nmap/nmap_local_python.py:47 | `lower()` keeps the length of the chunk |
| Keyword.TrimLeftSpec | nmap/nmap_local_python.py:47 | `lstrip` keeps a suffix that is empty or starts with a non-whitespace byte, and everything it dropped is ASCII whitespace |
| Keyword.TrimRightSpec | nmap/nmap_local_python.py:47 | `rstrip` keeps a prefix that is empty or ends with a non-whitespace byte, and everything it dropped is ASCII whitespace |
| Keyword.TrimLeftStops | nmap/nmap_local_python.py:47 | left trimming stops exactly at the first non-whitespace byte |
| Keyword.TrimRightStops | nmap/nmap_local_python.py:47 | right trimming stops exactly after the last non-whitespace byte |
| Keyword.StripUnique | nmap/nmap_local_python.py:47 | `strip()` returns the unique core between whitespace padding whose first and last bytes are not whitespace (empty when the chunk is all whitespace) |
| Keyword.TerminatorIsPadded | nmap/nmap_local_python.py:47 | a chunk that passes the keyword test is whitespace, a word that lowers to `quit` or `exit`, whitespace |
| Keyword.PaddedIsTerminator | nmap/nmap_local_python.py:47 | any whitespace-padded word that lowers to `quit` or `exit` passes the keyword test |
| Keyword.TerminatorMeansPaddedKeyword | nmap/nmap_local_python.py:47 | the keyword test holds if and only if the chunk is a whitespace-padded, case-insensitive `quit` or `exit` |
| Keyword.ShoutedQuitEnds | nmap/nmap_local_python.py:47-48 | `"  QUIT\r\n"` passes the keyword test |
| Keyword.CapitalExitEnds | nmap/nmap_local_python.py:47-48 | `"Exit"` passes the keyword test |
| Keyword.PlainQuitEnds | nmap/nmap_local_python.py:47-48 | `"quit"` passes the keyword test |
| Keyword.PingDoesNotEnd | nmap/nmap_local_python.py:47-51 | `"ping"` does not pass the keyword test |
| Session.StopIndex | nmap/nmap_local_python.py:42-53 | the index of the first outcome that leaves the loop (empty read, keyword or exception), or the trace length when there is none: no earlier outcome stops, and the one at the index does |
| Session.Echo | nmap/nmap_local_python.py:50 | the reply to a chunk is six bytes (`"Echo: "`) longer than it and ends with the chunk itself |
| Session.EchoOutput | nmap/nmap_local_python.py:42-51 | every chunk echoed before the first stop adds at least the six-byte prefix to the output (its exact content: `EchoOutputIsEchoesBeforeStop`) |
| Session.Outcome | nmap/nmap_local_python.py:42-53 | the loop is still waiting exactly when no outcome stops it, ends as a peer close exactly when the first stop is an empty read, and ends on an exception exactly when the first stop is one |
| Session.Transcript | nmap/nmap_local_python.py:37-51 | the peer's bytes start with the banner, and are the banner alone when the first outcome stops the loop |
| Session.StopsIffSomeStop | nmap/nmap_local_python.py:42-53 | the loop ends on a trace if and only if some outcome in it is an empty read, a keyword or an exception |
| Session.EchoOutputIsEchoesBeforeStop | nmap/nmap_local_python.py:42-51 | the bytes written after the banner are exactly `"Echo: " + chunk` for each chunk before the first stop, concatenated in input order |
| Session.NothingAfterStop | nmap/nmap_local_python.py:42-53 | once an empty read, keyword or exception has occurred, nothing that follows is echoed and the way the loop ends does not change |
| Session.EchoBound | nmap/nmap_local_python.py:43-50 | a reply is `"Echo: "` followed by the chunk, so a chunk of at most 1024 bytes gives a reply of at most 1030 bytes |
| Session.EchoOutputBound | nmap/nmap_local_python.py:43-51 | with reads of at most 1024 bytes the echo output is at most 1030 bytes per chunk echoed |
| Session.FirstWrites | nmap/nmap_local_python.py:37-51 | the first bytes written are the banner; with an immediate stop nothing else is written; otherwise the next bytes are the echo of the first chunk (so an empty banner writes nothing before the first echo) |
| Session.EmptyReadEnds | nmap/nmap_local_python.py:43-45 | an empty read ends the loop as a peer close with no further output |
| Session.KeywordEnds | nmap/nmap_local_python.py:47-48 | a keyword chunk ends the loop and is not echoed |
| Session.ChunkEchoed | nmap/nmap_local_python.py:49-51 | any other chunk is echoed as `"Echo: " + chunk` and the loop continues with the next read |
| Lifecycle.EchoLoop | nmap/nmap_local_python.py:42-53 | the `while True` loop writes exactly the echo output of the trace and ends the way the trace says; it is still waiting exactly when no outcome stops it |
| Lifecycle.Server.constructor | nmap/nmap_local_python.py:25-27 | the registry starts empty and no writer is closed |
| Lifecycle.Server.Register | nmap/nmap_local_python.py:34 | accept appends the entry at the end of the registry and changes nothing else |
| Lifecycle.Server.RemoveIfPresent | nmap/nmap_local_python.py:60-61 | the guarded removal drops the first equal entry if any, leaves the entry absent, and keeps the registry free of duplicates |
| Lifecycle.Server.CloseWriter | nmap/nmap_local_python.py:56-59 | `writer.close()` marks that writer closed and changes nothing else |
| Lifecycle.Server.Cleanup | nmap/nmap_local_python.py:54-61 | the `finally` block closes the writer, then removes the entry if present; when the task is cancelled during `wait_closed()` the removal does not run and the registry is unchanged |
| Lifecycle.Server.Accept | nmap/nmap_local_python.py:33-39 | the connection is appended to the registry before anything is written, and then the banner, if non-empty, is all that is written |
| Lifecycle.Server.HandleTcp | nmap/nmap_local_python.py:30-61 | registration comes first (through `Accept`); the peer receives the banner then the echoes before the first stop; on every exit path (empty read, keyword, reset, cancellation, other exception) the writer ends closed, and the entry is gone with the rest of the registry as before unless the task was cancelled during `wait_closed()`, which leaves it registered; a handler still waiting on a read stays registered and open |
| Lifecycle.Server.RunCleanups | nmap/nmap_local_python.py:54-61 | the `finally` blocks of several handlers, in order, remove their entries and close their writers |
| Lifecycle.Server.CloseAndAwait | nmap/nmap_local_python.py:135-140 | one sweep step closes the snapshot entry's writer while the handlers scheduled to leave run their cleanup |
| Lifecycle.Server.Sweep | nmap/nmap_local_python.py:134-140 | the sweep visits exactly the snapshot taken before it starts, in order, closes every writer in it, and the registry afterwards is the snapshot minus the removals handlers made meanwhile |
| Lifecycle.SweepStep | nmap/nmap_local_python.py:134-140 | the registry and the closed writers after one more sweep step are those after the previous step plus that step's closure and removals |
| Lifecycle.HelloPingQuit | nmap/nmap_local_python.py:30-61 | banner `"HELLO\r\n"`, then `"ping"`, `"quit"`, `"ping"`: the peer receives the banner and `"Echo: ping"` only, the loop ends on the keyword and the registry is empty again |
| Lifecycle.PingThenQuit | nmap/nmap_local_python.py:42-51 | in the trace `"ping"`, `"quit"`, `"ping"` only the first chunk is echoed and the loop ends on the keyword |
| Lifecycle.CancelledWhileClosing | nmap/nmap_local_python.py:54-61 | a handler whose peer closes at once and that is cancelled during `wait_closed()` leaves its writer closed and its entry still in the registry |
| Lifecycle.ShutdownWithTwoOpen | nmap/nmap_local_python.py:134-140 | with two waiting connections, the sweep visits both, closes both writers, and the registry ends empty when each handler leaves after its close |
| Registry.RemoveFirst | nmap/nmap_local_python.py:60-61 | removing an absent entry changes nothing; removing a present one shortens the registry by one |
| Registry.RemoveFirstAt | nmap/nmap_local_python.py:60-61 | `list.remove` splices out the first occurrence; every other entry stays, in order |
| Registry.RemoveFirstMultiset | nmap/nmap_local_python.py:60-61 | exactly one copy of the entry goes if present; the counts of all other entries are untouched |
| Registry.RemoveFirstNoDup | nmap/nmap_local_python.py:60-61 | removal keeps a duplicate-free registry duplicate-free and leaves the entry absent |
| Registry.RemoveFirstIdempotent | nmap/nmap_local_python.py:60-61 | removing an entry twice has the same effect as removing it once |
| Registry.RemoveFirstCommutes | nmap/nmap_local_python.py:60-61 | two guarded removals give the same registry in either order |
| Registry.RemoveAll | nmap/nmap_local_python.py:60-61 | a series of guarded removals shortens the registry by at most one entry per removal and never lengthens it |
| Registry.RemoveAllMultiset | nmap/nmap_local_python.py:60-61 | after a series of guarded removals the registry holds its old entries minus one copy per removal |
| Registry.RemoveAllAppend | nmap/nmap_local_python.py:60-61 | removals in two batches equal the removals done one after another |
| Registry.RemoveAllSelf | nmap/nmap_local_python.py:60-61 | removing every entry of the registry, in its own order, empties it |
| Registry.DrainingSweepEmpties | nmap/nmap_local_python.py:134-140 | when each swept connection's handler leaves after its writer is closed, the registry is empty at the end of the sweep |
| Udp.DatagramReply | nmap/nmap_local_python.py:92-95 | the reply to one datagram carries the configured reply and goes back to the sender |
| Udp.Replies | nmap/nmap_local_python.py:92-95 | one reply is sent per datagram received |
| Udp.RepliesOnePerDatagram | nmap/nmap_local_python.py:92-95 | one reply per datagram received, in order, carrying exactly the configured reply and addressed to that datagram's sender |
| Udp.ReplyIgnoresContent | nmap/nmap_local_python.py:92-95 | the reply does not depend on the content of the datagram |

## Left out

- Server and endpoint creation, socket binding and the listener loop of `start_tcp_servers` and `start_udp_servers` (`:64-78`, `:98-105`): library I/O.
- Closing the TCP servers and UDP transports in `main` (`:126-132`): library calls with no state of the core.
- Signal handlers, the `asyncio.Event` stop flag and the `KeyboardInterrupt` exit (`:115-124`, `:143-148`): process control.
- Every `print` status line, including the banner's first line (`:75-77`, `:88-90`, `:93`, `:118`, `:147`): logging only.
- The static `TCP_SERVICES` and `UDP_SERVICES` tables and the `str.encode()` of banners (`:8-23`, `:67`): input data; banners are taken as byte sequences.
- `drain()` and `wait_closed()` suspension: writes are appended to the output at once. An exception raised during `drain()` has the same effect on the output and the registry as the same exception at the following read, so the trace records it there.
- Interleaving between tasks: each method gives the sequential effect of one task; the only concurrency represented is the sweep's schedule of handlers leaving during its awaits.
- TCP segmentation: the keyword test applies to whatever chunk one `read(1024)` returns, so chunks are taken as given.
- Lifecycle.Server.HandleTcp: requires the new entry to be absent from the registry, because each accepted socket comes with its own `StreamWriter`; the same holds for `Register` and `Accept`. The order of writes relative to registration is stated through `Accept`, which runs first; `drain()` is not modelled (see above).
- Lifecycle.Server.Sweep: requires one schedule entry per snapshot entry (one list of leaving handlers per await); the schedule is an input of the model, not of the source.
- The transport state behind `writer.close()` (buffered data, close errors) is reduced to the set of closed writers. How `wait_closed()` ends is an input of `Cleanup` and `HandleTcp`: an `Exception` it raises is swallowed at `:58-59`, while a cancellation escapes before the guarded removal.
- Lifecycle.Server.RunCleanups: every cleanup it runs is given a `wait_closed()` that completes; a cleanup cancelled there is covered by `Cleanup` alone.
