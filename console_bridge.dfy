/**
 * The serial-console bridge of the native module: the worker that waits for
 * the VM's serial socket, copies its path into a `sockaddr_un`, reads and
 * escapes console output and hands it to the host's data callback, and the
 * `send` entry point that writes host input to the same socket.
 *
 * The socket is a `Peer` object whose `Write` is an oracle: it accepts some
 * non-empty prefix of what it is given, or fails.
 */
module ConsoleBridge {
  import opened Base
  import opened ConsoleEscape

  /** `sizeof(((struct sockaddr_un *)0)->sun_path)` on the target (Linux/musl). */
  const SunPathSize := 108

  /** `sizeof(buffer) - 1`: the most one `read` of the worker asks for. */
  const ReadChunk := 1023

  /** Milliseconds the worker sleeps between two probes of the socket path. */
  const ProbeIntervalMs := 50

  // ---------------------------------------------------------------------
  // The connected socket, seen from the client side.

  class Peer {
    /** Every byte the VM has received through this connection, in order. */
    var received: seq<Byte>

    constructor ()
      ensures received == []
    {
      received := [];
    }

    /**
     * `write(fd, data, n)` on a blocking stream socket: either `-1`, or a
     * count between 1 and `n` of leading bytes the kernel took.
     */
    method Write(data: seq<Byte>) returns (size: int)
      requires data != []
      modifies this
      ensures size == -1 || 1 <= size <= |data|
      ensures received == old(received) + (if size > 0 then data[..size] else [])
    {
      if * {
        size := -1;
      } else {
        assert InRange(|data|, 1, |data|);
        size :| InRange(size, 1, |data|);
        assert InRange(size, 1, |data|);
      }
      assert size == -1 || 1 <= size <= |data|;
      if size > 0 {
        received := received + data[..size];
      }
    }
  }

  predicate InRange(x: int, lo: int, hi: int) {
    lo <= x <= hi
  }

  // ---------------------------------------------------------------------
  // Handing escaped output to the host.

  /**
   * What `call_data_callback(hex)` hands to the host: a copy of `hex` when it
   * is non-empty and a data callback is registered, and nothing otherwise.
   * Nothing is kept back for a later registration.
   */
  function Handover(hex: string, registered: bool): (d: seq<string>)
    ensures |d| <= 1
    ensures d != [] <==> hex != [] && registered
    ensures d != [] ==> d[0] == hex
  {
    if |hex| > 0 && registered then [hex] else []
  }

  /** The deliveries for a run of chunks that all arrive under the same registration state. */
  function Deliveries(chunks: seq<string>, registered: bool): seq<string> {
    if chunks == [] then []
    else Deliveries(chunks[..|chunks| - 1], registered) + Handover(chunks[|chunks| - 1], registered)
  }

  /** The non-empty chunks, in order. */
  function NonEmpty(chunks: seq<string>): seq<string> {
    if chunks == [] then []
    else NonEmpty(chunks[..|chunks| - 1]) + (if chunks[|chunks| - 1] != [] then [chunks[|chunks| - 1]] else [])
  }

  /**
   * There is no pre-registration buffer: output that arrives while no data
   * callback is registered is lost, and once one is registered exactly the
   * later non-empty chunks reach it, in order.
   */
  lemma {:induction false} NoPreRegistrationBuffer(early: seq<string>, late: seq<string>)
    ensures Deliveries(early, false) == []
    ensures Deliveries(late, true) == NonEmpty(late)
    decreases |early| + |late|
  {
    if early != [] {
      NoPreRegistrationBuffer(early[..|early| - 1], []);
    }
    if late != [] {
      NoPreRegistrationBuffer([], late[..|late| - 1]);
    }
  }

  // ---------------------------------------------------------------------
  // The path copy into `sockaddr_un`.

  /** Length of the C string held in `s`: the bytes before the first NUL. */
  function CLength(s: seq<Byte>): (n: nat)
    ensures n <= |s|
    ensures forall i :: 0 <= i < n ==> s[i] != 0
    ensures n < |s| ==> s[n] == 0
  {
    if s == [] || s[0] == 0 then 0 else 1 + CLength(s[1..])
  }

  /** The C string a NUL-terminated buffer holds. */
  function CString(s: seq<Byte>): seq<Byte> {
    s[..CLength(s)]
  }

  /** `sun_path` after `memset(…, 0, …)` and `strncpy(sun_path, path, sizeof(sun_path) - 1)`. */
  function SunPathBytes(path: seq<Byte>): seq<Byte> {
    seq(SunPathSize, i requires 0 <= i < SunPathSize =>
      if i < Min(CLength(path), SunPathSize - 1) then path[i] else 0)
  }

  /**
   * The path placed in `sun_path` is the socket path cut to at most
   * `sizeof(sun_path) - 1` bytes, and the field always ends in a NUL.
   */
  lemma SunPathReadsBack(path: seq<Byte>)
    ensures |SunPathBytes(path)| == SunPathSize
    ensures SunPathBytes(path)[SunPathSize - 1] == 0
    ensures CString(SunPathBytes(path)) == CString(path)[..Min(CLength(path), SunPathSize - 1)]
  {
    var s := SunPathBytes(path);
    var n := Min(CLength(path), SunPathSize - 1);
    assert s[n] == 0;
    assert forall i :: 0 <= i < n ==> s[i] == path[i] && s[i] != 0;
    assert CLength(s) == n by {
      CLengthIs(s, n);
    }
  }

  lemma {:induction false} CLengthIs(s: seq<Byte>, n: nat)
    requires n < |s| && s[n] == 0
    requires forall i :: 0 <= i < n ==> s[i] != 0
    ensures CLength(s) == n
  {
    if n > 0 {
      CLengthIs(s[1..], n - 1);
    }
  }

  /**
   * `memset(&server_addr, 0, …)` followed by `strncpy(server_addr.sun_path,
   * path, sizeof(sun_path) - 1)`, on the `sun_path` array.
   */
  method CopySunPath(sunPath: array<Byte>, path: seq<Byte>)
    requires sunPath.Length == SunPathSize
    modifies sunPath
    ensures sunPath[..] == SunPathBytes(path)
  {
    // memset
    var i := 0;
    while i < sunPath.Length
      invariant 0 <= i <= sunPath.Length
      invariant forall k :: 0 <= k < i ==> sunPath[k] == 0
    {
      sunPath[i] := 0;
      i := i + 1;
    }
    // strncpy: copy up to the source's NUL, then pad with NULs, n bytes in all
    var n := SunPathSize - 1;
    var ended := false;
    i := 0;
    while i < n
      invariant 0 <= i <= n
      invariant ended <==> CLength(path) < i
      invariant forall k :: 0 <= k < i ==> sunPath[k] == if k < CLength(path) then path[k] else 0
      invariant forall k :: i <= k < sunPath.Length ==> sunPath[k] == 0
    {
      if !ended && i < |path| && path[i] != 0 {
        sunPath[i] := path[i];
      } else {
        ended := true;
        sunPath[i] := 0;
      }
      i := i + 1;
    }
    forall k | 0 <= k < SunPathSize
      ensures sunPath[..][k] == SunPathBytes(path)[k]
    {
      var expected := if k < Min(CLength(path), n) then path[k] else 0;
      assert SunPathBytes(path)[k] == expected;
      if k < n {
        assert sunPath[k] == if k < CLength(path) then path[k] else 0;
      } else {
        assert sunPath[k] == 0;
      }
    }
  }

  // ---------------------------------------------------------------------
  // Waiting for the socket to appear.

  /** Index of the first successful probe, if any. */
  function FirstSuccess(probes: seq<bool>): (r: Option<nat>)
    ensures r.Some? ==> r.value < |probes| && probes[r.value]
    ensures r.Some? ==> forall j :: 0 <= j < r.value ==> !probes[j]
    ensures r.None? ==> forall j :: 0 <= j < |probes| ==> !probes[j]
  {
    if probes == [] then None
    else if probes[0] then Some(0)
    else match FirstSuccess(probes[1..])
      case None => None
      case Some(k) => Some(k + 1)
  }

  lemma {:induction false} FirstSuccessIs(probes: seq<bool>, k: nat)
    requires k < |probes| && probes[k]
    requires forall j :: 0 <= j < k ==> !probes[j]
    ensures FirstSuccess(probes) == Some(k)
  {
    if k > 0 {
      FirstSuccessIs(probes[1..], k - 1);
    }
  }

  /**
   * The wait loop of `terminal_worker` over the results of successive
   * `access(path, F_OK)` probes: it leaves at the first success, sleeping
   * 50 ms after each failure. While no probe has succeeded it is still
   * waiting; there is no bound and no time-out.
   */
  method WaitForSocket(probes: seq<bool>) returns (found: bool, attempts: nat, sleptMs: nat)
    ensures found == FirstSuccess(probes).Some?
    ensures found ==> attempts == FirstSuccess(probes).value + 1 && sleptMs == ProbeIntervalMs * (attempts - 1)
    ensures !found ==> attempts == |probes| && sleptMs == ProbeIntervalMs * attempts
  {
    found, attempts, sleptMs := false, 0, 0;
    while attempts < |probes|
      invariant 0 <= attempts <= |probes|
      invariant forall j :: 0 <= j < attempts ==> !probes[j]
      invariant sleptMs == ProbeIntervalMs * attempts
    {
      var acc := probes[attempts];
      attempts := attempts + 1;
      if acc {
        found := true;
        return;
      }
      sleptMs := sleptMs + ProbeIntervalMs;
    }
  }

  /** However long the socket takes to appear, the worker is still waiting for it, never failed. */
  lemma {:induction false} WaitHasNoBound(n: nat)
    ensures FirstSuccess(seq(n, _ => false)).None?
  {
    var probes := seq(n, _ => false);
    if n > 0 {
      WaitHasNoBound(n - 1);
      assert probes[1..] == seq(n - 1, _ => false);
    }
  }

  // ---------------------------------------------------------------------
  // One turn of the read loop.

  /** What one `read(fd, buffer, 1023)` returns. */
  datatype ReadResult = Data(bytes: seq<Byte>) | EndOfStream | ReadError

  /** What one `poll(fds, 1, 100)` returns: -1, 0, or 1 with the read that follows it. */
  datatype PollResult = PollFailed | PollTimeout | PollReady(read: ReadResult)

  /** A read result the kernel can give for the worker's buffer. */
  predicate ReadFits(p: PollResult) {
    p.PollReady? && p.read.Data? ==> 1 <= |p.read.bytes| <= ReadChunk
  }

  /**
   * One turn of the read loop as written: `broken` is declared without an
   * initialiser, so when no read fails its value is whatever the stack held
   * (`brokenInit`). The turn yields the escaped chunk (empty if none) and
   * whether the loop breaks.
   */
  function IterationAsWritten(p: PollResult, brokenInit: bool): (r: (string, bool))
    ensures r.1 <==> p == PollReady(ReadError) || brokenInit
    ensures p.PollReady? && p.read.Data? ==> r.0 == Escape(p.read.bytes)
    ensures !(p.PollReady? && p.read.Data?) ==> r.0 == []
  {
    match p
    case PollReady(Data(bs)) => (Escape(bs), brokenInit)
    case PollReady(ReadError) => ([], true)
    case _ => ([], brokenInit)
  }

  /** The turn with `broken` initialised to `false`, which the rest of the model uses. */
  function Iteration(p: PollResult): (r: (string, bool)) {
    IterationAsWritten(p, false)
  }

  /**
   * The loop stops exactly on a failed read. A closed connection (`read`
   * returning 0) does not stop it, and nor does a failed or timed-out poll.
   */
  lemma IterationStopsOnlyOnReadError(p: PollResult)
    ensures Iteration(p).1 <==> p == PollReady(ReadError)
    ensures ReadFits(p) && p.PollReady? && p.read.Data? ==> Iteration(p).0 != []
  {
    if p.PollReady? && p.read.Data? && ReadFits(p) {
      EscapeLength(p.read.bytes);
    }
  }

  /** The uninitialised `broken`: a quiet poll can end the worker although nothing failed. */
  lemma UninitialisedBrokenEndsQuietSession()
    ensures IterationAsWritten(PollTimeout, true).1
    ensures !Iteration(PollTimeout).1
  {
  }

  /** The escaped chunk of each turn. */
  function Chunks(polls: seq<PollResult>): (cs: seq<string>)
    ensures |cs| == |polls|
  {
    seq(|polls|, j requires 0 <= j < |polls| => Iteration(polls[j]).0)
  }

  /** Whether each turn breaks the loop. */
  function Breaks(polls: seq<PollResult>): (bs: seq<bool>)
    ensures |bs| == |polls|
  {
    seq(|polls|, j requires 0 <= j < |polls| => Iteration(polls[j]).1)
  }

  /**
   * What a run of the read loop over these turns hands to the host, and
   * whether it stopped: the turns up to and including the first breaking one.
   */
  function Session(polls: seq<PollResult>, registered: bool): (seq<string>, bool) {
    match FirstSuccess(Breaks(polls))
    case None => (Deliveries(Chunks(polls), registered), false)
    case Some(k) => (Deliveries(Chunks(polls[..k + 1]), registered), true)
  }

  /** No turn before the `n`-th read failed. */
  predicate NoReadErrorBefore(polls: seq<PollResult>, n: nat)
    requires n <= |polls|
  {
    forall j :: 0 <= j < n ==> polls[j] != PollReady(ReadError)
  }

  lemma DeliveriesSnoc(chunks: seq<string>, c: string, registered: bool)
    ensures Deliveries(chunks + [c], registered) == Deliveries(chunks, registered) + Handover(c, registered)
  {
    assert (chunks + [c])[..|chunks|] == chunks;
  }

  /**
   * The read loop ends exactly at the first failed read; output of the
   * turns before it is delivered, and nothing after it ever is.
   */
  lemma SessionStopsAtFirstReadError(polls: seq<PollResult>, registered: bool, k: nat)
    requires k < |polls| && polls[k] == PollReady(ReadError)
    requires forall j :: 0 <= j < k ==> polls[j] != PollReady(ReadError)
    ensures Session(polls, registered) == (Deliveries(Chunks(polls[..k]), registered), true)
  {
    var b := Breaks(polls);
    forall j | 0 <= j < k ensures !b[j] {
      IterationStopsOnlyOnReadError(polls[j]);
    }
    IterationStopsOnlyOnReadError(polls[k]);
    FirstSuccessIs(b, k);
    assert Chunks(polls[..k + 1]) == Chunks(polls[..k]) + [""];
    DeliveriesSnoc(Chunks(polls[..k]), "", registered);
    assert Deliveries(Chunks(polls[..k]), registered) + [] == Deliveries(Chunks(polls[..k]), registered);
  }

  lemma DeliveriesStep(polls: seq<PollResult>, registered: bool, i: nat)
    requires i < |polls|
    ensures Deliveries(Chunks(polls)[..i + 1], registered)
      == Deliveries(Chunks(polls)[..i], registered) + Handover(Iteration(polls[i]).0, registered)
  {
    var cs := Chunks(polls);
    assert cs[..i + 1] == cs[..i] + [cs[i]];
    DeliveriesSnoc(cs[..i], cs[i], registered);
  }

  /** What the first `n` turns hand over, turn by turn. */
  function Delivered(polls: seq<PollResult>, n: nat, registered: bool): seq<string>
    requires n <= |polls|
  {
    if n == 0 then [] else Delivered(polls, n - 1, registered) + Handover(Iteration(polls[n - 1]).0, registered)
  }

  lemma {:induction false} DeliveredIs(polls: seq<PollResult>, n: nat, registered: bool)
    requires n <= |polls|
    ensures Delivered(polls, n, registered) == Deliveries(Chunks(polls)[..n], registered)
  {
    if n > 0 {
      DeliveredIs(polls, n - 1, registered);
      DeliveriesStep(polls, registered, n - 1);
    }
  }

  /**
   * Where the read loop leaves off determines the session: the `clean`
   * turns before it are delivered, and it stopped exactly when a failed
   * read follows them.
   */
  lemma SessionAfterLoop(polls: seq<PollResult>, registered: bool, clean: nat, stopped: bool)
    requires clean <= |polls| && NoReadErrorBefore(polls, clean)
    requires stopped ==> clean < |polls| && polls[clean] == PollReady(ReadError)
    requires !stopped ==> clean == |polls|
    ensures Session(polls, registered).0 == Delivered(polls, clean, registered)
    ensures Session(polls, registered).1 == stopped
  {
    DeliveredIs(polls, clean, registered);
    if stopped {
      SessionStopsAtFirstReadError(polls, registered, clean);
      assert Chunks(polls[..clean]) == Chunks(polls)[..clean];
    } else {
      SessionWithoutReadErrorContinues(polls, registered);
      assert Chunks(polls)[..clean] == Chunks(polls);
    }
  }

  /** Without a failed read the loop never stops, even when the connection is closed. */
  lemma SessionWithoutReadErrorContinues(polls: seq<PollResult>, registered: bool)
    requires forall j :: 0 <= j < |polls| ==> polls[j] != PollReady(ReadError)
    ensures !Session(polls, registered).1
  {
    var b := Breaks(polls);
    forall j | 0 <= j < |polls| ensures !b[j] {
      IterationStopsOnlyOnReadError(polls[j]);
    }
  }

  // ---------------------------------------------------------------------
  // The module-level state of the bridge and its entry points.

  datatype SendOutcome = NotConnected | Sent | WriteAborted(written: nat)

  /** How a run of `terminal_worker` ends (so far, for `StillWaiting`). */
  datatype WorkerOutcome = StillWaiting | SocketFailed | ConnectFailed | LoopEnded(stopped: bool)

  class Bridge {
    /** `stdin_pipe_fd`: the connected socket, or -1 before the worker connects. */
    var stdinPipeFd: int
    /** `on_data_callback != nullptr` */
    var dataCallback: bool
    /** `on_exit_callback != nullptr` */
    var exitCallback: bool
    /** Every buffer handed to the data callback, in order. */
    var delivered: seq<string>
    /** How many times the exit callback was invoked. */
    var exitNotifications: nat
    /** The other end of the serial socket. */
    var peer: Peer

    constructor (peer: Peer, dataCallback: bool, exitCallback: bool)
      ensures stdinPipeFd == -1 && this.peer == peer
      ensures this.dataCallback == dataCallback && this.exitCallback == exitCallback
      ensures delivered == [] && exitNotifications == 0
    {
      stdinPipeFd := -1;
      this.dataCallback := dataCallback;
      this.exitCallback := exitCallback;
      delivered := [];
      exitNotifications := 0;
      this.peer := peer;
    }

    /** `call_data_callback(hex)` */
    method CallDataCallback(hex: string)
      modifies this`delivered
      ensures delivered == old(delivered) + Handover(hex, dataCallback)
    {
      if |hex| > 0 && dataCallback {
        delivered := delivered + [hex];
      }
    }

    /**
     * `send(data)`: nothing when no socket is connected; otherwise writes
     * the buffer in order, each write resuming where the last stopped,
     * until all of it is written. A failing write trips
     * `assert(size >= 0)`, which aborts the process; here it ends the call
     * with the bytes written so far.
     */
    method Send(data: seq<Byte>) returns (outcome: SendOutcome)
      modifies peer
      ensures outcome.NotConnected? <==> old(stdinPipeFd) < 0
      ensures old(stdinPipeFd) < 0 ==> outcome == NotConnected && peer.received == old(peer.received)
      ensures outcome == Sent <==> old(stdinPipeFd) >= 0 && peer.received == old(peer.received) + data
      ensures outcome.WriteAborted? ==>
        outcome.written < |data| && peer.received == old(peer.received) + data[..outcome.written]
    {
      if stdinPipeFd < 0 {
        return NotConnected;
      }
      var written := 0;
      while written < |data|
        invariant 0 <= written <= |data|
        invariant peer.received == old(peer.received) + data[..written]
        decreases |data| - written
      {
        var size := peer.Write(data[written..]);
        if size < 0 {
          return WriteAborted(written);
        }
        assert data[..written] + data[written..][..size] == data[..written + size];
        written := written + size;
      }
      assert data[..written] == data;
      return Sent;
    }

    /**
     * One turn of the read loop: after a poll reports data, escape the
     * bytes read and hand them over; a failed read marks the loop broken.
     */
    method Turn(p: PollResult) returns (hex: string, broken: bool)
      requires ReadFits(p)
      modifies this`delivered
      ensures (hex, broken) == Iteration(p)
      ensures broken <==> p == PollReady(ReadError)
      ensures delivered == old(delivered) + Handover(hex, dataCallback)
    {
      hex, broken := "", false;
      match p {
        case PollReady(Data(bs)) =>
          var buffer := new Byte[ReadChunk + 1](k => if 0 <= k < |bs| then bs[k] else 0);
          assert buffer[..|bs|] == bs;
          hex := ConvertToHex(buffer, |bs|);
          CallDataCallback(hex);
        case PollReady(ReadError) =>
          broken := true;
        case _ =>
      }
    }

    /**
     * The read loop of `terminal_worker` over the poll/read results the
     * connection produces: each chunk read is escaped and handed over, and
     * the loop ends on a failed read, after which the exit callback runs.
     */
    method ReadLoop(polls: seq<PollResult>) returns (stopped: bool)
      requires forall j :: 0 <= j < |polls| ==> ReadFits(polls[j])
      modifies this`delivered, this`exitNotifications
      ensures delivered == old(delivered) + Session(polls, dataCallback).0
      ensures stopped == Session(polls, dataCallback).1
      ensures exitNotifications == old(exitNotifications) + (if stopped && exitCallback then 1 else 0)
    {
      var clean;
      clean, stopped := Turns(polls);
      SessionAfterLoop(polls, dataCallback, clean, stopped);
      if stopped && exitCallback {
        exitNotifications := exitNotifications + 1;
      }
    }

    /**
     * The `while (true)` loop itself: turns run until one breaks or the
     * results run out. `clean` counts the turns that did not break.
     */
    method Turns(polls: seq<PollResult>) returns (clean: nat, stopped: bool)
      requires forall j :: 0 <= j < |polls| ==> ReadFits(polls[j])
      modifies this`delivered
      ensures clean <= |polls| && NoReadErrorBefore(polls, clean)
      ensures stopped ==> clean < |polls| && polls[clean] == PollReady(ReadError)
      ensures !stopped ==> clean == |polls|
      ensures delivered == old(delivered) + Delivered(polls, clean, dataCallback)
    {
      clean := 0;
      stopped := false;
      while clean < |polls|
        invariant clean <= |polls| && !stopped
        invariant delivered == old(delivered) + Delivered(polls, clean, dataCallback)
        invariant NoReadErrorBefore(polls, clean)
      {
        var hex, broken := Turn(polls[clean]);
        if broken {
          stopped := true;
          break;
        }
        clean := clean + 1;
      }
    }

    /**
     * `terminal_worker(path)`: wait for the socket path to appear, create a
     * socket (`socketFd`, -1 on failure), fill `sun_path`, connect
     * (`connects`), publish the descriptor in `stdin_pipe_fd`, then run the
     * read loop. The setup failures return quietly, without the exit
     * callback; a finished loop leaves `stdin_pipe_fd` as it was.
     */
    method TerminalWorker(path: seq<Byte>, probes: seq<bool>, socketFd: int, connects: bool,
                          polls: seq<PollResult>) returns (outcome: WorkerOutcome, addr: array<Byte>)
      requires socketFd >= -1
      requires forall j :: 0 <= j < |polls| ==> ReadFits(polls[j])
      modifies this`stdinPipeFd, this`delivered, this`exitNotifications
      ensures fresh(addr) && addr.Length == SunPathSize
      ensures FirstSuccess(probes).None? ==> outcome == StillWaiting
      ensures FirstSuccess(probes).Some? && socketFd == -1 ==> outcome == SocketFailed
      ensures FirstSuccess(probes).Some? && socketFd >= 0 ==> addr[..] == SunPathBytes(path)
      ensures FirstSuccess(probes).Some? && socketFd >= 0 && !connects ==> outcome == ConnectFailed
      ensures outcome.LoopEnded? <==> FirstSuccess(probes).Some? && socketFd >= 0 && connects
      ensures outcome.LoopEnded? ==>
        stdinPipeFd == socketFd
        && delivered == old(delivered) + Session(polls, dataCallback).0
        && outcome.stopped == Session(polls, dataCallback).1
        && exitNotifications == old(exitNotifications) + (if outcome.stopped && exitCallback then 1 else 0)
      ensures !outcome.LoopEnded? ==>
        stdinPipeFd == old(stdinPipeFd) && delivered == old(delivered) && exitNotifications == old(exitNotifications)
    {
      addr := new Byte[SunPathSize];
      var found, attempts, sleptMs := WaitForSocket(probes);
      if !found {
        return StillWaiting, addr;
      }
      if socketFd == -1 {
        return SocketFailed, addr;
      }
      CopySunPath(addr, path);
      if !connects {
        return ConnectFailed, addr;
      }
      stdinPipeFd := socketFd;
      var stopped := ReadLoop(polls);
      outcome := LoopEnded(stopped);
    }
  }
}
