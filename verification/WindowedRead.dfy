/** The windowed SFTP reader as a state machine over values.

Each callback of the reader is a step: the answer to `open`, the answer to one chunk read, and the
`drain`, `close` and `error` events of the destination.  A run is any sequence of steps the
environment may deliver; nothing is assumed about their order.  The invariants kept by every step are
in WindowedReadInvariant, the properties of whole runs in WindowedReadRuns, and the class that updates
these fields in place in WindowedReader. */
module WindowedRead {
  type Byte = bv8

  /** What is fixed for one run.  `full` holds the chunk offsets whose `write` the destination answers
  with false; every chunk is written at most once, so any behaviour of the destination is some set. */
  datatype Config = Config(file: seq<Byte>, start: nat, end: int, chunkSize: nat, window: nat, full: set<int>)
  {
    predicate Valid() {
      chunkSize >= 1 && window >= 1
    }

    // The chunk that starts at o ends just before Next(o).
    function Next(o: int): int {
      if end + 1 - o < chunkSize then end + 1 else o + chunkSize
    }
  }

  datatype Failure = SftpError(message: string) | UnexpectedEof(at: int) | DstError(message: string)
  datatype Outcome = Resolved | Rejected(failure: Failure)

  // A read in flight: the length of its buffer and the bytes received so far.
  datatype Chunk = Chunk(len: int, got: seq<Byte>)

  /** The closure variables of the reader, followed by what its surroundings have seen of it:
  the reads in flight, the bytes written to the destination, the calls to `end`, `open`, `close` and
  `read`, the listeners on the destination, and every call of resolve or reject. */
  datatype State = State(
    handle: bool, next: int, emit: int, inflight: int, settled: bool, awaitingDrain: bool,
    completed: map<int, seq<Byte>>,
    requests: map<int, Chunk>, written: seq<Byte>, ends: nat,
    openPending: bool, opens: nat, closes: nat, issued: nat,
    listening: bool, draining: bool, settlements: seq<Outcome>)

  datatype Event =
    | OpenFailed(message: string)
    | Opened
    | ReadFailed(offset: int, message: string)
    | ReadDone(offset: int, bytesRead: int)
    | Drain
    | DstClose
    | DstFailed(message: string)

  function Init(c: Config): State {
    var s := State(false, c.start, c.start, 0, false, false, map[],
                   map[], [], 0, false, 0, 0, 0, true, false, []);
    if c.start > c.end then s.(ends := 1) else s.(openPending := true)
  }

  function Finish(s: State, outcome: Outcome): State {
    if s.settled then s else
      s.(settled := true, completed := map[], listening := false, draining := false,
         closes := if s.handle then s.closes + 1 else s.closes,
         settlements := s.settlements + [outcome])
  }

  // One turn of the loop of pump: the next chunk is requested.
  function PumpOne(c: Config, s: State): State {
    s.(inflight := s.inflight + 1, issued := s.issued + 1, next := c.Next(s.next),
       requests := s.requests[s.next := Chunk(c.Next(s.next) - s.next, [])])
  }

  function Pump(c: Config, s: State): State
    requires c.Valid()
    decreases c.end - s.next
  {
    if !s.settled && !s.awaitingDrain && s.inflight < c.window && s.next <= c.end then Pump(c, PumpOne(c, s))
    else s
  }

  // One turn of the loop of emitReady: the chunk at the emit offset goes to the destination.
  function WriteHead(s: State): State
    requires s.emit in s.completed
  {
    var buf := s.completed[s.emit];
    s.(completed := s.completed - {s.emit}, emit := s.emit + |buf|, written := s.written + buf)
  }

  function EmitLoop(c: Config, s: State): State
    requires c.Valid()
    decreases |s.completed|
  {
    if s.emit !in s.completed then Pump(c, s) else
      var t := WriteHead(s);
      if t.emit > c.end then t.(ends := t.ends + 1)
      else if s.emit in c.full then t.(awaitingDrain := true, draining := true)
      else EmitLoop(c, t)
  }

  function EmitReady(c: Config, s: State): State
    requires c.Valid()
  {
    if s.settled || s.awaitingDrain then s else EmitLoop(c, s)
  }

  /** What the environment may deliver.  A reply answers a request that is still open and carries an
  error or at most the bytes asked for, taken from the file at the position asked for. */
  predicate Enabled(c: Config, s: State, e: Event) {
    match e
    case OpenFailed(_) => s.openPending
    case Opened => s.openPending
    case ReadFailed(o, _) => o in s.requests
    case ReadDone(o, n) =>
      && o in s.requests
      && var k := s.requests[o];
      && n <= k.len - |k.got|
      && (n > 0 ==> 0 <= o && o + |k.got| + n <= |c.file|)
    case _ => true
  }

  // The bytes that a positive answer brings.
  function Bytes(c: Config, s: State, o: int, n: int): seq<Byte>
    requires Enabled(c, s, ReadDone(o, n)) && n > 0
  {
    c.file[o + |s.requests[o].got|..o + |s.requests[o].got| + n]
  }

  // A short read: the rest of the chunk is asked for.
  function Continued(s: State, o: int, got: seq<Byte>): State
    requires o in s.requests
  {
    s.(requests := s.requests[o := Chunk(s.requests[o].len, got)], issued := s.issued + 1)
  }

  function Finished(s: State, o: int, got: seq<Byte>): State {
    s.(requests := s.requests - {o}, inflight := s.inflight - 1, completed := s.completed[o := got])
  }

  function OnRead(c: Config, s: State, o: int, n: int): State
    requires c.Valid() && Enabled(c, s, ReadDone(o, n))
  {
    var k := s.requests[o];
    if s.settled then s.(requests := s.requests - {o})
    else if n <= 0 then Finish(s.(requests := s.requests - {o}), Rejected(UnexpectedEof(o + |k.got|)))
    else
      var got := k.got + Bytes(c, s, o, n);
      if |got| < k.len then Continued(s, o, got) else EmitReady(c, Finished(s, o, got))
  }

  function Step(c: Config, s: State, e: Event): State
    requires c.Valid() && Enabled(c, s, e)
  {
    match e
    case OpenFailed(m) => Finish(s.(openPending := false), Rejected(SftpError(m)))
    case Opened =>
      var t := s.(openPending := false, opens := s.opens + 1);
      if s.settled then t.(closes := t.closes + 1) else Pump(c, t.(handle := true))
    case ReadFailed(o, m) =>
      var t := s.(requests := s.requests - {o});
      if s.settled then t else Finish(t, Rejected(SftpError(m)))
    case ReadDone(o, n) => OnRead(c, s, o, n)
    case Drain => if s.draining then EmitReady(c, s.(draining := false, awaitingDrain := false)) else s
    case DstClose => if s.listening then Finish(s, Resolved) else s
    case DstFailed(m) => if s.listening then Finish(s, Rejected(DstError(m))) else s
  }

  /** A run that the environment may deliver, and the state it ends in. */
  ghost predicate Feasible(c: Config, es: seq<Event>)
    requires c.Valid()
    decreases |es|, 0
  {
    es == [] || (Feasible(c, es[..|es| - 1]) && Enabled(c, Run(c, es[..|es| - 1]), es[|es| - 1]))
  }

  ghost function Run(c: Config, es: seq<Event>): State
    requires c.Valid() && Feasible(c, es)
    decreases |es|, 1
  {
    if es == [] then Init(c) else Step(c, Run(c, es[..|es| - 1]), es[|es| - 1])
  }
}
