/** What every step of the windowed reader keeps. */
module WindowedReadInvariant {
  import opened WindowedRead

  // b is the part of the file that begins at offset off.
  predicate IsSlice(file: seq<Byte>, off: int, b: seq<Byte>) {
    |b| > 0 ==> 0 <= off && off + |b| <= |file| && b == file[off..off + |b|]
  }

  lemma SliceAppend(file: seq<Byte>, off: int, a: seq<Byte>, b: seq<Byte>)
    requires IsSlice(file, off, a) && IsSlice(file, off + |a|, b)
    ensures IsSlice(file, off, a + b)
  {
    if a == [] {
      assert a + b == b;
    } else if b == [] {
      assert a + b == a;
    } else {
      assert file[off..off + |a| + |b|] == file[off..off + |a|] + file[off + |a|..off + |a| + |b|];
    }
  }

  // ---- The chunks of the span: o, Next(o), Next(Next(o)), ...

  // Whether t is the offset of a chunk from o up to hi.
  predicate Tile(c: Config, o: int, hi: int, t: int)
    requires c.Valid()
    decreases hi - o
  {
    o < hi && o <= c.end && (t == o || Tile(c, c.Next(o), hi, t))
  }

  // hi is the offset of a chunk boundary at or after o.
  predicate Reach(c: Config, o: int, hi: int)
    requires c.Valid()
    decreases hi - o
  {
    o == hi || (o < hi && o <= c.end && Reach(c, c.Next(o), hi))
  }

  function ChunkCount(c: Config, o: int): nat
    requires c.Valid()
    decreases c.end - o
  {
    if o <= c.end then 1 + ChunkCount(c, c.Next(o)) else 0
  }

  lemma TilesBounds(c: Config, o: int, hi: int)
    requires c.Valid()
    ensures forall t :: Tile(c, o, hi, t) ==> o <= t < hi && t <= c.end
    decreases hi - o
  {
    if o < hi && o <= c.end {
      TilesBounds(c, c.Next(o), hi);
    }
  }

  lemma {:induction false} TilesExtend(c: Config, o: int, hi: int)
    requires c.Valid() && Reach(c, o, hi) && hi <= c.end
    ensures Reach(c, o, c.Next(hi))
    ensures forall t :: Tile(c, o, c.Next(hi), t) <==> Tile(c, o, hi, t) || t == hi
    decreases hi - o
  {
    if o < hi {
      TilesExtend(c, c.Next(o), hi);
    }
  }

  // ---- The invariant

  predicate RequestOk(c: Config, o: int, k: Chunk) {
    k.len == c.Next(o) - o && |k.got| < k.len && IsSlice(c.file, o, k.got)
  }

  predicate CompletedOk(c: Config, o: int, b: seq<Byte>) {
    |b| == c.Next(o) - o && IsSlice(c.file, o, b)
  }

  ghost predicate RequestsOk(c: Config, requests: map<int, Chunk>) {
    forall o :: o in requests ==> RequestOk(c, o, requests[o])
  }

  /** Conservation while the run is open: the chunks from the emit offset up to the next offset are,
  each exactly once, either finished or in flight, and hold the file's bytes so far. */
  ghost predicate Tiling(c: Config, emit: int, next: int, completed: map<int, seq<Byte>>, requests: map<int, Chunk>)
    requires c.Valid()
  {
    && Reach(c, emit, next)
    && (next <= c.end + 1 || next == c.start)
    && (forall o :: o in completed ==> o !in requests)
    && (forall o :: o in completed || o in requests <==> Tile(c, emit, next, o))
    && (forall o :: o in completed ==> CompletedOk(c, o, completed[o]))
  }

  ghost predicate Tiled(c: Config, s: State)
    requires c.Valid()
  {
    && Tiling(c, s.emit, s.next, s.completed, s.requests)
    && s.inflight == |s.requests| <= c.window
  }

  lemma TilingRequest(c: Config, emit: int, next: int, completed: map<int, seq<Byte>>, requests: map<int, Chunk>)
    requires c.Valid() && Tiling(c, emit, next, completed, requests) && RequestsOk(c, requests) && next <= c.end
    ensures next !in requests && next !in completed
    ensures var asked := requests[next := Chunk(c.Next(next) - next, [])];
      RequestsOk(c, asked) && Tiling(c, emit, c.Next(next), completed, asked)
  {
    TilesBounds(c, emit, next);
    TilesExtend(c, emit, next);
  }

  lemma TilingWrite(c: Config, emit: int, next: int, completed: map<int, seq<Byte>>, requests: map<int, Chunk>)
    requires c.Valid() && Tiling(c, emit, next, completed, requests) && emit in completed
    ensures emit < next && emit <= c.end
    ensures Tiling(c, c.Next(emit), next, completed - {emit}, requests)
  {
    TilesBounds(c, emit, next);
    TilesBounds(c, c.Next(emit), next);
  }

  lemma TilingReceive(c: Config, emit: int, next: int, completed: map<int, seq<Byte>>, requests: map<int, Chunk>,
                      o: int, more: seq<Byte>)
    requires c.Valid() && Tiling(c, emit, next, completed, requests) && RequestsOk(c, requests) && o in requests
    requires IsSlice(c.file, o + |requests[o].got|, more) && |requests[o].got| + |more| <= requests[o].len
    ensures var k := requests[o]; var got := k.got + more;
      && (|got| < k.len ==>
        var asked := requests[o := Chunk(k.len, got)];
        RequestsOk(c, asked) && Tiling(c, emit, next, completed, asked))
      && (|got| == k.len ==> Tiling(c, emit, next, completed[o := got], requests - {o}))
  {
    SliceAppend(c.file, o, requests[o].got, more);
  }

  predicate Output(c: Config, s: State) {
    && |s.written| == s.emit - c.start
    && IsSlice(c.file, c.start, s.written)
    && (s.emit <= c.end + 1 || s.emit == c.start)
    && s.ends == if s.emit > c.end then 1 else 0
  }

  /** One handle opened and closed, one settlement, and the listeners that belong to them. */
  predicate Bookkeeping(c: Config, s: State) {
    && s.opens <= 1
    && |s.settlements| == (if s.settled then 1 else 0)
    && s.listening == !s.settled
    && s.draining == (!s.settled && s.awaitingDrain)
    && (s.handle ==> s.opens == 1)
    && (s.openPending ==> !s.handle && s.opens == 0)
    && (!s.settled ==> s.closes == 0 && s.handle == (s.opens == 1))
    && (s.settled ==> s.closes == s.opens && s.completed == map[])
    && (!s.settled && !s.openPending && c.start <= c.end ==> s.handle)
    && (!s.handle ==> s.requests == map[] && s.next == c.start && s.ends == if c.start > c.end then 1 else 0)
    && (c.start > c.end ==> s.opens == 0 && !s.openPending)
    && (s.awaitingDrain ==> s.handle && c.Next(c.start) <= s.emit <= c.end)
  }

  /** Nothing is left to do without an answer: the head chunk is not ready, and the window is full
  unless everything was requested. */
  predicate Saturated(c: Config, s: State) {
    !s.settled && s.handle && !s.awaitingDrain && s.ends == 0 ==>
      s.emit !in s.completed && (s.inflight == c.window || s.next > c.end)
  }

  ghost predicate Inv(c: Config, s: State)
    requires c.Valid()
  {
    && RequestsOk(c, s.requests) && Output(c, s) && Bookkeeping(c, s) && Saturated(c, s)
    && (!s.settled ==> Tiled(c, s))
  }

  // The state inside emitReady and pump, before the window has been refilled.
  ghost predicate Working(c: Config, s: State)
    requires c.Valid()
  {
    && RequestsOk(c, s.requests) && Output(c, s) && Bookkeeping(c, s) && Tiled(c, s)
    && !s.settled && !s.awaitingDrain && s.handle && s.ends == 0
  }

  lemma InitKeeps(c: Config)
    requires c.Valid()
    ensures Inv(c, Init(c))
  {}

  lemma PumpOneKeeps(c: Config, s: State)
    requires c.Valid() && Working(c, s) && s.inflight < c.window && s.next <= c.end
    ensures Working(c, PumpOne(c, s))
  {
    PumpOneTiles(c, s);
  }

  lemma PumpOneTiles(c: Config, s: State)
    requires c.Valid() && RequestsOk(c, s.requests) && Tiled(c, s) && s.inflight < c.window && s.next <= c.end
    ensures RequestsOk(c, PumpOne(c, s).requests) && Tiled(c, PumpOne(c, s))
  {
    TilingRequest(c, s.emit, s.next, s.completed, s.requests);
  }

  lemma {:induction false} PumpKeeps(c: Config, s: State)
    requires c.Valid() && Working(c, s) && s.emit !in s.completed
    ensures Inv(c, Pump(c, s))
    decreases c.end - s.next
  {
    if s.inflight < c.window && s.next <= c.end {
      PumpOneKeeps(c, s);
      PumpKeeps(c, PumpOne(c, s));
    }
  }

  lemma WriteHeadKeeps(c: Config, s: State)
    requires c.Valid() && Working(c, s) && s.emit in s.completed
    ensures var t := WriteHead(s);
      && s.emit <= c.end && t.emit == c.Next(s.emit)
      && RequestsOk(c, t.requests) && Tiled(c, t)
      && |t.written| == t.emit - c.start && IsSlice(c.file, c.start, t.written)
  {
    TilingWrite(c, s.emit, s.next, s.completed, s.requests);
    SliceAppend(c.file, c.start, s.written, s.completed[s.emit]);
  }

  lemma {:induction false} EmitLoopKeeps(c: Config, s: State)
    requires c.Valid() && Working(c, s)
    ensures Inv(c, EmitLoop(c, s))
    decreases |s.completed|
  {
    if s.emit !in s.completed {
      PumpKeeps(c, s);
    } else {
      WriteHeadKeeps(c, s);
      var t := WriteHead(s);
      if t.emit <= c.end && s.emit !in c.full {
        EmitLoopKeeps(c, t);
      }
    }
  }

  lemma BytesAreSlice(c: Config, s: State, o: int, n: int)
    requires Enabled(c, s, ReadDone(o, n)) && n > 0
    ensures |Bytes(c, s, o, n)| == n && IsSlice(c.file, o + |s.requests[o].got|, Bytes(c, s, o, n))
  {}

  lemma ContinuedKeeps(c: Config, s: State, o: int, n: int)
    requires c.Valid() && Inv(c, s) && !s.settled && Enabled(c, s, ReadDone(o, n)) && n > 0
    requires |s.requests[o].got| + n < s.requests[o].len
    ensures Inv(c, Continued(s, o, s.requests[o].got + Bytes(c, s, o, n)))
  {
    BytesAreSlice(c, s, o, n);
    TilingReceive(c, s.emit, s.next, s.completed, s.requests, o, Bytes(c, s, o, n));
    assert |s.requests[o := Chunk(0, [])]| == |s.requests|;
  }

  lemma FinishedKeeps(c: Config, s: State, o: int, n: int)
    requires c.Valid() && Inv(c, s) && !s.settled && Enabled(c, s, ReadDone(o, n)) && n > 0
    requires |s.requests[o].got| + n == s.requests[o].len
    ensures var t := Finished(s, o, s.requests[o].got + Bytes(c, s, o, n));
      if s.awaitingDrain then Inv(c, t) else Working(c, t)
  {
    BytesAreSlice(c, s, o, n);
    TilingReceive(c, s.emit, s.next, s.completed, s.requests, o, Bytes(c, s, o, n));
    TilesBounds(c, s.emit, s.next);
    assert Tile(c, s.emit, s.next, o);
  }

  lemma OnReadKeeps(c: Config, s: State, o: int, n: int)
    requires c.Valid() && Inv(c, s) && Enabled(c, s, ReadDone(o, n))
    ensures Inv(c, OnRead(c, s, o, n))
  {
    if !s.settled && n > 0 {
      var got := s.requests[o].got + Bytes(c, s, o, n);
      if |got| < s.requests[o].len {
        ContinuedKeeps(c, s, o, n);
      } else {
        FinishedKeeps(c, s, o, n);
        if !s.awaitingDrain {
          EmitLoopKeeps(c, Finished(s, o, got));
        }
      }
    }
  }

  lemma StepKeeps(c: Config, s: State, e: Event)
    requires c.Valid() && Inv(c, s) && Enabled(c, s, e)
    ensures Inv(c, Step(c, s, e))
  {
    match e
    case Opened =>
      if !s.settled {
        PumpKeeps(c, s.(openPending := false, opens := s.opens + 1, handle := true));
      }
    case ReadDone(o, n) => OnReadKeeps(c, s, o, n);
    case Drain =>
      if s.draining {
        EmitLoopKeeps(c, s.(draining := false, awaitingDrain := false));
      }
    case _ =>
  }
}
