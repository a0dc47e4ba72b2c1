/** How many buffers the windowed reader holds: the exact maximum of finished chunks that wait, and exactly when the
window bounds them all. */
module WindowedReadMemory {
  import opened Collections
  import opened WindowedRead
  import opened WindowedReadInvariant
  import opened WindowedReadRuns
  import opened WindowedReadTermination

  // The buffers held: finished chunks that wait for their turn, and reads in flight.
  function Held(s: State): nat {
    |s.completed| + |s.requests|
  }

  // ---- Counting chunks

  lemma {:induction false} CountMonotone(c: Config, a: int, b: int)
    requires c.Valid() && a <= b
    ensures ChunkCount(c, b) <= ChunkCount(c, a)
    decreases c.end - a
  {
    if b <= c.end {
      CountMonotone(c, c.Next(a), c.Next(b));
    }
  }

  // Two maps that share out the chunks from o up to hi hold all of them.
  lemma {:induction false} SharedOut<V, W>(c: Config, m: map<int, V>, n: map<int, W>, o: int, hi: int)
    requires c.Valid() && Reach(c, o, hi)
    requires forall t :: t in m || t in n <==> Tile(c, o, hi, t)
    requires forall t :: t in m ==> t !in n
    ensures |m| + |n| + ChunkCount(c, hi) == ChunkCount(c, o)
    decreases hi - o
  {
    if o == hi {
      if m != map[] { var k := SomeKey(m); }
      if n != map[] { var k := SomeKey(n); }
    } else {
      TilesBounds(c, c.Next(o), hi);
      assert Tile(c, o, hi, o);
      SharedOut(c, m - {o}, n - {o}, c.Next(o), hi);
      OneLess(m, o);
      OneLess(n, o);
    }
  }

  // While the run is open the buffers held are the chunks between the two offsets.
  lemma HeldAreTiles(c: Config, s: State)
    requires c.Valid() && Inv(c, s) && !s.settled
    ensures Held(s) + ChunkCount(c, s.next) == ChunkCount(c, s.emit)
    ensures s.emit > c.end ==> Held(s) == 0
    ensures s.emit < s.next && s.emit <= c.end ==> s.emit in s.completed || s.emit in s.requests
  {
    SharedOut(c, s.completed, s.requests, s.emit, s.next);
    if s.emit < s.next && s.emit <= c.end {
      assert Tile(c, s.emit, s.next, s.emit);
    }
  }

  // ---- A window of one

  ghost predicate Narrow(c: Config, s: State) {
    !s.settled ==> s.completed == map[] && (s.awaitingDrain ==> s.requests == map[])
  }

  lemma AloneInFlight(c: Config, s: State, o: int)
    requires c.Valid() && Inv(c, s) && !s.settled && c.window == 1 && Narrow(c, s) && o in s.requests
    ensures s.requests - {o} == map[] && o == s.emit && !s.awaitingDrain
  {
    assert Tile(c, s.emit, s.next, o);
    assert Tile(c, s.emit, s.next, s.emit);
    OnlyKey(s.requests, s.emit);
  }

  lemma OnlyKey<V>(m: map<int, V>, k: int)
    requires k in m && |m| <= 1
    ensures m.Keys == {k} && m - {k} == map[]
  {
    assert |m.Keys - {k}| == 0;
    assert (m - {k}).Keys == m.Keys - {k};
  }

  lemma WriteTheOnlyOne(c: Config, s: State, o: int, got: seq<Byte>)
    requires c.Valid() && s.completed == map[] && s.requests - {o} == map[] && o == s.emit
    ensures Narrow(c, EmitLoop(c, Finished(s, o, got)))
  {
    var f := Finished(s, o, got);
    assert f.completed == map[o := got];
    var t := WriteHead(f);
    assert t.completed == map[];
    if t.emit <= c.end && s.emit !in c.full {
      assert EmitLoop(c, f) == EmitLoop(c, t) == Pump(c, t);
      PumpQuiet(c, t);
      PumpNotWaiting(c, t);
    }
  }

  // Pump does nothing while the reader waits for the destination.
  lemma PumpNotWaiting(c: Config, s: State)
    requires c.Valid()
    ensures s.awaitingDrain ==> Pump(c, s) == s
  {}

  lemma NarrowKept(c: Config, s: State, e: Event)
    requires c.Valid() && Inv(c, s) && Enabled(c, s, e) && c.window == 1 && Narrow(c, s)
    ensures Narrow(c, Step(c, s, e))
  {
    match e
    case Opened =>
      if !s.settled { PumpQuiet(c, s.(openPending := false, opens := s.opens + 1, handle := true)); }
    case ReadDone(o, n) =>
      if !s.settled && n > 0 {
        AloneInFlight(c, s, o);
        WriteTheOnlyOne(c, s, o, s.requests[o].got + Bytes(c, s, o, n));
      }
    case Drain =>
      if s.draining {
        var t := s.(draining := false, awaitingDrain := false);
        assert EmitLoop(c, t) == Pump(c, t);
        PumpQuiet(c, t);
      }
    case _ =>
  }

  lemma {:induction false} NarrowInRuns(c: Config, es: seq<Event>)
    requires c.Valid() && Feasible(c, es) && c.window == 1
    ensures Narrow(c, Run(c, es))
  {
    if es != [] {
      NarrowInRuns(c, es[..|es| - 1]);
      RunKeeps(c, es[..|es| - 1]);
      NarrowKept(c, Run(c, es[..|es| - 1]), es[|es| - 1]);
    }
  }

  // ---- Reads in flight, settled or not

  lemma SettlingKeepsReads(c: Config, s: State, e: Event)
    requires c.Valid() && Inv(c, s) && Enabled(c, s, e) && Step(c, s, e).settled
    ensures Step(c, s, e).requests.Keys <= s.requests.Keys
  {
    match e
    case Opened =>
      if !s.settled { PumpQuiet(c, s.(openPending := false, opens := s.opens + 1, handle := true)); }
    case ReadDone(o, n) =>
      if !s.settled && n > 0 { EmitLoopQuiet(c, Finished(s, o, s.requests[o].got + Bytes(c, s, o, n))); }
    case Drain => EmitLoopQuiet(c, s.(draining := false, awaitingDrain := false));
    case _ =>
  }

  lemma {:induction false} ReadsInWindow(c: Config, es: seq<Event>)
    requires c.Valid() && Feasible(c, es)
    ensures |Run(c, es).requests| <= c.window
  {
    RunKeeps(c, es);
    if es != [] && Run(c, es).settled {
      var front := es[..|es| - 1];
      ReadsInWindow(c, front);
      RunKeeps(c, front);
      SettlingKeepsReads(c, Run(c, front), es[|es| - 1]);
      SubsetSize(Run(c, es).requests.Keys, Run(c, front).requests.Keys);
    }
  }

  // ---- The bound

  /** The most finished chunks that can wait: none with a window of one, and all but the head otherwise. */
  function MaxWaiting(c: Config): nat
    requires c.Valid()
  {
    if c.window == 1 || c.start > c.end then 0 else ChunkCount(c, c.start) - 1
  }

  lemma WaitingBound(c: Config, es: seq<Event>)
    requires c.Valid() && Feasible(c, es)
    ensures |Run(c, es).completed| <= MaxWaiting(c)
  {
    var s := Run(c, es);
    RunKeeps(c, es);
    if c.window == 1 {
      NarrowInRuns(c, es);
    } else if !s.settled {
      HeldAreTiles(c, s);
      CountMonotone(c, c.start, s.emit);
      if s.awaitingDrain {
        CountMonotone(c, c.Next(c.start), s.emit);
      } else if s.emit < s.next && s.emit <= c.end {
        HeadInFlight(s.requests, s.emit);
      }
    }
  }

  lemma HeadInFlight<V>(m: map<int, V>, k: int)
    requires k in m
    ensures |m| >= 1
  {
    assert k in m.Keys;
  }

  lemma HeldBound(c: Config, es: seq<Event>)
    requires c.Valid() && Feasible(c, es) && (c.window == 1 || ChunkCount(c, c.start) <= c.window)
    ensures Held(Run(c, es)) <= c.window
  {
    var s := Run(c, es);
    RunKeeps(c, es);
    ReadsInWindow(c, es);
    if c.window == 1 {
      NarrowInRuns(c, es);
    } else if !s.settled {
      HeldAreTiles(c, s);
      CountMonotone(c, c.start, s.emit);
    }
  }

  // ---- The bound is reached

  // The read of the first chunk is unanswered, and nothing is written yet.
  predicate HeadWaits(c: Config, s: State) {
    && s.handle && !s.settled && !s.awaitingDrain && s.emit == c.start && c.start in s.requests
  }

  lemma {:induction false} PumpKeepsReads(c: Config, s: State, o: int)
    requires c.Valid() && o in s.requests && o < s.next
    ensures o in Pump(c, s).requests
    decreases c.end - s.next
  {
    if !s.settled && !s.awaitingDrain && s.inflight < c.window && s.next <= c.end {
      PumpKeepsReads(c, PumpOne(c, s), o);
    }
  }

  lemma HeadWaitsAtFirst(c: Config) returns (es: seq<Event>)
    requires c.Valid() && c.start <= c.end
    ensures Feasible(c, es) && HeadWaits(c, Run(c, es))
  {
    es := [Opened];
    var t := Init(c).(openPending := false, opens := 1, handle := true);
    assert es[..0] == [] && Feasible(c, es[..0]) && Run(c, es) == Pump(c, t);
    assert Pump(c, t) == Pump(c, PumpOne(c, t));
    PumpKeepsReads(c, PumpOne(c, t), c.start);
    PumpQuiet(c, t);
    assert t.handle;
    PumpKeepsHandle(c, t);
  }

  lemma {:induction false} PumpKeepsHandle(c: Config, s: State)
    requires c.Valid()
    ensures Pump(c, s).handle == s.handle
    decreases c.end - s.next
  {
    if !s.settled && !s.awaitingDrain && s.inflight < c.window && s.next <= c.end {
      PumpKeepsHandle(c, PumpOne(c, s));
    }
  }

  // Another read is answered in full: the head still waits.
  lemma AnswerAnother(c: Config, s: State, o: int)
    requires c.Valid() && Inv(c, s) && HeadWaits(c, s) && c.end < |c.file| && o in s.requests && o != c.start
    ensures var e := ReadDone(o, s.requests[o].len - |s.requests[o].got|);
      Enabled(c, s, e) && Productive(s, e) && HeadWaits(c, Step(c, s, e))
  {
    var k := s.requests[o];
    TilesBounds(c, s.emit, s.next);
    assert Tile(c, s.emit, s.next, o);
    var n := k.len - |k.got|;
    assert Enabled(c, s, ReadDone(o, n));
    var f := Finished(s, o, k.got + Bytes(c, s, o, n));
    assert c.start !in f.completed && c.start in f.requests;
    assert Step(c, s, ReadDone(o, n)) == Pump(c, f);
    assert Tile(c, s.emit, s.next, c.start);
    PumpKeepsReads(c, f, c.start);
    PumpQuiet(c, f);
    PumpKeepsHandle(c, f);
  }

  lemma {:induction false} AnswerTheOthers(c: Config, es: seq<Event>) returns (fs: seq<Event>)
    requires c.Valid() && Feasible(c, es) && HeadWaits(c, Run(c, es)) && c.end < |c.file|
    ensures Feasible(c, fs) && HeadWaits(c, Run(c, fs)) && Run(c, fs).requests.Keys == {c.start}
    decreases Outstanding(c, Run(c, es))
  {
    var s := Run(c, es);
    if s.requests.Keys == {c.start} {
      fs := es;
    } else {
      RunKeeps(c, es);
      var o := SomeOther(s.requests, c.start);
      var e := ReadDone(o, s.requests[o].len - |s.requests[o].got|);
      AnswerAnother(c, s, o);
      ProgressIsMade(c, s, e);
      OneMore(c, es, e);
      fs := AnswerTheOthers(c, es + [e]);
    }
  }

  /** With a window of two or more, all chunks but the head can be kept at once, and nothing written. */
  lemma AllButTheHead(c: Config) returns (es: seq<Event>)
    requires c.Valid() && c.window >= 2 && c.start <= c.end < |c.file|
    ensures Feasible(c, es) && Run(c, es).written == []
    ensures |Run(c, es).completed| == ChunkCount(c, c.start) - 1 && Held(Run(c, es)) == ChunkCount(c, c.start)
  {
    var first := HeadWaitsAtFirst(c);
    es := AnswerTheOthers(c, first);
    var s := Run(c, es);
    RunKeeps(c, es);
    assert |s.requests| == |s.requests.Keys| == 1;
    assert s.next > c.end;
    HeldAreTiles(c, s);
  }

  /** The maximum of finished chunks that wait is exact: no run exceeds it, and one reaches it. */
  lemma WaitingExactly(c: Config) returns (es: seq<Event>)
    requires c.Valid() && c.end < |c.file|
    ensures forall fs :: Feasible(c, fs) ==> |Run(c, fs).completed| <= MaxWaiting(c)
    ensures Feasible(c, es) && |Run(c, es).completed| == MaxWaiting(c)
  {
    forall fs | Feasible(c, fs) ensures |Run(c, fs).completed| <= MaxWaiting(c) {
      WaitingBound(c, fs);
    }
    if c.window == 1 || c.start > c.end {
      es := [];
    } else {
      es := AllButTheHead(c);
    }
  }

  // ---- When the window bounds the buffers

  ghost predicate WindowBounds(c: Config)
    requires c.Valid()
  {
    forall es :: Feasible(c, es) ==> Held(Run(c, es)) <= c.window
  }

  /** The window bounds the buffers of every run if and only if it is one chunk wide or holds the whole span. */
  lemma WindowBoundsIff(c: Config)
    requires c.Valid() && c.end < |c.file|
    ensures WindowBounds(c) <==> c.window == 1 || ChunkCount(c, c.start) <= c.window
  {
    if c.window == 1 || ChunkCount(c, c.start) <= c.window {
      forall es | Feasible(c, es) ensures Held(Run(c, es)) <= c.window {
        HeldBound(c, es);
      }
    } else {
      var es := AllButTheHead(c);
    }
  }

  // ---- At the reader's constants

  const CHUNK_SIZE := 32 * 1024
  const WINDOW := 24

  lemma CountFits(c: Config)
    requires c.Valid()
    ensures ChunkCount(c, c.start) <= c.window <==> SpanLength(c) <= c.window * c.chunkSize
  {
    if c.start <= c.end {
      ChunkCountBound(c, c.start);
      var n := ChunkCount(c, c.start);
      if n <= c.window {
        Times(n, c.window, c.chunkSize);
      } else {
        Times(c.window, n - 1, c.chunkSize);
      }
    }
  }

  lemma Times(a: int, b: int, k: nat)
    requires a <= b
    ensures a * k <= b * k
  {}

  /** The reader's own constants bound its buffers exactly for spans of at most 768 KiB. */
  lemma BoundedUpTo768KiB(c: Config)
    requires c.Valid() && c.end < |c.file| && c.chunkSize == CHUNK_SIZE && c.window == WINDOW
    ensures WindowBounds(c) <==> SpanLength(c) <= 786_432
  {
    WindowBoundsIff(c);
    CountFits(c);
  }
}
