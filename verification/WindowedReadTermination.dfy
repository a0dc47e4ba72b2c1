/** Every run of the windowed reader does a bounded amount of work: a measure over the bytes not yet
received, the chunks not yet written and the pending drain falls with every answer that brings bytes
and every drain that is listened for. */
module WindowedReadTermination {
  import opened Collections
  import opened WindowedRead
  import opened WindowedReadInvariant
  import opened WindowedReadRuns

  function Gap(requests: map<int, Chunk>, o: int): nat {
    if o in requests && |requests[o].got| <= requests[o].len then requests[o].len - |requests[o].got| else 0
  }

  // Bytes still missing from the chunks between o and hi.
  function Missing(c: Config, requests: map<int, Chunk>, o: int, hi: int): nat
    requires c.Valid()
    decreases hi - o
  {
    if o < hi && o <= c.end then Gap(requests, o) + Missing(c, requests, c.Next(o), hi) else 0
  }

  lemma {:induction false} MissingExtend(c: Config, requests: map<int, Chunk>, o: int, hi: int)
    requires c.Valid() && Reach(c, o, hi) && hi <= c.end
    ensures Missing(c, requests, o, c.Next(hi)) == Missing(c, requests, o, hi) + Gap(requests, hi)
    decreases hi - o
  {
    if o < hi {
      MissingExtend(c, requests, c.Next(o), hi);
    } else {
      assert Missing(c, requests, c.Next(hi), c.Next(hi)) == 0;
    }
  }

  // Changing the entry of one chunk changes the sum by that chunk's gap.
  lemma {:induction false} MissingChange(c: Config, a: map<int, Chunk>, b: map<int, Chunk>, o: int, hi: int, k: int)
    requires c.Valid() && forall t :: t != k ==> Gap(a, t) == Gap(b, t)
    ensures Missing(c, b, o, hi) == Missing(c, a, o, hi) + (if Tile(c, o, hi, k) then Gap(b, k) - Gap(a, k) else 0)
    decreases hi - o
  {
    if o < hi && o <= c.end {
      MissingChange(c, a, b, c.Next(o), hi, k);
      TilesBounds(c, c.Next(o), hi);
    }
  }

  function Measure(c: Config, s: State): nat
    requires c.Valid()
  {
    (if s.next <= c.end then c.end + 1 - s.next else 0)
    + Missing(c, s.requests, s.emit, s.next)
    + ChunkCount(c, s.emit)
    + (if s.awaitingDrain then 1 else 0)
  }

  lemma {:induction false} PumpMeasure(c: Config, s: State)
    requires c.Valid() && Working(c, s)
    ensures Measure(c, Pump(c, s)) == Measure(c, s)
    decreases c.end - s.next
  {
    if s.inflight < c.window && s.next <= c.end {
      var t := PumpOne(c, s);
      TilesBounds(c, s.emit, s.next);
      MissingChange(c, s.requests, t.requests, s.emit, s.next, s.next);
      MissingExtend(c, t.requests, s.emit, s.next);
      PumpOneKeeps(c, s);
      PumpMeasure(c, t);
    }
  }

  lemma {:induction false} EmitLoopMeasure(c: Config, s: State)
    requires c.Valid() && Working(c, s)
    ensures Measure(c, EmitLoop(c, s)) <= Measure(c, s)
    decreases |s.completed|
  {
    if s.emit !in s.completed {
      PumpMeasure(c, s);
    } else {
      WriteHeadKeeps(c, s);
      TilingWrite(c, s.emit, s.next, s.completed, s.requests);
      var t := WriteHead(s);
      assert Measure(c, t) + 1 == Measure(c, s);
      if t.emit <= c.end && s.emit !in c.full {
        EmitLoopMeasure(c, t);
      }
    }
  }

  // An answer that brings bytes, or a drain that is listened for, while the run is open.
  predicate Productive(s: State, e: Event) {
    !s.settled && ((e.ReadDone? && e.bytesRead > 0) || (e.Drain? && s.draining))
  }

  lemma OnReadMeasure(c: Config, s: State, o: int, n: int)
    requires c.Valid() && Inv(c, s) && !s.settled && Enabled(c, s, ReadDone(o, n)) && n > 0
    ensures Measure(c, OnRead(c, s, o, n)) < Measure(c, s)
  {
    BytesAreSlice(c, s, o, n);
    var got := s.requests[o].got + Bytes(c, s, o, n);
    assert Tile(c, s.emit, s.next, o);
    if |got| < s.requests[o].len {
      MissingChange(c, s.requests, Continued(s, o, got).requests, s.emit, s.next, o);
    } else {
      var f := Finished(s, o, got);
      MissingChange(c, s.requests, f.requests, s.emit, s.next, o);
      assert Measure(c, f) < Measure(c, s);
      FinishedKeeps(c, s, o, n);
      if !s.awaitingDrain {
        EmitLoopMeasure(c, f);
      }
    }
  }

  lemma OpenedMeasure(c: Config, s: State)
    requires c.Valid() && Inv(c, s) && s.openPending && !s.settled
    ensures Measure(c, Step(c, s, Opened)) == Measure(c, s)
  {
    PumpMeasure(c, s.(openPending := false, opens := s.opens + 1, handle := true));
  }

  lemma DrainMeasure(c: Config, s: State)
    requires c.Valid() && Inv(c, s) && s.draining
    ensures Measure(c, Step(c, s, Drain)) < Measure(c, s)
  {
    EmitLoopMeasure(c, s.(draining := false, awaitingDrain := false));
  }

  lemma StepMeasure(c: Config, s: State, e: Event)
    requires c.Valid() && Inv(c, s) && Enabled(c, s, e) && !Step(c, s, e).settled
    ensures Measure(c, Step(c, s, e)) + (if Productive(s, e) then 1 else 0) <= Measure(c, s)
  {
    match e
    case Opened => if !s.settled { OpenedMeasure(c, s); }
    case ReadDone(o, n) => if !s.settled && n > 0 { OnReadMeasure(c, s, o, n); }
    case Drain => if s.draining { DrainMeasure(c, s); }
    case _ =>
  }

  lemma ProductiveDoesNotSettle(c: Config, s: State, e: Event)
    requires c.Valid() && Inv(c, s) && Enabled(c, s, e) && Productive(s, e)
    ensures !Step(c, s, e).settled
  {
    match e
    case ReadDone(o, n) => EmitLoopQuiet(c, Finished(s, o, s.requests[o].got + Bytes(c, s, o, n)));
    case Drain => EmitLoopQuiet(c, s.(draining := false, awaitingDrain := false));
  }

  // The number of productive events of a run.
  ghost function Work(c: Config, es: seq<Event>): nat
    requires c.Valid() && Feasible(c, es)
  {
    if es == [] then 0 else
      var front := es[..|es| - 1];
      Work(c, front) + if Productive(Run(c, front), es[|es| - 1]) then 1 else 0
  }

  lemma {:induction false} WorkPlusMeasure(c: Config, es: seq<Event>)
    requires c.Valid() && Feasible(c, es)
    ensures Work(c, es) + (if Run(c, es).settled then 0 else Measure(c, Run(c, es))) <= SpanLength(c) + ChunkCount(c, c.start)
  {
    if es != [] {
      var front := es[..|es| - 1];
      var e := es[|es| - 1];
      WorkPlusMeasure(c, front);
      RunKeeps(c, front);
      if Productive(Run(c, front), e) {
        ProductiveDoesNotSettle(c, Run(c, front), e);
      }
      if Run(c, es).settled {
      } else {
        assert !Run(c, front).settled by {
          if Run(c, front).settled { SettledIsFinal(c, Run(c, front), e); }
        }
        StepMeasure(c, Run(c, front), e);
      }
    }
  }

  lemma {:induction false} ChunkCountBound(c: Config, o: int)
    requires c.Valid() && o <= c.end
    ensures (ChunkCount(c, o) - 1) * c.chunkSize < c.end + 1 - o <= ChunkCount(c, o) * c.chunkSize
    decreases c.end - o
  {
    var n := ChunkCount(c, c.Next(o));
    if c.Next(o) <= c.end {
      ChunkCountBound(c, c.Next(o));
      assert n * c.chunkSize == (n - 1) * c.chunkSize + c.chunkSize;
      assert (n + 1) * c.chunkSize == n * c.chunkSize + c.chunkSize;
    } else {
      assert n == 0 && 1 * c.chunkSize == c.chunkSize;
    }
  }

  /** In every run the answers that bring bytes and the drains that are listened for number at most the
  bytes of the span plus its chunks, of which there are the least number that covers the span. */
  lemma WorkIsBounded(c: Config, es: seq<Event>)
    requires c.Valid() && Feasible(c, es)
    ensures Work(c, es) <= SpanLength(c) + ChunkCount(c, c.start)
    ensures SpanLength(c) > 0 ==> (ChunkCount(c, c.start) - 1) * c.chunkSize < SpanLength(c) <= ChunkCount(c, c.start) * c.chunkSize
  {
    WorkPlusMeasure(c, es);
    if c.start <= c.end {
      ChunkCountBound(c, c.start);
    }
  }

  // ---- How many reads are issued

  function Unasked(c: Config, next: int): nat {
    if next <= c.end then c.end + 1 - next else 0
  }

  // Every read issued is in flight or has brought a byte, so this is at most the span.
  function Spent(c: Config, s: State): int
    requires c.Valid()
  {
    s.issued + Missing(c, s.requests, s.emit, s.next) + Unasked(c, s.next) - s.inflight
  }

  lemma {:induction false} PumpSpends(c: Config, s: State)
    requires c.Valid() && Working(c, s)
    ensures Spent(c, Pump(c, s)) == Spent(c, s)
    decreases c.end - s.next
  {
    if s.inflight < c.window && s.next <= c.end {
      var t := PumpOne(c, s);
      TilesBounds(c, s.emit, s.next);
      MissingChange(c, s.requests, t.requests, s.emit, s.next, s.next);
      MissingExtend(c, t.requests, s.emit, s.next);
      PumpOneKeeps(c, s);
      PumpSpends(c, t);
    }
  }

  lemma {:induction false} EmitLoopSpends(c: Config, s: State)
    requires c.Valid() && Working(c, s)
    ensures Spent(c, EmitLoop(c, s)) == Spent(c, s)
    decreases |s.completed|
  {
    if s.emit !in s.completed {
      PumpSpends(c, s);
    } else {
      WriteHeadKeeps(c, s);
      TilingWrite(c, s.emit, s.next, s.completed, s.requests);
      var t := WriteHead(s);
      assert Spent(c, t) == Spent(c, s);
      if t.emit <= c.end && s.emit !in c.full {
        EmitLoopSpends(c, t);
      }
    }
  }

  lemma ReadSpends(c: Config, s: State, o: int, n: int)
    requires c.Valid() && Inv(c, s) && !s.settled && Enabled(c, s, ReadDone(o, n)) && n > 0
    ensures Spent(c, OnRead(c, s, o, n)) <= Spent(c, s)
  {
    BytesAreSlice(c, s, o, n);
    var got := s.requests[o].got + Bytes(c, s, o, n);
    assert Tile(c, s.emit, s.next, o);
    if |got| < s.requests[o].len {
      MissingChange(c, s.requests, Continued(s, o, got).requests, s.emit, s.next, o);
    } else {
      var f := Finished(s, o, got);
      MissingChange(c, s.requests, f.requests, s.emit, s.next, o);
      assert Spent(c, f) <= Spent(c, s);
      FinishedKeeps(c, s, o, n);
      if !s.awaitingDrain {
        EmitLoopSpends(c, f);
      }
    }
  }

  lemma OpenedSpends(c: Config, s: State)
    requires c.Valid() && Inv(c, s) && s.openPending && !s.settled
    ensures Spent(c, Step(c, s, Opened)) == Spent(c, s)
  {
    PumpSpends(c, s.(openPending := false, opens := s.opens + 1, handle := true));
  }

  lemma DrainSpends(c: Config, s: State)
    requires c.Valid() && Inv(c, s) && s.draining
    ensures Spent(c, Step(c, s, Drain)) == Spent(c, s)
  {
    EmitLoopSpends(c, s.(draining := false, awaitingDrain := false));
  }

  lemma StepSpends(c: Config, s: State, e: Event)
    requires c.Valid() && Inv(c, s) && Enabled(c, s, e) && !Step(c, s, e).settled
    ensures Spent(c, Step(c, s, e)) <= Spent(c, s)
  {
    match e
    case Opened => if !s.settled { OpenedSpends(c, s); }
    case ReadDone(o, n) => if !s.settled && n > 0 { ReadSpends(c, s, o, n); }
    case Drain => if s.draining { DrainSpends(c, s); }
    case _ =>
  }

  // A settling step issues no read.
  lemma SettlingIssuesNothing(c: Config, s: State, e: Event)
    requires c.Valid() && Inv(c, s) && Enabled(c, s, e) && Step(c, s, e).settled
    ensures Step(c, s, e).issued == s.issued
  {
    match e
    case Opened =>
      if !s.settled { PumpQuiet(c, s.(openPending := false, opens := s.opens + 1, handle := true)); }
    case ReadDone(o, n) =>
      if !s.settled && n > 0 { EmitLoopQuiet(c, Finished(s, o, s.requests[o].got + Bytes(c, s, o, n))); }
    case Drain => EmitLoopQuiet(c, s.(draining := false, awaitingDrain := false));
    case _ =>
  }

  // Each read in flight still misses a byte.
  lemma {:induction false} MissingCovers(c: Config, requests: map<int, Chunk>, o: int, hi: int)
    requires c.Valid() && RequestsOk(c, requests) && forall t :: t in requests ==> Tile(c, o, hi, t)
    ensures |requests| <= Missing(c, requests, o, hi)
    decreases hi - o
  {
    if o < hi && o <= c.end {
      TilesBounds(c, c.Next(o), hi);
      MissingCovers(c, requests - {o}, c.Next(o), hi);
      MissingChange(c, requests, requests - {o}, c.Next(o), hi, o);
      OneLess(requests, o);
    } else if requests != map[] {
      var k := SomeKey(requests);
    }
  }

  lemma {:induction false} SpentInRuns(c: Config, es: seq<Event>)
    requires c.Valid() && Feasible(c, es)
    ensures !Run(c, es).settled ==> Spent(c, Run(c, es)) <= SpanLength(c)
    ensures Run(c, es).issued <= SpanLength(c)
  {
    RunKeeps(c, es);
    if es != [] {
      var front, e := es[..|es| - 1], es[|es| - 1];
      SpentInRuns(c, front);
      RunKeeps(c, front);
      if Run(c, es).settled {
        SettlingIssuesNothing(c, Run(c, front), e);
        return;
      }
      if Run(c, front).settled { SettledIsFinal(c, Run(c, front), e); }
      StepSpends(c, Run(c, front), e);
    }
    if !Run(c, es).settled {
      MissingCovers(c, Run(c, es).requests, Run(c, es).emit, Run(c, es).next);
    }
  }

  /** However short the answers are, a run never issues more reads than the span has bytes. */
  lemma ReadsAreBounded(c: Config, es: seq<Event>)
    requires c.Valid() && Feasible(c, es)
    ensures Run(c, es).issued <= SpanLength(c)
  {
    SpentInRuns(c, es);
  }

  // ---- Every open run can still be completed

  // What an open run still waits for, the answer to `open` included.
  function Outstanding(c: Config, s: State): nat
    requires c.Valid()
  {
    Measure(c, s) + if s.openPending then 1 else 0
  }

  lemma ProgressIsMade(c: Config, s: State, e: Event)
    requires c.Valid() && Inv(c, s) && Enabled(c, s, e) && (Productive(s, e) || (e == Opened && !s.settled))
    ensures !Step(c, s, e).settled && Outstanding(c, Step(c, s, e)) < Outstanding(c, s)
  {
    match e
    case Opened =>
      PumpQuiet(c, s.(openPending := false, opens := s.opens + 1, handle := true));
      StepMeasure(c, s, e);
    case ReadDone(o, n) =>
      ProductiveDoesNotSettle(c, s, e);
      StepMeasure(c, s, e);
      EmitLoopQuiet(c, Finished(s, o, s.requests[o].got + Bytes(c, s, o, n)));
    case Drain =>
      ProductiveDoesNotSettle(c, s, e);
      EmitLoopQuiet(c, s.(draining := false, awaitingDrain := false));
    StepMeasure(c, s, e);
  }

  // The server can answer any read in flight with one more byte of the file.
  lemma OneMoreByte(c: Config, s: State, o: int)
    requires c.Valid() && Inv(c, s) && !s.settled && c.end < |c.file| && o in s.requests
    ensures Enabled(c, s, ReadDone(o, 1))
  {
    TilesBounds(c, s.emit, s.next);
    assert Tile(c, s.emit, s.next, o);
  }

  lemma SomeProgress(c: Config, es: seq<Event>) returns (e: Event)
    requires c.Valid() && Feasible(c, es) && !Run(c, es).settled && Run(c, es).ends == 0 && c.end < |c.file|
    ensures var s := Run(c, es); Enabled(c, s, e) && (Productive(s, e) || e == Opened)
  {
    var s := Run(c, es);
    RunKeeps(c, es);
    NeverStalls(c, es);
    if s.openPending {
      e := Opened;
    } else if s.requests != map[] {
      var o := SomeKey(s.requests);
      OneMoreByte(c, s, o);
      e := ReadDone(o, 1);
    } else {
      e := Drain;
    }
  }

  lemma OneStepOn(c: Config, es: seq<Event>) returns (next: seq<Event>)
    requires c.Valid() && Feasible(c, es) && !Run(c, es).settled && Run(c, es).ends == 0 && c.end < |c.file|
    ensures es < next && Feasible(c, next) && !Run(c, next).settled
    ensures Outstanding(c, Run(c, next)) < Outstanding(c, Run(c, es))
  {
    var e := SomeProgress(c, es);
    RunKeeps(c, es);
    ProgressIsMade(c, Run(c, es), e);
    OneMore(c, es, e);
    next := es + [e];
  }

  lemma EndedIsComplete(c: Config, es: seq<Event>)
    requires c.Valid() && Feasible(c, es)
    ensures Run(c, es).ends == 0 || (Run(c, es).ends == 1 && |Run(c, es).written| == SpanLength(c))
  {
    WrittenIsPrefixOfSpan(c, es);
  }

  /** Whatever has happened, as long as the run is open and the file reaches the end of the span, answers and drains
  can bring it to its end: no interleaving leads into a dead end. */
  lemma {:induction false} CanComplete(c: Config, es: seq<Event>) returns (all: seq<Event>)
    requires c.Valid() && Feasible(c, es) && !Run(c, es).settled && c.end < |c.file|
    ensures es <= all && Feasible(c, all) && !Run(c, all).settled
    ensures Run(c, all).ends == 1 && |Run(c, all).written| == SpanLength(c)
    decreases Outstanding(c, Run(c, es))
  {
    EndedIsComplete(c, es);
    if Run(c, es).ends == 1 {
      all := es;
    } else {
      var next := OneStepOn(c, es);
      all := CanComplete(c, next);
    }
  }

  /** And then the close of the destination resolves it and releases the handle, with the whole span delivered. */
  lemma CanFinish(c: Config, es: seq<Event>) returns (all: seq<Event>)
    requires c.Valid() && Feasible(c, es) && !Run(c, es).settled && c.end < |c.file|
    ensures Feasible(c, all) && Run(c, all).settlements == [Resolved] && Run(c, all).closes == Run(c, all).opens
    ensures |Run(c, all).written| == SpanLength(c) && Run(c, all).ends == 1
  {
    var done := CanComplete(c, es);
    SettlesAtOnce(c, done, DstClose);
    all := done + [DstClose];
  }
}
