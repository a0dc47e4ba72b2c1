/** What holds in every run of the windowed reader: the bytes the destination receives, the chunks in
between, no stall, termination, one settlement and one close, and backpressure. */
module WindowedReadRuns {
  import opened WindowedRead
  import opened WindowedReadInvariant

  function SpanLength(c: Config): nat {
    if c.start <= c.end then c.end + 1 - c.start else 0
  }

  lemma {:induction false} RunKeeps(c: Config, es: seq<Event>)
    requires c.Valid() && Feasible(c, es)
    ensures Inv(c, Run(c, es))
  {
    if es == [] {
      InitKeeps(c);
    } else {
      RunKeeps(c, es[..|es| - 1]);
      StepKeeps(c, Run(c, es[..|es| - 1]), es[|es| - 1]);
    }
  }

  lemma {:induction false} FeasiblePrefix(c: Config, es: seq<Event>, k: nat)
    requires c.Valid() && Feasible(c, es) && k <= |es|
    ensures Feasible(c, es[..k])
    decreases |es|
  {
    if k < |es| {
      assert es[..|es| - 1][..k] == es[..k];
      FeasiblePrefix(c, es[..|es| - 1], k);
    } else {
      assert es[..k] == es;
    }
  }

  lemma OneMore(c: Config, es: seq<Event>, e: Event)
    requires c.Valid() && Feasible(c, es) && Enabled(c, Run(c, es), e)
    ensures Feasible(c, es + [e]) && Run(c, es + [e]) == Step(c, Run(c, es), e)
  {
    assert (es + [e])[..|es + [e]| - 1] == es;
  }

  // The state after the first k events.
  ghost function At(c: Config, es: seq<Event>, k: nat): State
    requires c.Valid() && Feasible(c, es) && k <= |es|
  {
    FeasiblePrefix(c, es, k);
    Run(c, es[..k])
  }

  lemma AtFront(c: Config, es: seq<Event>, k: nat)
    requires c.Valid() && Feasible(c, es) && k < |es|
    ensures At(c, es, k) == At(c, es[..|es| - 1], k)
  {
    assert es[..|es| - 1][..k] == es[..k];
  }

  lemma AtEnd(c: Config, es: seq<Event>)
    requires c.Valid() && Feasible(c, es)
    ensures At(c, es, |es|) == Run(c, es)
  {
    assert es[..|es|] == es;
  }

  // ---- The bytes written

  /** At every moment the destination has received exactly the file from `start` up to the emit offset,
  never past the span; and it is told the end, at most once, exactly when it has the whole span. */
  lemma WrittenIsPrefixOfSpan(c: Config, es: seq<Event>)
    requires c.Valid() && Feasible(c, es)
    ensures var s := Run(c, es);
      && |s.written| <= SpanLength(c)
      && (s.written != [] ==> c.start + |s.written| <= |c.file| && s.written == c.file[c.start..c.start + |s.written|])
      && s.emit == c.start + |s.written|
      && s.ends <= 1
      && (s.ends == 1 <==> |s.written| == SpanLength(c))
      && (s.ends == 1 && c.start <= c.end ==> c.end < |c.file| && s.written == c.file[c.start..c.end + 1])
  {
    RunKeeps(c, es);
  }

  /** A file shorter than the span is never passed off as complete. */
  lemma TruncatedFileNeverEnds(c: Config, es: seq<Event>)
    requires c.Valid() && Feasible(c, es) && c.start <= c.end && |c.file| <= c.end
    ensures Run(c, es).ends == 0
  {
    WrittenIsPrefixOfSpan(c, es);
  }

  // While a read is in flight something of the span is still owed.
  lemma InFlightMeansUnfinished(c: Config, s: State, o: int)
    requires c.Valid() && Inv(c, s) && !s.settled && o in s.requests
    ensures s.handle && s.ends == 0 && |s.written| < SpanLength(c)
  {}

  /** An answer with no bytes rejects with the position it was for, and writes nothing more. */
  lemma EarlyEofRejects(c: Config, es: seq<Event>, o: int, n: int)
    requires c.Valid() && Feasible(c, es) && !Run(c, es).settled
    requires Enabled(c, Run(c, es), ReadDone(o, n)) && n <= 0
    ensures var s := Run(c, es); var t := Step(c, s, ReadDone(o, n));
      && t.settlements == [Rejected(UnexpectedEof(o + |s.requests[o].got|))]
      && t.written == s.written && |t.written| < SpanLength(c) && t.ends == 0
      && t.closes == t.opens == 1
  {
    RunKeeps(c, es);
    EofStep(c, Run(c, es), o, n);
  }

  lemma EofStep(c: Config, s: State, o: int, n: int)
    requires c.Valid() && Inv(c, s) && !s.settled && Enabled(c, s, ReadDone(o, n)) && n <= 0
    ensures var t := Step(c, s, ReadDone(o, n));
      && t.settlements == [Rejected(UnexpectedEof(o + |s.requests[o].got|))]
      && t.written == s.written && |t.written| < SpanLength(c) && t.ends == 0
      && t.closes == t.opens == 1
  {
    InFlightMeansUnfinished(c, s, o);
    assert s.settlements == [];
  }

  // ---- Conservation

  // The chunk that holds position p.
  function TileAt(c: Config, o: int, hi: int, p: int): (t: int)
    requires c.Valid() && Reach(c, o, hi) && o <= p < hi
    ensures Tile(c, o, hi, t) && t <= p < c.Next(t)
    decreases hi - o
  {
    if p < c.Next(o) then o else TileAt(c, c.Next(o), hi, p)
  }

  lemma {:induction false} TileUnique(c: Config, o: int, hi: int, t: int, u: int, p: int)
    requires c.Valid() && Tile(c, o, hi, t) && Tile(c, o, hi, u)
    requires t <= p < c.Next(t) && u <= p < c.Next(u)
    ensures t == u
    decreases hi - o
  {
    TilesBounds(c, c.Next(o), hi);
    if t != o && u != o {
      TileUnique(c, c.Next(o), hi, t, u, p);
    }
  }

  // Chunk t covers position p, is finished or in flight, and holds the file's bytes as far as it goes.
  predicate Holds(c: Config, s: State, t: int, p: int) {
    && t <= p < c.Next(t)
    && ((t in s.completed && t !in s.requests && CompletedOk(c, t, s.completed[t]))
        || (t in s.requests && t !in s.completed && RequestOk(c, t, s.requests[t])))
  }

  ghost predicate HeldOnce(c: Config, s: State, p: int) {
    exists t :: Holds(c, s, t, p) && (forall u :: Holds(c, s, u, p) ==> t == u)
  }

  lemma PositionHeldOnce(c: Config, s: State, p: int)
    requires c.Valid() && Tiled(c, s) && RequestsOk(c, s.requests) && s.emit <= p < s.next
    ensures HeldOnce(c, s, p)
  {
    var t := TileAt(c, s.emit, s.next, p);
    assert Holds(c, s, t, p);
    forall u | Holds(c, s, u, p) ensures t == u {
      TileUnique(c, s.emit, s.next, t, u, p);
    }
  }

  /** While the run is open, every position from the emit offset to the next offset lies in exactly one
  chunk, finished or in flight, and no chunk lies elsewhere; `inflight` counts the reads in flight and
  never exceeds the window. */
  lemma Conservation(c: Config, es: seq<Event>)
    requires c.Valid() && Feasible(c, es) && !Run(c, es).settled
    ensures var s := Run(c, es);
      && c.start <= s.emit <= s.next && s.next <= c.start + SpanLength(c)
      && s.inflight == |s.requests| <= c.window
      && (forall p :: s.emit <= p < s.next ==> HeldOnce(c, s, p))
      && (forall t :: t in s.completed.Keys + s.requests.Keys ==> s.emit <= t && c.Next(t) <= s.next)
  {
    RunKeeps(c, es);
    var s := Run(c, es);
    ReachOrder(c, s.emit, s.next);
    TilesBounds(c, s.emit, s.next);
    forall p | s.emit <= p < s.next ensures HeldOnce(c, s, p) {
      PositionHeldOnce(c, s, p);
    }
    forall t | t in s.completed.Keys + s.requests.Keys ensures c.Next(t) <= s.next {
      TileEnds(c, s.emit, s.next, t);
    }
  }

  lemma {:induction false} TileEnds(c: Config, o: int, hi: int, t: int)
    requires c.Valid() && Reach(c, o, hi) && Tile(c, o, hi, t)
    ensures c.Next(t) <= hi
    decreases hi - o
  {
    if t == o {
      ReachOrder(c, c.Next(o), hi);
    } else {
      TileEnds(c, c.Next(o), hi, t);
    }
  }

  lemma ReachOrder(c: Config, o: int, hi: int)
    requires c.Valid() && Reach(c, o, hi)
    ensures o <= hi
  {}

  // ---- No stall

  /** An open run that has not reached its end always waits for something: an answer from the server,
  or the drain event it listens for. */
  lemma NeverStalls(c: Config, es: seq<Event>)
    requires c.Valid() && Feasible(c, es) && !Run(c, es).settled && Run(c, es).ends == 0
    ensures var s := Run(c, es); s.openPending || s.requests != map[] || (s.awaitingDrain && s.draining)
  {
    RunKeeps(c, es);
    var s := Run(c, es);
  }

  /** So a run left with nothing to wait for, and not cut short, has delivered the whole span. */
  lemma QuietMeansComplete(c: Config, es: seq<Event>)
    requires c.Valid() && Feasible(c, es)
    requires var s := Run(c, es); !s.settled && !s.openPending && s.requests == map[] && !s.draining
    ensures Run(c, es).ends == 1 && |Run(c, es).written| == SpanLength(c)
    ensures c.start <= c.end ==> c.end < |c.file| && Run(c, es).written == c.file[c.start..c.end + 1]
  {
    RunKeeps(c, es);
    if Run(c, es).ends == 0 {
      NeverStalls(c, es);
    }
    WrittenIsPrefixOfSpan(c, es);
  }

  /** Without backpressure the window is kept full until everything has been requested. */
  lemma WindowKeptFull(c: Config, es: seq<Event>)
    requires c.Valid() && Feasible(c, es)
    requires var s := Run(c, es); !s.settled && s.handle && !s.awaitingDrain && s.next <= c.end
    ensures |Run(c, es).requests| == c.window
  {
    RunKeeps(c, es);
    var s := Run(c, es);
    ReachOrder(c, s.emit, s.next);
  }

  // ---- One settlement, one close

  /** The promise settles at most once; a handle is opened at most once, is closed exactly when the run
  has settled, and an open answered after that is closed at once. */
  lemma SettlesAndClosesOnce(c: Config, es: seq<Event>)
    requires c.Valid() && Feasible(c, es)
    ensures var s := Run(c, es);
      && |s.settlements| <= 1 && (s.settled <==> |s.settlements| == 1)
      && s.opens <= 1
      && s.closes == (if s.settled then s.opens else 0)
      && (s.settled ==> !s.listening && !s.draining && s.completed == map[])
  {
    RunKeeps(c, es);
  }

  // Everything but the reads still in flight and the handle bookkeeping.
  predicate SameOutput(s: State, t: State) {
    && t.settled == s.settled && t.settlements == s.settlements && t.written == s.written && t.ends == s.ends
    && t.issued == s.issued && t.next == s.next && t.emit == s.emit && t.completed == s.completed
    && t.handle == s.handle
  }

  lemma SettledIsFinal(c: Config, s: State, e: Event)
    requires c.Valid() && Inv(c, s) && Enabled(c, s, e) && s.settled
    ensures SameOutput(s, Step(c, s, e)) && Step(c, s, e).requests.Keys <= s.requests.Keys
  {}

  /** Once a run has settled nothing is read, written or settled again, whatever still arrives. */
  lemma {:induction false} NothingAfterSettlement(c: Config, es: seq<Event>, k: nat)
    requires c.Valid() && Feasible(c, es) && k <= |es| && At(c, es, k).settled
    ensures SameOutput(At(c, es, k), Run(c, es))
    decreases |es|
  {
    if k == |es| {
      AtEnd(c, es);
    } else {
      var front := es[..|es| - 1];
      AtFront(c, es, k);
      NothingAfterSettlement(c, front, k);
      RunKeeps(c, front);
      SettledIsFinal(c, Run(c, front), es[|es| - 1]);
    }
  }

  /** Resolving says only that the destination closed: here it closes before any byte was written. */
  lemma ResolvedIsNotComplete()
    ensures exists c: Config, es: seq<Event> ::
      c.Valid() && Feasible(c, es) && Run(c, es).settlements == [Resolved]
      && Run(c, es).written == [] && SpanLength(c) > 0
  {
    var c := Config([0], 0, 0, 1, 1, {});
    var none: seq<Event> := [];
    var es := [DstClose];
    assert es[..0] == none;
    assert Feasible(c, none) && Run(c, none) == Init(c);
    assert Feasible(c, es) && Run(c, es) == Step(c, Init(c), DstClose);
    assert Run(c, es).settlements == [Resolved];
  }

  /** A run resolves only by the destination's close event. */
  lemma ResolvedMeansDstClosed(c: Config, es: seq<Event>)
    requires c.Valid() && Feasible(c, es) && Run(c, es).settlements == [Resolved]
    ensures DstClose in es
  {
    RunKeeps(c, es);
    var k := SettlementHasACause(c, es);
    assert Verdict(At(c, es, k), es[k])[0] == Resolved;
  }

  lemma {:induction false} PumpQuiet(c: Config, s: State)
    requires c.Valid()
    ensures var t := Pump(c, s);
      && t.settled == s.settled && t.settlements == s.settlements
      && t.written == s.written && t.emit == s.emit && t.ends == s.ends && t.completed == s.completed
      && t.awaitingDrain == s.awaitingDrain && t.openPending == s.openPending
    decreases c.end - s.next
  {
    if !s.settled && !s.awaitingDrain && s.inflight < c.window && s.next <= c.end {
      PumpQuiet(c, PumpOne(c, s));
    }
  }

  lemma {:induction false} EmitLoopQuiet(c: Config, s: State)
    requires c.Valid()
    ensures var t := EmitLoop(c, s);
      t.settled == s.settled && t.settlements == s.settlements && t.openPending == s.openPending && s.written <= t.written
    decreases |s.completed|
  {
    if s.emit !in s.completed {
      PumpQuiet(c, s);
    } else if WriteHead(s).emit <= c.end && s.emit !in c.full {
      EmitLoopQuiet(c, WriteHead(s));
    }
  }

  // ---- What settles a run, and how

  /** The events that end an open run, and what they end it with: the destination's close resolves it, and every
  error, of the session or of the destination, rejects it with itself, as an empty answer does with its position. */
  function Verdict(s: State, e: Event): (v: seq<Outcome>)
    requires e.ReadDone? ==> e.offset in s.requests
  {
    match e
    case DstClose => [Resolved]
    case DstFailed(m) => [Rejected(DstError(m))]
    case OpenFailed(m) => [Rejected(SftpError(m))]
    case ReadFailed(_, m) => [Rejected(SftpError(m))]
    case ReadDone(o, n) => if n <= 0 then [Rejected(UnexpectedEof(o + |s.requests[o].got|))] else []
    case _ => []
  }

  // The step from s to t ended the run with this verdict, or, without one, left it open.
  predicate Obeys(s: State, t: State, v: seq<Outcome>) {
    && t.settlements == v && (t.settled <==> v != [])
    && (t.settled ==> t.closes == t.opens && t.written == s.written && t.ends == s.ends)
  }

  lemma OpenedVerdict(c: Config, s: State)
    requires c.Valid() && Bookkeeping(c, s) && s.openPending && !s.settled
    ensures Obeys(s, Step(c, s, Opened), [])
  {
    PumpQuiet(c, s.(openPending := false, opens := s.opens + 1, handle := true));
  }

  lemma ReadVerdict(c: Config, s: State, o: int, n: int)
    requires c.Valid() && Bookkeeping(c, s) && Enabled(c, s, ReadDone(o, n)) && !s.settled
    ensures Obeys(s, OnRead(c, s, o, n), Verdict(s, ReadDone(o, n)))
  {
    assert s.settlements == [];
    if n > 0 {
      EmitLoopQuiet(c, Finished(s, o, s.requests[o].got + Bytes(c, s, o, n)));
    }
  }

  lemma DrainVerdict(c: Config, s: State)
    requires c.Valid() && Bookkeeping(c, s) && !s.settled
    ensures Obeys(s, Step(c, s, Drain), [])
  {
    EmitLoopQuiet(c, s.(draining := false, awaitingDrain := false));
  }

  lemma ErrorVerdict(c: Config, s: State, e: Event)
    requires c.Valid() && Bookkeeping(c, s) && Enabled(c, s, e) && !s.settled
    requires e.DstClose? || e.DstFailed? || e.OpenFailed? || e.ReadFailed?
    ensures Obeys(s, Step(c, s, e), Verdict(s, e))
  {
    assert s.settlements == [];
  }

  lemma StepVerdict(c: Config, s: State, e: Event)
    requires c.Valid() && Inv(c, s) && Enabled(c, s, e) && !s.settled
    ensures Obeys(s, Step(c, s, e), Verdict(s, e))
  {
    match e
    case Opened => OpenedVerdict(c, s);
    case ReadDone(o, n) => ReadVerdict(c, s, o, n);
    case Drain => DrainVerdict(c, s);
    case _ => ErrorVerdict(c, s, e);
  }

  /** An open run settles at once with the first event that ends it, whatever was written before, the end of the
  destination included: a close resolves, an error rejects with that error, and every handle opened is closed. */
  lemma SettlesAtOnce(c: Config, es: seq<Event>, e: Event)
    requires c.Valid() && Feasible(c, es) && !Run(c, es).settled && Enabled(c, Run(c, es), e)
    ensures Feasible(c, es + [e])
    ensures Obeys(Run(c, es), Run(c, es + [e]), Verdict(Run(c, es), e))
  {
    RunKeeps(c, es);
    OneMore(c, es, e);
    StepVerdict(c, Run(c, es), e);
  }

  // Event k finds the run open and ends it.
  ghost predicate EndsAt(c: Config, es: seq<Event>, k: nat)
    requires c.Valid() && Feasible(c, es)
  {
    k < |es| && !At(c, es, k).settled && Enabled(c, At(c, es, k), es[k]) && Verdict(At(c, es, k), es[k]) != []
  }

  /** Every settlement is the verdict on one event of the run: the one that found the run open and ended it. */
  lemma {:induction false} SettlementHasACause(c: Config, es: seq<Event>) returns (k: nat)
    requires c.Valid() && Feasible(c, es) && Run(c, es).settled
    ensures EndsAt(c, es, k) && Run(c, es).settlements == Verdict(At(c, es, k), es[k])
  {
    if es == [] {
      assert false;
    } else {
      var front := es[..|es| - 1];
      RunKeeps(c, front);
      if Run(c, front).settled {
        k := SettlementHasACause(c, front);
        AtFront(c, es, k);
        SettledIsFinal(c, Run(c, front), es[|es| - 1]);
      } else {
        k := |es| - 1;
        StepVerdict(c, Run(c, front), es[k]);
        assert At(c, es, k) == Run(c, front);
      }
    }
  }

  // ---- Backpressure

  // The last chunk written was refused.
  ghost predicate LastRefused(c: Config, s: State) {
    exists o :: o in c.full && c.start <= o && c.Next(o) == s.emit
  }

  lemma {:induction false} EmitLoopWaits(c: Config, s: State)
    requires c.Valid() && Working(c, s)
    ensures EmitLoop(c, s).awaitingDrain ==> LastRefused(c, EmitLoop(c, s))
    decreases |s.completed|
  {
    if s.emit !in s.completed {
      PumpQuiet(c, s);
    } else {
      WriteHeadKeeps(c, s);
      var t := WriteHead(s);
      if t.emit <= c.end && s.emit !in c.full {
        EmitLoopWaits(c, t);
      }
    }
  }

  lemma ReadWaits(c: Config, s: State, o: int, n: int)
    requires c.Valid() && Inv(c, s) && Enabled(c, s, ReadDone(o, n)) && !s.settled && n > 0
    requires s.awaitingDrain ==> LastRefused(c, s)
    ensures OnRead(c, s, o, n).awaitingDrain ==> LastRefused(c, OnRead(c, s, o, n))
  {
    if |s.requests[o].got| + n == s.requests[o].len {
      FinishedKeeps(c, s, o, n);
      if !s.awaitingDrain { EmitLoopWaits(c, Finished(s, o, s.requests[o].got + Bytes(c, s, o, n))); }
    }
  }

  lemma OpenedWaits(c: Config, s: State)
    requires c.Valid() && Inv(c, s) && s.openPending && !s.settled
    ensures !Step(c, s, Opened).awaitingDrain
  {
    PumpQuiet(c, s.(openPending := false, opens := s.opens + 1, handle := true));
  }

  lemma StepWaits(c: Config, s: State, e: Event)
    requires c.Valid() && Inv(c, s) && Enabled(c, s, e) && (s.awaitingDrain ==> LastRefused(c, s))
    ensures Step(c, s, e).awaitingDrain ==> LastRefused(c, Step(c, s, e))
  {
    match e
    case Opened => if !s.settled { OpenedWaits(c, s); }
    case ReadDone(o, n) => if !s.settled && n > 0 { ReadWaits(c, s, o, n); }
    case Drain => if s.draining { EmitLoopWaits(c, s.(draining := false, awaitingDrain := false)); }
    case _ =>
  }

  /** The reader waits for a drain event only when the destination owes it one: the last chunk it wrote was refused. */
  lemma {:induction false} WaitsOnlyWhenRefused(c: Config, es: seq<Event>)
    requires c.Valid() && Feasible(c, es) && Run(c, es).awaitingDrain
    ensures LastRefused(c, Run(c, es))
  {
    assert es != [];
    var front := es[..|es| - 1];
    RunKeeps(c, front);
    if Run(c, front).awaitingDrain {
      WaitsOnlyWhenRefused(c, front);
    }
    StepWaits(c, Run(c, front), es[|es| - 1]);
  }

  lemma {:induction false} EmitLoopStopsAtRefusal(c: Config, s: State, o: int)
    requires c.Valid() && Working(c, s) && o in c.full
    requires Tile(c, s.emit, EmitLoop(c, s).emit, o)
    ensures var t := EmitLoop(c, s);
      t.emit == c.Next(o) && (t.emit > c.end || (t.awaitingDrain && t.draining && t.next == s.next))
    decreases |s.completed|
  {
    if s.emit !in s.completed {
      PumpQuiet(c, s);
    } else {
      WriteHeadKeeps(c, s);
      var t := WriteHead(s);
      if t.emit <= c.end && s.emit !in c.full {
        EmitLoopStopsAtRefusal(c, t, o);
      }
    }
  }

  lemma EmitReadyRefused(c: Config, s: State, o: int)
    requires c.Valid() && Working(c, s) && o in c.full && c.Next(o) <= c.end
    requires Tile(c, s.emit, EmitLoop(c, s).emit, o)
    ensures RefusalHeld(c, s, EmitLoop(c, s), o)
  {
    EmitLoopStopsAtRefusal(c, s, o);
    EmitLoopQuiet(c, s);
  }

  // The step from s to t wrote the refused chunk o last, and now waits for the drain event.
  predicate RefusalHeld(c: Config, s: State, t: State, o: int) {
    !t.settled && t.awaitingDrain && t.draining && t.emit == c.Next(o) && t.next == s.next
  }

  lemma OnReadRefused(c: Config, s: State, a: int, n: int, o: int)
    requires c.Valid() && Inv(c, s) && Enabled(c, s, ReadDone(a, n)) && o in c.full && c.Next(o) <= c.end
    requires Tile(c, s.emit, OnRead(c, s, a, n).emit, o)
    ensures RefusalHeld(c, s, OnRead(c, s, a, n), o)
  {
    FinishedKeeps(c, s, a, n);
    EmitReadyRefused(c, Finished(s, a, s.requests[a].got + Bytes(c, s, a, n)), o);
  }

  /** A refused chunk other than the last is the last one its step writes: the reader waits for the
  drain event, and the step requests no new chunk. */
  lemma RefusedWriteWaits(c: Config, s: State, e: Event, o: int)
    requires c.Valid() && Inv(c, s) && Enabled(c, s, e) && o in c.full && c.Next(o) <= c.end
    requires Tile(c, s.emit, Step(c, s, e).emit, o)
    ensures RefusalHeld(c, s, Step(c, s, e), o)
  {
    match e
    case Opened => PumpQuiet(c, s.(openPending := false, opens := s.opens + 1, handle := true));
    case ReadDone(a, n) => OnReadRefused(c, s, a, n, o);
    case Drain => EmitReadyRefused(c, s.(draining := false, awaitingDrain := false), o);
    case _ =>
  }

  lemma WaitingWritesNothing(c: Config, s: State, e: Event)
    requires c.Valid() && Inv(c, s) && Enabled(c, s, e) && s.awaitingDrain && e != Drain
    ensures var t := Step(c, s, e);
      && t.awaitingDrain && t.written == s.written && t.emit == s.emit && t.next == s.next && t.ends == s.ends
      && t.requests.Keys <= s.requests.Keys
  {}

  /** From a refused write to the next drain event no byte is written and no new chunk is requested, in
  every interleaving; reads in flight may finish and be kept. */
  lemma {:induction false} Backpressure(c: Config, es: seq<Event>, k: nat)
    requires c.Valid() && Feasible(c, es) && k <= |es| && At(c, es, k).awaitingDrain && Drain !in es[k..]
    ensures var s := At(c, es, k); var t := Run(c, es);
      && t.awaitingDrain && t.written == s.written && t.emit == s.emit && t.next == s.next && t.ends == s.ends
      && t.requests.Keys <= s.requests.Keys
    decreases |es|
  {
    if k == |es| {
      AtEnd(c, es);
    } else {
      var front := es[..|es| - 1];
      AtFront(c, es, k);
      assert front[k..] == es[k..][..|es| - 1 - k] && es[|es| - 1] == es[k..][|es| - 1 - k];
      Backpressure(c, front, k);
      RunKeeps(c, front);
      WaitingWritesNothing(c, Run(c, front), es[|es| - 1]);
    }
  }

  lemma AtNext(c: Config, es: seq<Event>, k: nat)
    requires c.Valid() && Feasible(c, es) && k < |es|
    ensures Inv(c, At(c, es, k)) && Enabled(c, At(c, es, k), es[k]) && At(c, es, k + 1) == Step(c, At(c, es, k), es[k])
  {
    FeasiblePrefix(c, es, k + 1);
    assert es[..k + 1][..k] == es[..k];
    FeasiblePrefix(c, es, k);
    RunKeeps(c, es[..k]);
  }

  /** When event k has a chunk refused, other than the last, the output ends with that chunk up to the next drain. */
  lemma BackpressureFromRefusal(c: Config, es: seq<Event>, k: nat, o: int)
    requires c.Valid() && Feasible(c, es) && k < |es| && o in c.full && c.Next(o) <= c.end
    requires Tile(c, At(c, es, k).emit, At(c, es, k + 1).emit, o) && Drain !in es[k + 1..]
    ensures Run(c, es).emit == c.Next(o) && Run(c, es).next == At(c, es, k).next
    ensures |Run(c, es).written| == c.Next(o) - c.start
  {
    AtNext(c, es, k);
    RefusedWriteWaits(c, At(c, es, k), es[k], o);
    Backpressure(c, es, k + 1);
    RunKeeps(c, es);
  }
}
