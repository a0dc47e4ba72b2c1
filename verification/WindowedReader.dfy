/** The windowed SFTP reader with its closure variables updated in place.  Every callback is proved to
take the step of WindowedRead, so that the properties of its runs hold of this class. */
module WindowedReader {
  import opened WindowedRead
  import opened WindowedReadInvariant

  // What the callback of one read in flight has captured.
  datatype Captured = Captured(buf: array<Byte>, filled: nat)

  // What the session, the destination and the holder of the promise have seen of the reader.
  datatype Seen = Seen(
    written: seq<Byte>, ends: nat, openPending: bool, opens: nat, closes: nat, issued: nat,
    listening: bool, draining: bool, settlements: seq<Outcome>)

  // A buffer belongs to one read while it is filled, and is not written again once it is done.
  datatype Use = FilledFor(offset: int) | Done

  class Reader {
    const c: Config

    var handle: bool
    var nextOffset: int
    var emitOffset: int
    var inflight: int
    var settled: bool
    var awaitingDrain: bool
    var completed: map<int, array<Byte>>

    // The reads in flight, and the contents of their buffers and of the finished ones.
    ghost var requests: map<int, Captured>
    ghost var chunks: map<int, Chunk>
    ghost var contents: map<int, seq<Byte>>
    ghost var uses: map<array<Byte>, Use>
    ghost var seen: Seen

    ghost function View(): State
      reads this
    {
      State(handle, nextOffset, emitOffset, inflight, settled, awaitingDrain, contents, chunks,
            seen.written, seen.ends, seen.openPending, seen.opens, seen.closes, seen.issued,
            seen.listening, seen.draining, seen.settlements)
    }

    ghost function Buffers(): set<array<Byte>>
      reads this`completed, this`requests
    {
      (set o | o in completed :: completed[o]) + (set o | o in requests :: requests[o].buf)
    }

    ghost predicate Separate()
      reads this`completed, this`requests, this`contents, this`chunks, this`uses, Buffers()
    {
      && c.Valid()
      && contents.Keys == completed.Keys
      && (forall o :: o in completed ==>
            && contents[o] == completed[o][..]
            && completed[o] in uses && uses[completed[o]] == Done)
      && chunks.Keys == requests.Keys
      && (forall o :: o in requests ==>
            && requests[o].filled <= requests[o].buf.Length
            && chunks[o] == Chunk(requests[o].buf.Length, requests[o].buf[..requests[o].filled])
            && requests[o].buf in uses && uses[requests[o].buf] == FilledFor(o))
    }

    ghost predicate Valid()
      reads this, Buffers()
    {
      Separate() && Inv(c, View())
    }

    constructor (c: Config)
      requires c.Valid()
      ensures Valid() && this.c == c && View() == Init(c)
    {
      this.c := c;
      handle, nextOffset, emitOffset := false, c.start, c.start;
      inflight, settled, awaitingDrain, completed := 0, false, false, map[];
      requests, chunks, contents, uses := map[], map[], map[], map[];
      seen := Seen([], if c.start > c.end then 1 else 0, c.start <= c.end, 0, 0, 0, true, false, []);
      new;
      InitKeeps(c);
    }

    method Finish(outcome: Outcome)
      requires Separate()
      modifies this
      ensures Separate() && View() == WindowedRead.Finish(old(View()), outcome)
    {
      if settled { return; }
      settled := true;
      completed, contents := map[], map[];
      seen := seen.(listening := false, draining := false);
      if handle { seen := seen.(closes := seen.closes + 1); }
      seen := seen.(settlements := seen.settlements + [outcome]);
    }

    // Asks the session for the rest of a chunk.
    method ReadChunk(offset: int, buf: array<Byte>, filled: nat)
      requires Separate() && filled <= buf.Length && !settled
      requires buf in uses && uses[buf] == FilledFor(offset)
      modifies this`requests, this`seen, this`chunks
      ensures Separate() && requests == old(requests)[offset := Captured(buf, filled)]
      ensures View() == old(View()).(issued := old(seen).issued + 1,
                                     requests := old(chunks)[offset := Chunk(buf.Length, buf[..filled])])
    {
      if settled { return; }
      requests := requests[offset := Captured(buf, filled)];
      chunks := chunks[offset := Chunk(buf.Length, buf[..filled])];
      seen := seen.(issued := seen.issued + 1);
    }

    // A new buffer for the chunk at an offset, counted in flight.
    method NewChunk(offset: int, len: nat) returns (buf: array<Byte>)
      requires Separate()
      modifies this`uses, this`inflight
      ensures Separate() && fresh(buf) && buf.Length == len && uses == old(uses)[buf := FilledFor(offset)]
      ensures View() == old(View()).(inflight := old(inflight) + 1)
    {
      buf := new Byte[len];
      uses := uses[buf := FilledFor(offset)];
      inflight := inflight + 1;
    }

    method Advance(len: nat)
      requires Separate()
      modifies this`nextOffset
      ensures Separate() && View() == old(View()).(next := old(nextOffset) + len)
    {
      nextOffset := nextOffset + len;
    }

    // One turn of the loop of pump.
    method RequestNext()
      requires Separate() && !settled && nextOffset <= c.end
      modifies this`inflight, this`requests, this`seen, this`nextOffset, this`chunks, this`uses
      ensures Separate() && View() == PumpOne(c, old(View()))
    {
      var len := if c.chunkSize < c.end - nextOffset + 1 then c.chunkSize else c.end - nextOffset + 1;
      var buf := NewChunk(nextOffset, len);
      assert buf[..0] == [] && len == c.Next(nextOffset) - nextOffset;
      ReadChunk(nextOffset, buf, 0);
      Advance(len);
    }

    method Pump()
      requires Separate()
      modifies this`inflight, this`requests, this`seen, this`nextOffset, this`chunks, this`uses
      ensures Separate() && View() == WindowedRead.Pump(c, old(View()))
    {
      while !settled && !awaitingDrain && inflight < c.window && nextOffset <= c.end
        invariant Separate()
        invariant WindowedRead.Pump(c, View()) == WindowedRead.Pump(c, old(View()))
        decreases c.end - nextOffset
      {
        RequestNext();
      }
    }

    // The destination takes a chunk; it answers false when it wants the reader to wait.
    method Write(offset: int, buf: array<Byte>) returns (ok: bool)
      modifies this`seen
      ensures seen == old(seen).(written := old(seen).written + buf[..]) && ok == (offset !in c.full)
    {
      seen := seen.(written := seen.written + buf[..]);
      ok := offset !in c.full;
    }

    // The head of the loop of emitReady: the chunk at the emit offset leaves the map for the destination.
    method WriteNext() returns (ok: bool)
      requires Separate() && emitOffset in completed
      modifies this`completed, this`contents, this`emitOffset, this`seen
      ensures Separate() && View() == WriteHead(old(View())) && ok == (old(emitOffset) !in c.full)
      ensures completed == old(completed) - {old(emitOffset)}
    {
      var offset := emitOffset;
      var buf := completed[offset];
      completed, contents := completed - {offset}, contents - {offset};
      emitOffset := emitOffset + buf.Length;
      ok := Write(offset, buf);
    }

    method EndDestination()
      requires Separate()
      modifies this`seen
      ensures Separate() && View() == old(View()).(ends := old(View()).ends + 1)
    {
      seen := seen.(ends := seen.ends + 1);
    }

    method AwaitDrain()
      requires Separate()
      modifies this`seen, this`awaitingDrain
      ensures Separate() && View() == old(View()).(awaitingDrain := true, draining := true)
    {
      awaitingDrain := true;
      seen := seen.(draining := true);
    }

    method EmitReady()
      requires Separate()
      modifies this
      ensures Separate() && View() == WindowedRead.EmitReady(c, old(View()))
    {
      if settled || awaitingDrain { return; }
      while emitOffset in completed
        invariant Separate() && !settled && !awaitingDrain
        invariant EmitLoop(c, View()) == EmitLoop(c, old(View()))
        decreases |completed|
      {
        var ok := WriteNext();
        if emitOffset > c.end {
          EndDestination();
          return;
        }
        if !ok {
          AwaitDrain();
          return;
        }
      }
      Pump();
    }

    // The session puts the bytes it has read into the buffer before it calls back.
    method Receive(offset: int, buf: array<Byte>, filled: nat, bytesRead: int)
      requires Separate() && Enabled(c, View(), ReadDone(offset, bytesRead)) && bytesRead > 0
      requires requests[offset] == Captured(buf, filled)
      modifies buf
      ensures Separate()
      ensures buf[..filled + bytesRead] == chunks[offset].got + Bytes(c, View(), offset, bytesRead)
    {
      forall i | 0 <= i < bytesRead {
        buf[filled + i] := c.file[offset + filled + i];
      }
      assert buf[..filled] == old(buf[..filled]);
      assert forall o :: o in completed ==> completed[o] != buf;
      assert forall o :: o in requests && o != offset ==> requests[o].buf != buf;
    }

    // A request is answered, and its buffer dropped.
    method Answered(offset: int)
      requires Separate() && offset in requests
      modifies this`requests, this`chunks
      ensures Separate() && View() == old(View()).(requests := old(chunks) - {offset})
    {
      requests, chunks := requests - {offset}, chunks - {offset};
    }

    // A full buffer waits in `completed` for its turn.
    method Keep(offset: int, buf: array<Byte>)
      requires Separate() && buf in uses && (forall o :: o in requests ==> requests[o].buf != buf)
      modifies this`inflight, this`completed, this`contents, this`uses
      ensures Separate()
      ensures View() == old(View()).(inflight := old(inflight) - 1, completed := old(contents)[offset := buf[..]])
    {
      inflight := inflight - 1;
      completed, contents := completed[offset := buf], contents[offset := buf[..]];
      uses := uses[buf := Done];
    }

    method Resume()
      requires Separate()
      modifies this`seen, this`awaitingDrain
      ensures Separate() && View() == old(View()).(awaitingDrain := false, draining := false)
    {
      seen := seen.(draining := false);
      awaitingDrain := false;
    }

    // A positive answer for an open run; the bytes are already in the buffer.
    method TakeBytes(offset: int, buf: array<Byte>, filled: nat, bytesRead: nat)
      requires Separate() && !settled && offset in requests && requests[offset] == Captured(buf, filled)
      requires filled + bytesRead <= buf.Length
      modifies this
      ensures Separate()
      ensures var before, got := old(View()), buf[..filled + bytesRead];
        View() == if |got| < buf.Length then Continued(before, offset, got)
                  else WindowedRead.EmitReady(c, Finished(before, offset, got))
    {
      if filled + bytesRead < buf.Length {
        ReadChunk(offset, buf, filled + bytesRead);
        return;
      }
      assert buf[..] == buf[..filled + bytesRead];
      Answered(offset);
      Keep(offset, buf);
      assert View() == Finished(old(View()), offset, buf[..]);
      EmitReady();
    }

    method TakeReply(offset: int, buf: array<Byte>, filled: nat, bytesRead: int)
      requires Separate() && Enabled(c, View(), ReadDone(offset, bytesRead))
      requires requests[offset] == Captured(buf, filled)
      requires bytesRead > 0 ==> buf[..filled + bytesRead] == chunks[offset].got + Bytes(c, View(), offset, bytesRead)
      modifies this
      ensures Separate() && View() == OnRead(c, old(View()), offset, bytesRead)
    {
      if settled {
        Answered(offset);
      } else if bytesRead <= 0 {
        Answered(offset);
        Finish(Rejected(UnexpectedEof(offset + filled)));
      } else {
        TakeBytes(offset, buf, filled, bytesRead);
      }
    }

    method Reply(offset: int, buf: array<Byte>, filled: nat, bytesRead: int)
      requires Separate() && Enabled(c, View(), ReadDone(offset, bytesRead))
      requires requests[offset] == Captured(buf, filled)
      modifies this, buf
      ensures Separate() && View() == OnRead(c, old(View()), offset, bytesRead)
    {
      if bytesRead > 0 {
        Receive(offset, buf, filled, bytesRead);
      }
      TakeReply(offset, buf, filled, bytesRead);
    }

    method CloseAtOnce()
      requires Separate()
      modifies this`seen
      ensures Separate() && View() == old(View()).(openPending := false, opens := old(seen).opens + 1, closes := old(seen).closes + 1)
    {
      seen := seen.(openPending := false, opens := seen.opens + 1, closes := seen.closes + 1);
    }

    method TakeHandle()
      requires Separate()
      modifies this`seen, this`handle
      ensures Separate() && View() == old(View()).(openPending := false, opens := old(seen).opens + 1, handle := true)
    {
      seen := seen.(openPending := false, opens := seen.opens + 1);
      handle := true;
    }

    // ---- The callbacks.  The destination calls the listeners it has; an event without one changes nothing.

    method OnOpened()
      requires Valid() && Enabled(c, View(), Opened)
      modifies this
      ensures Valid() && View() == Step(c, old(View()), Opened)
    {
      StepKeeps(c, View(), Opened);
      if settled {
        CloseAtOnce();
        return;
      }
      TakeHandle();
      Pump();
    }

    method OnOpenFailed(message: string)
      requires Valid() && Enabled(c, View(), OpenFailed(message))
      modifies this
      ensures Valid() && View() == Step(c, old(View()), OpenFailed(message))
    {
      StepKeeps(c, View(), OpenFailed(message));
      seen := seen.(openPending := false);
      Finish(Rejected(SftpError(message)));
    }

    method OnReadFailed(offset: int, message: string)
      requires Valid() && Enabled(c, View(), ReadFailed(offset, message))
      modifies this
      ensures Valid() && View() == Step(c, old(View()), ReadFailed(offset, message))
    {
      StepKeeps(c, View(), ReadFailed(offset, message));
      Answered(offset);
      if settled { return; }
      Finish(Rejected(SftpError(message)));
    }

    method OnReadDone(offset: int, buf: array<Byte>, filled: nat, bytesRead: int)
      requires Valid() && Enabled(c, View(), ReadDone(offset, bytesRead))
      requires requests[offset] == Captured(buf, filled)
      modifies this, buf
      ensures Valid() && View() == Step(c, old(View()), ReadDone(offset, bytesRead))
    {
      StepKeeps(c, View(), ReadDone(offset, bytesRead));
      Reply(offset, buf, filled, bytesRead);
    }

    method OnDrain()
      requires Valid() && seen.draining
      modifies this
      ensures Valid() && View() == Step(c, old(View()), Drain)
    {
      StepKeeps(c, View(), Drain);
      Resume();
      EmitReady();
    }

    method OnDstClose()
      requires Valid() && seen.listening
      modifies this
      ensures Valid() && View() == Step(c, old(View()), DstClose)
    {
      StepKeeps(c, View(), DstClose);
      Finish(Resolved);
    }

    method OnDstError(message: string)
      requires Valid() && seen.listening
      modifies this
      ensures Valid() && View() == Step(c, old(View()), DstFailed(message))
    {
      StepKeeps(c, View(), DstFailed(message));
      Finish(Rejected(DstError(message)));
    }
  }
}
