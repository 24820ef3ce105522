/** The encoder of the live stream: every packet becomes a fragment in a queue. */
module VideoStreamEncoders {
  import opened Bytes
  import opened CodecContract
  import opened EncoderSetup
  import opened Handles
  import opened Remux
  import opened ThreadSafeQueue

  /** What the queue carries: the remuxed packet, or the closing buffer. */
  datatype Chunk = Fragment(packet: Packet) | ClosingBuffer

  /** The packet `remuxVideo` makes of some data: its time is the frame count, rescaled twice. */
  function Remuxed(data: seq<int>, index: nat, bases: ValidStream): Packet {
    var time, length := TwiceRescaled(index, bases), Ticks(1, bases);
    Remux.Packet(0, time, time, if length > 0 then Ticks(length, bases) else length, -1, data)
  }

  function Chunks(hs: seq<Handled>, bases: ValidStream): (r: seq<Chunk>)
    ensures |r| == |hs|
  {
    if hs == [] then []
    else [Fragment(Remuxed(hs[0].packet.payload, hs[0].index, bases))] + Chunks(hs[1..], bases)
  }

  lemma {:induction false} ChunksAppend(hs: seq<Handled>, h: Handled, bases: ValidStream)
    ensures Chunks(hs + [h], bases) == Chunks(hs, bases) + [Fragment(Remuxed(h.packet.payload, h.index, bases))]
  {
    var last := [Fragment(Remuxed(h.packet.payload, h.index, bases))];
    if hs == [] {
      assert hs + [h] == [h];
      assert Chunks([h], bases) == last + Chunks([h][1..], bases);
    } else {
      TailOfSum(hs, [h]);
      ChunksAppend(hs[1..], h, bases);
      Regroup([Fragment(Remuxed(hs[0].packet.payload, hs[0].index, bases))], Chunks(hs[1..], bases), last);
    }
  }

  /** The queue's history since the session was opened. */
  function History(before: seq<Chunk>, s: Session, bases: ValidStream): seq<Chunk> {
    before + Chunks(Written(s.handled), bases)
  }

  lemma HistoryGrows(before: seq<Chunk>, s: Session, bases: ValidStream, c: Codec, h: Handled)
    ensures History(before, s.(codec := c, handled := s.handled + [h]), bases)
         == if h.written then History(before, s, bases) + [Fragment(Remuxed(h.packet.payload, h.index, bases))]
            else History(before, s, bases)
  {
    WrittenAppend(s.handled, [h]);
    assert Written([h]) == if h.written then [h] else [];
    if h.written {
      ChunksAppend(Written(s.handled), h, bases);
      Regroup(before, Chunks(Written(s.handled), bases), [Fragment(Remuxed(h.packet.payload, h.index, bases))]);
    } else {
      assert Written(s.handled) + [] == Written(s.handled);
    }
  }

  /** The history after a session has ended: the closing buffer is behind it, unless that fails. */
  function Ending(before: seq<Chunk>, s: Session, bases: ValidStream, bufferFails: bool): seq<Chunk> {
    History(before, s, bases) + if bufferFails then [] else [ClosingBuffer]
  }

  lemma HistoryBegins(before: seq<Chunk>, bases: ValidStream)
    ensures History(before, BEGUN, bases) == before
  {
    assert before + [] == before;
  }

  // ---------------------------------------------------------------------------
  // remuxVideo
  // ---------------------------------------------------------------------------

  /** The calls of `remuxVideo` that can fail, in their order. */
  datatype RemuxStage = MuxFormat | MuxStream | MuxHeader | MuxWrite

  predicate FailsAt(fails: Option<RemuxStage>, stage: RemuxStage) {
    fails.Some? && match stage
      case MuxFormat => fails.value.MuxFormat?
      case MuxStream => fails.value.MuxStream?
      case MuxHeader => fails.value.MuxHeader?
      case MuxWrite => fails.value.MuxWrite?
  }

  /** The packet with its times; they are known, so that check does not fail. */
  method StampedPacket(data: seq<int>, index: nat, bases: ValidStream) returns (packet: Packet)
    ensures packet == Remuxed(data, index, bases)
    ensures packet.pts != NOPTS && packet.dts != NOPTS
  {
    packet := Remux.Packet(0, NOPTS, NOPTS, 0, -1, data);
    var tick := Ticks(1, bases);
    packet := packet.(pts := index * tick, dts := index * tick, duration := tick);
    FragmentTime(data, index, bases);
    packet := RescaledTimes(packet, bases);
  }

  lemma BothAreNew(live: set<Handle>, format: Handle, buffer: Handle)
    requires format !in live && buffer !in live + {format}
    ensures live + {format} + {buffer} - {format} == live + {buffer}
    ensures live + {format} + {buffer} - {buffer} - {format} == live
    ensures |live + {buffer}| == |live| + 1
  {
  }

  /**
   `remuxVideo`: a context and a buffer of its own, and one fragment in the queue.  Its
   later error exits free the context and forget the buffer.
   */
  method RemuxVideo(library: Library, queue: Queue<Chunk>, data: seq<int>, index: nat, bases: ValidStream,
        fails: Option<RemuxStage>)
    returns (ok: bool)
    requires queue.Valid()
    modifies library, queue
    ensures queue.Valid() && queue.popped == old(queue.popped)
    ensures ok <==> fails.None?
    ensures queue.pushed == old(queue.pushed) + if ok then [Fragment(Remuxed(data, index, bases))] else []
    ensures |library.books.live| == |old(library.books.live)| + if ok || FailsAt(fails, MuxFormat) then 0 else 1
  {
    ok := false;
    var format := library.New(FormatContext, FailsAt(fails, MuxFormat));
    if format.None? {
      return;
    }
    var buffer := library.New(Output, false);
    BothAreNew(old(library.books.live), format.value, buffer.value);
    if FailsAt(fails, MuxStream) || FailsAt(fails, MuxHeader) {
      library.Free(format.value);
      return;
    }
    var packet := StampedPacket(data, index, bases);
    if FailsAt(fails, MuxWrite) {
      library.Free(format.value);
      return;
    }
    library.Free(buffer.value);
    queue.Push(Fragment(packet));
    library.Free(format.value);
    ok := true;
  }

  lemma FragmentTime(data: seq<int>, index: nat, bases: ValidStream)
    ensures var tick := Ticks(1, bases);
            var packet := Remux.Packet(0, index * tick, index * tick, tick, -1, data);
            RescaledTimes(packet, bases) == Remuxed(data, index, bases)
    ensures index * Ticks(1, bases) != NOPTS && TwiceRescaled(index, bases) != NOPTS
  {
    TicksOfNone(bases);
    TicksMonotone(0, 1, bases);
    TwiceRescaledMonotone(0, index, bases);
    ProductNotNegative(index, Ticks(1, bases));
  }

  lemma ProductNotNegative(a: nat, b: nat)
    ensures a * b >= 0
  {
  }

  /** The flush ends at a packet whose remuxing fails after its first call. */
  predicate LosesBuffer(c: Codec, fault: Fault, mux: RemuxStage) {
    fault.WriteFails? && Strikes(fault, |c.pending|) && !mux.MuxFormat?
  }

  lemma LosesRound(c: Codec, fault: Fault, mux: RemuxStage)
    requires c.pending != [] && fault != ReceiveFails(0) && fault != WriteFails(0)
    ensures LosesBuffer(Receive(c), Later(fault), mux) == LosesBuffer(c, fault, mux)
  {
  }

  predicate WriteLoses(s: Session, w: Choice, mux: RemuxStage)
    requires May(s, w)
  {
    Accepted(w) && LosesBuffer(Send(s.codec, w.answer), w.fault, mux)
  }

  predicate DrainLoses(s: Session, answer: Answer, fault: Fault, mux: RemuxStage)
    requires MaySend(s.codec, answer)
  {
    LosesBuffer(SendNull(s.codec, answer), fault, mux)
  }

  // ---------------------------------------------------------------------------
  // The encoder
  // ---------------------------------------------------------------------------

  /** `Open` fails, and not at its first library call. */
  predicate StopsBetween(preset: bool, failing: set<Stage>) {
    Passed(preset, failing) != 0 && Passed(preset, failing) != CALLS
  }

  lemma OwnedIsNothing(c: Context, calls: nat)
    requires AcquiredBy(c, calls)
    ensures Owned(c) == {} <==> calls == 0
  {
    if calls > 0 {
      assert c.format.value in Owned(c);
    }
  }

  lemma EmptyUnion(a: set<Handle>, b: set<Handle>)
    ensures a + b == {} <==> a == {} && b == {}
  {
    if b != {} {
      var h :| h in b;
      assert h in a + b;
    }
  }

  /** The library calls of `Open`, on a struct that holds what earlier calls left in it. */
  method PrepareStream(library: Library, previous: Context, preset: bool, failing: set<Stage>)
    returns (context: Context, ghost acquired: Context, ok: bool)
    modifies library
    ensures library.books.live == old(library.books.live) + Owned(acquired)
    ensures old(library.books.live) !! Owned(acquired)
    ensures WellKinded(acquired) && AcquiredBy(acquired, Passed(preset, failing))
    ensures context == Overwritten(previous, acquired, Passed(preset, failing))
    ensures ok <==> Passed(preset, failing) == CALLS
  {
    context, ok := Prepare(library, preset, failing);
    acquired := context;
    context := Overwritten(previous, context, Passed(preset, failing));
    ok := ok && WriteHeader !in failing;
  }

  class VideoStreamEncoder {
    const library: Library
    const scratch: Library        // what remuxVideo gets for itself
    const encodedFramesQueue: Queue<Chunk>
    var mContext: Context
    var mIsOpen: bool
    var session: Session          // the codec behind codec_context, and frame_index
    var bases: ValidStream        // the time bases of codec_context and stream
    ghost var before: seq<Chunk>  // the queue's history when the encoder was opened
    ghost var leaked: set<Handle> // what failed calls of Open left behind

    /** Besides what failed calls left behind, exactly the handles of an open encoder are live. */
    ghost predicate Valid()
      reads this, library, encodedFramesQueue
    {
      && library != scratch
      && encodedFramesQueue.Valid()
      && (if mIsOpen then
            && library.books.live == leaked + Owned(mContext) && leaked !! Owned(mContext)
            && WellKinded(mContext) && Complete(mContext)
            && encodedFramesQueue.pushed == History(before, session, bases)
          else library.books.live == leaked)
    }

    ghost function State(): Phase
      reads this, encodedFramesQueue
    {
      Phase(mIsOpen, session, bases, if mIsOpen then before else encodedFramesQueue.pushed)
    }

    constructor (library: Library)
      requires library.books.live == {}
      ensures Valid() && State() == NEW && leaked == {} && this.library == library
      ensures fresh(encodedFramesQueue) && encodedFramesQueue.pushed == []
      ensures fresh(scratch) && scratch.books.live == {}
    {
      this.library := library;
      encodedFramesQueue := new Queue();
      scratch := new Library();
      mContext, mIsOpen, session, before, leaked := EMPTY_CONTEXT, false, BEGUN, [], {};
      bases := SAME_BASES;
    }

    /**
     Receives packets until the codec has none, and pushes a fragment for each; `mux` is
     the call that fails when remuxing fails.
     */
    method FlushPackets(fault: Fault, mux: RemuxStage) returns (ok: bool)
      requires encodedFramesQueue.Valid() && encodedFramesQueue.pushed == History(before, session, bases)
      modifies this`session, encodedFramesQueue, scratch
      ensures encodedFramesQueue.Valid() && encodedFramesQueue.pushed == History(before, session, bases)
      ensures encodedFramesQueue.popped == old(encodedFramesQueue.popped)
      ensures session == AfterFlush(old(session), fault)
      ensures ok == Flush(old(session.codec), old(session.index), fault).ok
      ensures |scratch.books.live|
           == |old(scratch.books.live)| + if LosesBuffer(old(session.codec), fault, mux) then 1 else 0
    {
      var todo := fault;
      while true
        invariant encodedFramesQueue.Valid() && encodedFramesQueue.pushed == History(before, session, bases)
        invariant encodedFramesQueue.popped == old(encodedFramesQueue.popped)
        invariant AfterFlush(session, todo) == AfterFlush(old(session), fault)
        invariant Flush(session.codec, session.index, todo).ok
               == Flush(old(session.codec), old(session.index), fault).ok
        invariant LosesBuffer(session.codec, todo, mux) == LosesBuffer(old(session.codec), fault, mux)
        invariant |scratch.books.live| == |old(scratch.books.live)|
        decreases |session.codec.pending|
      {
        FlushRound(session, todo);
        // avcodec_receive_packet
        if todo == ReceiveFails(0) {
          return false;
        }
        if session.codec.pending == [] {
          break;
        }
        ghost var codec := session.codec;
        var packet := session.codec.pending[0];
        var received := Receive(session.codec);
        var remuxed := RemuxVideo(scratch, encodedFramesQueue, packet.payload, session.index, bases,
                                  if todo == WriteFails(0) then Some(mux) else None);
        HistoryGrows(before, session, bases, received, Handled(packet, session.index, remuxed));
        session := session.(codec := received, handled := session.handled + [Handled(packet, session.index, remuxed)]);
        if !remuxed {
          return false;
        }
        LosesRound(codec, todo, mux);
        todo := Later(todo);
      }
      return true;
    }

    /** `Write` of an open encoder; `choice` is what the codec and the remuxing do. */
    method Encode(choice: Choice, mux: RemuxStage) returns (ok: bool)
      requires encodedFramesQueue.Valid() && encodedFramesQueue.pushed == History(before, session, bases)
      requires May(session, choice)
      modifies this`session, encodedFramesQueue, scratch
      ensures encodedFramesQueue.Valid() && encodedFramesQueue.pushed == History(before, session, bases)
      ensures encodedFramesQueue.popped == old(encodedFramesQueue.popped)
      ensures session == CodecContract.Write(old(session), choice) && ok == Succeeds(old(session), choice)
      ensures |scratch.books.live|
           == |old(scratch.books.live)| + if WriteLoses(old(session), choice, mux) then 1 else 0
    {
      if choice.NotWritable? {
        return false;
      }
      // the frame gets the count as its time stamp, and is offered to the codec
      session := session.(index := session.index + 1, codec := Send(session.codec, choice.answer));
      if !choice.answer.Accepts? {
        return false;
      }
      ok := FlushPackets(choice.fault, mux);
    }

    /** Encodes one frame, if open. */
    method Write(choice: Choice, mux: RemuxStage) returns (ok: bool)
      requires Valid()
      requires mIsOpen ==> May(session, choice)
      modifies this`session, encodedFramesQueue, scratch
      ensures Valid()
      ensures encodedFramesQueue.popped == old(encodedFramesQueue.popped)
      ensures !old(mIsOpen) ==> !ok && unchanged(this, encodedFramesQueue, scratch)
      ensures old(mIsOpen) ==>
                session == CodecContract.Write(old(session), choice) && ok == Succeeds(old(session), choice)
      ensures |scratch.books.live|
           == |old(scratch.books.live)| + if old(mIsOpen) && WriteLoses(old(session), choice, mux) then 1 else 0
    {
      if !mIsOpen {
        return false;
      }
      ok := Encode(choice, mux);
    }

    /** The first half of `Close`: drains the codec and pushes the closing buffer. */
    method Finish(answer: Answer, fault: Fault, mux: RemuxStage, bufferFails: bool)
      requires encodedFramesQueue.Valid() && encodedFramesQueue.pushed == History(before, session, bases)
      requires MaySend(session.codec, answer)
      modifies this`session, encodedFramesQueue, scratch
      ensures encodedFramesQueue.Valid()
      ensures session == Drain(old(session), answer, fault)
      ensures encodedFramesQueue.pushed == Ending(before, session, bases, bufferFails)
      ensures |scratch.books.live|
           == |old(scratch.books.live)| + if DrainLoses(old(session), answer, fault, mux) then 1 else 0
    {
      session := session.(codec := SendNull(session.codec, answer));
      var flushed := FlushPackets(fault, mux);
      if !bufferFails {
        encodedFramesQueue.Push(ClosingBuffer);
      }
    }

    /** The second half of `Close`: releases what the struct holds, and resets it. */
    method ReleaseAll()
      requires library.books.live == leaked + Owned(mContext) && leaked !! Owned(mContext)
      requires WellKinded(mContext) && mContext.pb.Some?
      modifies this`mContext, this`mIsOpen, library
      ensures !mIsOpen && library.books.live == leaked && mContext == EMPTY_CONTEXT
    {
      ReleaseContext(library, mContext, leaked);
      mContext := EMPTY_CONTEXT;
      mIsOpen := false;
    }

    /** Ends the session and releases everything; does nothing when not open. */
    method Close(answer: Answer, fault: Fault, mux: RemuxStage, bufferFails: bool)
      requires Valid()
      requires mIsOpen ==> MaySend(session.codec, answer)
      modifies this`mContext, this`mIsOpen, this`session, library, encodedFramesQueue, scratch
      ensures Valid() && !mIsOpen && library.books.live == leaked
      ensures old(mIsOpen) ==> session == Drain(old(session), answer, fault)
      ensures old(mIsOpen) ==> encodedFramesQueue.pushed == Ending(before, session, bases, bufferFails)
      ensures !old(mIsOpen) ==> unchanged(this, library, scratch, encodedFramesQueue)
      ensures mContext == if old(mIsOpen) then EMPTY_CONTEXT else old(mContext)
      ensures |scratch.books.live|
           == |old(scratch.books.live)| + if old(mIsOpen) && DrainLoses(old(session), answer, fault, mux) then 1 else 0
    {
      if mIsOpen {
        Finish(answer, fault, mux, bufferFails);
        ReleaseAll();
      }
    }

    /**
     The block of library calls in `Open`; it stops at the first failure, with what it has
     acquired.  The fields behind that call keep what they held.
     */
    method SetUp(preset: bool, failing: set<Stage>) returns (ok: bool, ghost acquired: Context)
      requires library.books.live == leaked && !mIsOpen
      modifies this`mContext, this`mIsOpen, library
      ensures library.books.live == leaked + Owned(acquired) && leaked !! Owned(acquired)
      ensures WellKinded(acquired) && AcquiredBy(acquired, Passed(preset, failing))
      ensures mContext == Overwritten(old(mContext), acquired, Passed(preset, failing))
      ensures mIsOpen == ok
      ensures ok <==> Passed(preset, failing) == CALLS
    {
      var context;
      context, acquired, ok := PrepareStream(library, mContext, preset, failing);
      mContext, mIsOpen := context, ok;
    }

    /**
     `Open` of a closed encoder.  After a failure nothing is released, as `Close` does
     nothing: what was acquired stays live, and the next Open forgets it.
     */
    method Begin(preset: bool, failing: set<Stage>, times: ValidStream) returns (ok: bool, ghost acquired: Context)
      requires Valid() && !mIsOpen
      modifies this`mContext, this`mIsOpen, this`session, this`bases, this`before, this`leaked
      modifies library, encodedFramesQueue, scratch
      ensures Valid() && mIsOpen == ok
      ensures ok <==> Passed(preset, failing) == CALLS
      ensures AcquiredBy(acquired, Passed(preset, failing)) && old(leaked) !! Owned(acquired)
      ensures mContext == Overwritten(old(mContext), acquired, Passed(preset, failing))
      ensures if ok then leaked == old(leaked) else leaked == old(leaked) + Owned(acquired)
      ensures leaked == {} <==> old(leaked) == {} && !StopsBetween(preset, failing)
      ensures session == if ok then BEGUN else old(session)
      ensures encodedFramesQueue.pushed == old(encodedFramesQueue.pushed)
      ensures if ok then before == encodedFramesQueue.pushed && bases == times else bases == old(bases)
      ensures |scratch.books.live| == |old(scratch.books.live)|
    {
      ok, acquired := SetUp(preset, failing);
      assert leaked == old(leaked);
      if ok {
        session, bases, before := BEGUN, times, encodedFramesQueue.pushed;
        HistoryBegins(before, bases);
        return true, acquired;
      }
      OwnedIsNothing(acquired, Passed(preset, failing));
      EmptyUnion(leaked, Owned(acquired));
      leaked := leaked + Owned(acquired);
      Close(Fails, NoFault, MuxFormat, false);
    }

    /** Closes a previous session, then begins another. */
    method Open(preset: bool, failing: set<Stage>, times: ValidStream,
          answer: Answer, fault: Fault, mux: RemuxStage, bufferFails: bool)
      returns (ok: bool, ghost acquired: Context)
      requires Valid()
      requires mIsOpen ==> MaySend(session.codec, answer)
      modifies this`mContext, this`mIsOpen, this`session, this`bases, this`before, this`leaked
      modifies library, encodedFramesQueue, scratch
      ensures Valid() && mIsOpen == ok
      ensures ok <==> Passed(preset, failing) == CALLS
      ensures AcquiredBy(acquired, Passed(preset, failing)) && old(leaked) !! Owned(acquired)
      ensures var previous := if old(mIsOpen) then EMPTY_CONTEXT else old(mContext);
              mContext == Overwritten(previous, acquired, Passed(preset, failing))
      ensures if ok then leaked == old(leaked) else leaked == old(leaked) + Owned(acquired)
      ensures leaked == {} <==> old(leaked) == {} && !StopsBetween(preset, failing)
      ensures session == if ok then BEGUN else if old(mIsOpen) then Drain(old(session), answer, fault) else old(session)
      ensures encodedFramesQueue.pushed
           == if old(mIsOpen) then
                Ending(old(before), Drain(old(session), answer, fault), old(bases), bufferFails)
              else old(encodedFramesQueue.pushed)
      ensures if ok then before == encodedFramesQueue.pushed && bases == times else bases == old(bases)
      ensures |scratch.books.live|
           == |old(scratch.books.live)| + if old(mIsOpen) && DrainLoses(old(session), answer, fault, mux) then 1 else 0
    {
      Close(answer, fault, mux, bufferFails);
      assert leaked == old(leaked);
      ok, acquired := Begin(preset, failing, times);
    }
  }

  // ---------------------------------------------------------------------------
  // The history of a session
  // ---------------------------------------------------------------------------

  /** The frame counts under which the packets were received never fall, closing included. */
  lemma SessionCountsRise(ws: seq<Choice>, answer: Answer, fault: Fault)
    requires Legal(BEGUN, ws) && MaySend(Writes(BEGUN, ws).codec, answer)
    ensures CountsRise(Drain(Writes(BEGUN, ws), answer, fault).handled, Writes(BEGUN, ws).index)
  {
    RunCountsRise(BEGUN, ws);
    var t := Writes(BEGUN, ws);
    CountsAppend(t.(codec := SendNull(t.codec, answer)), fault);
  }

  /** When nothing fails in a session, every packet is received and written. */
  lemma AllWritten(ws: seq<Choice>, rest: seq<Packet>)
    requires Legal(BEGUN, ws) && Failures(BEGUN, ws) == 0
    requires MaySend(Writes(BEGUN, ws).codec, Accepts(rest))
    ensures var s := Drain(Writes(BEGUN, ws), Accepts(rest), NoFault);
            Written(s.handled) == s.handled && Packets(s.handled) == Writes(BEGUN, ws).codec.produced + rest
  {
    ErrorFreeRunWritesAll(ws, rest);
    RunClean(BEGUN, ws);
    var t := Writes(BEGUN, ws);
    var c := SendNull(t.codec, Accepts(rest));
    FlushMeans(c, t.index, NoFault);
    UnwrittenAppend(t.handled, Flush(c, t.index, NoFault).handled);
    WrittenAll(Drain(t, Accepts(rest), NoFault).handled);
  }

  lemma {:induction false} ChunkAt(hs: seq<Handled>, bases: ValidStream, i: nat)
    requires i < |hs|
    ensures Packets(hs)[i] == hs[i].packet
    ensures Chunks(hs, bases)[i] == Fragment(Remuxed(hs[i].packet.payload, hs[i].index, bases))
  {
    if i > 0 {
      ChunkAt(hs[1..], bases, i - 1);
    }
  }

  /**
   `r` is what is pushed for a packet: the same data, for the only stream, at the time of
   that many ticks; `tick` is a frame's time in the stream's ticks.
   */
  predicate RemuxedFrom(h: Handled, r: Packet, tick: int, bases: ValidStream) {
    && r.stream == 0 && r.payload == h.packet.payload && r.pos == -1
    && r.pts == r.dts && SameTime(h.index * tick, r.pts, bases)
    && (if tick > 0 then SameTime(tick, r.duration, bases) else r.duration == tick)
  }

  /** Every fragment, field by field. */
  lemma FragmentFields(hs: seq<Handled>, bases: ValidStream, i: nat)
    requires i < |hs|
    ensures SameTime(1, Ticks(1, bases), bases)
    ensures Chunks(hs, bases)[i].Fragment? && RemuxedFrom(hs[i], Chunks(hs, bases)[i].packet, Ticks(1, bases), bases)
  {
    ChunkAt(hs, bases, i);
    TicksAreNearest(1, bases);
    TicksAreNearest(hs[i].index * Ticks(1, bases), bases);
    TicksAreNearest(Ticks(1, bases), bases);
  }

  lemma {:induction false} WrittenAmong(hs: seq<Handled>)
    ensures forall h <- Written(hs) :: h in hs
  {
    if hs != [] {
      WrittenAmong(hs[1..]);
      assert forall h <- hs[1..] :: h in hs;
    }
  }

  lemma RisesWith(first: Handled, rest: seq<Handled>, index: nat)
    requires CountsRise(rest, index) && first.index <= index
    requires forall h <- rest :: first.index <= h.index
    ensures CountsRise([first] + rest, index)
  {
    var all := [first] + rest;
    forall i, j | 0 <= i <= j < |all| ensures all[i].index <= all[j].index {
      if i == 0 && j > 0 {
        assert rest[j - 1] in rest;
      }
    }
  }

  lemma RisesBehind(hs: seq<Handled>, index: nat)
    requires hs != [] && CountsRise(hs, index)
    ensures CountsRise(hs[1..], index) && hs[0].index <= index
    ensures forall h <- hs[1..] :: hs[0].index <= h.index
  {
    forall h | h in hs[1..] ensures hs[0].index <= h.index {
      var i :| 0 <= i < |hs[1..]| && hs[1..][i] == h;
      assert hs[i + 1] == h;
    }
  }

  /** The written packets keep the order of those received. */
  lemma {:induction false} WrittenRise(hs: seq<Handled>, index: nat)
    requires CountsRise(hs, index)
    ensures CountsRise(Written(hs), index)
  {
    if hs != [] {
      RisesBehind(hs, index);
      WrittenRise(hs[1..], index);
      WrittenAmong(hs[1..]);
      if hs[0].written {
        RisesWith(hs[0], Written(hs[1..]), index);
      }
    }
  }

  /** In every session, whatever fails, the times of the fragments do not fall. */
  lemma FragmentTimesRise(ws: seq<Choice>, answer: Answer, fault: Fault, bases: ValidStream, i: nat, j: nat)
    requires Legal(BEGUN, ws) && MaySend(Writes(BEGUN, ws).codec, answer)
    requires i <= j < |Chunks(Written(Drain(Writes(BEGUN, ws), answer, fault).handled), bases)|
    ensures var r := Chunks(Written(Drain(Writes(BEGUN, ws), answer, fault).handled), bases);
            && r[i].Fragment? && r[j].Fragment?
            && r[i].packet.pts == r[i].packet.dts <= r[j].packet.dts
  {
    SessionCountsRise(ws, answer, fault);
    var hs := Written(Drain(Writes(BEGUN, ws), answer, fault).handled);
    WrittenRise(Drain(Writes(BEGUN, ws), answer, fault).handled, Writes(BEGUN, ws).index);
    ChunkAt(hs, bases, i);
    ChunkAt(hs, bases, j);
    TwiceRescaledMonotone(hs[i].index, hs[j].index, bases);
  }

  // ---------------------------------------------------------------------------
  // The whole life of an encoder object
  // ---------------------------------------------------------------------------

  datatype Call =
    | OpenCall(preset: bool, failing: set<Stage>, times: ValidStream,
               answer: Answer, fault: Fault, mux: RemuxStage, bufferFails: bool)
    | WriteCall(choice: Choice, mux: RemuxStage)
    | CloseCall(answer: Answer, fault: Fault, mux: RemuxStage, bufferFails: bool)

  /** An Open that fails after its first library call. */
  predicate Leaks(c: Call) {
    c.OpenCall? && StopsBetween(c.preset, c.failing)
  }

  /**
   An encoder between two calls: whether it is open, its session and time bases, and the
   queue's history, up to the opening while it is open.
   */
  datatype Phase = Phase(open: bool, session: Session, bases: ValidStream, before: seq<Chunk>)

  const NEW: Phase := Phase(false, BEGUN, SAME_BASES, [])

  /** The queue's history. */
  function Pushed(p: Phase): seq<Chunk> {
    if p.open then History(p.before, p.session, p.bases) else p.before
  }

  function Ended(p: Phase, answer: Answer, fault: Fault, bufferFails: bool): Phase {
    if p.open then
      var s := Drain(p.session, Possible(p.session.codec, answer), fault);
      Phase(false, s, p.bases, Ending(p.before, s, p.bases, bufferFails))
    else p
  }

  /** The frame as the codec may answer it. */
  function PossibleChoice(s: Session, w: Choice): (r: Choice)
    ensures May(s, r)
  {
    if w.Offered? then w.(answer := Possible(s.codec, w.answer)) else w
  }

  function Next(p: Phase, c: Call): Phase {
    match c
    case OpenCall(preset, failing, times, a, f, m, b) =>
      var q := Ended(p, a, f, b);
      if Passed(preset, failing) == CALLS then Phase(true, BEGUN, times, q.before) else q
    case WriteCall(w, m) =>
      if p.open then p.(session := Write(p.session, PossibleChoice(p.session, w))) else p
    case CloseCall(a, f, m, b) => Ended(p, a, f, b)
  }

  /** The call's flush loses a buffer. */
  predicate Loses(p: Phase, c: Call) {
    && p.open
    && match c
       case OpenCall(preset, failing, times, a, f, m, b) => DrainLoses(p.session, Possible(p.session.codec, a), f, m)
       case WriteCall(w, m) => WriteLoses(p.session, PossibleChoice(p.session, w), m)
       case CloseCall(a, f, m, b) => DrainLoses(p.session, Possible(p.session.codec, a), f, m)
  }

  /** Where the calls lead from `p`. */
  function After(p: Phase, calls: seq<Call>): Phase {
    if calls == [] then p
    else
      var n := |calls| - 1;
      Next(After(p, calls[..n]), calls[n])
  }

  /** How many flushes of the calls lose a buffer. */
  function Lost(calls: seq<Call>): nat {
    if calls == [] then 0
    else
      var n := |calls| - 1;
      Lost(calls[..n]) + if Loses(After(NEW, calls[..n]), calls[n]) then 1 else 0
  }

  /** A call of Open. */
  method PerformOpen(encoder: VideoStreamEncoder, call: Call)
    requires encoder.Valid() && call.OpenCall?
    modifies encoder, encoder.library, encoder.encodedFramesQueue, encoder.scratch
    ensures encoder.Valid()
    ensures encoder.leaked == {} <==> old(encoder.leaked) == {} && !Leaks(call)
    ensures var p := old(encoder.State());
            && encoder.State() == Next(p, call)
            && encoder.encodedFramesQueue.pushed == Pushed(Next(p, call))
            && |encoder.scratch.books.live| == |old(encoder.scratch.books.live)| + if Loses(p, call) then 1 else 0
  {
    var answer := Possible(encoder.session.codec, call.answer);
    var ok, acquired :=
      encoder.Open(call.preset, call.failing, call.times, answer, call.fault, call.mux, call.bufferFails);
  }

  /** One call of the list. */
  method Perform(encoder: VideoStreamEncoder, call: Call)
    requires encoder.Valid()
    modifies encoder, encoder.library, encoder.encodedFramesQueue, encoder.scratch
    ensures encoder.Valid()
    ensures encoder.leaked == {} <==> old(encoder.leaked) == {} && !Leaks(call)
    ensures var p := old(encoder.State());
            && encoder.State() == Next(p, call)
            && encoder.encodedFramesQueue.pushed == Pushed(Next(p, call))
            && |encoder.scratch.books.live| == |old(encoder.scratch.books.live)| + if Loses(p, call) then 1 else 0
  {
    var codec := encoder.session.codec;
    match call
    case OpenCall(preset, failing, times, a, f, m, b) =>
      PerformOpen(encoder, call);
    case WriteCall(w, m) =>
      var ok := encoder.Write(PossibleChoice(encoder.session, w), m);
    case CloseCall(a, f, m, b) =>
      encoder.Close(Possible(codec, a), f, m, b);
  }

  predicate NoneLeaks(calls: seq<Call>) {
    forall i | 0 <= i < |calls| :: !Leaks(calls[i])
  }

  lemma OneCallMore(calls: seq<Call>, c: Call)
    ensures NoneLeaks(calls + [c]) <==> NoneLeaks(calls) && !Leaks(c)
    ensures After(NEW, calls + [c]) == Next(After(NEW, calls), c)
    ensures Lost(calls + [c]) == Lost(calls) + if Loses(After(NEW, calls), c) then 1 else 0
  {
    var all := calls + [c];
    assert all[..|calls|] == calls;
    if NoneLeaks(all) {
      assert forall i | 0 <= i < |calls| :: calls[i] == all[i];
      assert all[|calls|] == c;
    }
  }

  lemma FirstCallsMore(calls: seq<Call>, i: nat)
    requires i < |calls|
    ensures NoneLeaks(calls[..i + 1]) <==> NoneLeaks(calls[..i]) && !Leaks(calls[i])
    ensures After(NEW, calls[..i + 1]) == Next(After(NEW, calls[..i]), calls[i])
    ensures Lost(calls[..i + 1]) == Lost(calls[..i]) + if Loses(After(NEW, calls[..i]), calls[i]) then 1 else 0
  {
    assert calls[..i + 1] == calls[..i] + [calls[i]];
    OneCallMore(calls[..i], calls[i]);
  }

  /** Call number `i`, after those before it. */
  method PerformNext(encoder: VideoStreamEncoder, calls: seq<Call>, i: nat)
    requires i < |calls|
    requires encoder.Valid() && (encoder.leaked == {} <==> NoneLeaks(calls[..i]))
    requires encoder.State() == After(NEW, calls[..i]) && |encoder.scratch.books.live| == Lost(calls[..i])
    modifies encoder, encoder.library, encoder.encodedFramesQueue, encoder.scratch
    ensures encoder.Valid() && (encoder.leaked == {} <==> NoneLeaks(calls[..i + 1]))
    ensures encoder.State() == After(NEW, calls[..i + 1]) && |encoder.scratch.books.live| == Lost(calls[..i + 1])
  {
    FirstCallsMore(calls, i);
    Perform(encoder, calls[i]);
  }

  /** All calls of the list, on a new encoder. */
  method PerformAll(encoder: VideoStreamEncoder, calls: seq<Call>)
    requires encoder.Valid() && encoder.leaked == {} && encoder.scratch.books.live == {}
    requires encoder.State() == NEW
    modifies encoder, encoder.library, encoder.encodedFramesQueue, encoder.scratch
    ensures encoder.Valid() && (encoder.leaked == {} <==> NoneLeaks(calls))
    ensures encoder.State() == After(NEW, calls)
    ensures encoder.encodedFramesQueue.pushed == Pushed(After(NEW, calls))
    ensures |encoder.scratch.books.live| == Lost(calls)
  {
    for i := 0 to |calls|
      invariant encoder.Valid() && (encoder.leaked == {} <==> NoneLeaks(calls[..i]))
      invariant encoder.State() == After(NEW, calls[..i])
      invariant |encoder.scratch.books.live| == Lost(calls[..i])
    {
      PerformNext(encoder, calls, i);
    }
    assert calls[..|calls|] == calls;
  }

  function WriteCalls(ws: seq<Choice>, mux: RemuxStage): (calls: seq<Call>)
    ensures |calls| == |ws|
    ensures forall i | 0 <= i < |ws| :: calls[i] == WriteCall(ws[i], mux)
  {
    seq(|ws|, i requires 0 <= i < |ws| => WriteCall(ws[i], mux))
  }

  lemma AfterOne(p: Phase, calls: seq<Call>, c: Call)
    ensures After(p, calls + [c]) == Next(After(p, calls), c)
  {
    assert (calls + [c])[..|calls|] == calls;
  }

  lemma WriteCallsMore(ws: seq<Choice>, w: Choice, mux: RemuxStage)
    ensures WriteCalls(ws + [w], mux) == WriteCalls(ws, mux) + [WriteCall(w, mux)]
  {
  }

  /** Writes the codec may answer so are the session's Writes. */
  lemma {:induction false} AfterWrites(p: Phase, ws: seq<Choice>, mux: RemuxStage)
    requires p.open && Legal(p.session, ws)
    ensures After(p, WriteCalls(ws, mux)) == p.(session := Writes(p.session, ws))
    decreases |ws|
  {
    if ws != [] {
      var n := |ws| - 1;
      assert ws == ws[..n] + [ws[n]];
      LastWrite(p.session, ws[..n], ws[n]);
      AfterWrites(p, ws[..n], mux);
      WriteCallsMore(ws[..n], ws[n], mux);
      AfterOne(p, WriteCalls(ws[..n], mux), WriteCall(ws[n], mux));
    }
  }

  /**
   A session in which nothing fails, whatever came before it: what was pushed since its
   opening is one fragment for each packet the codec produced, in order, with the packet's
   data and the time of its frame's number, and then one closing buffer.  The packets of
   the null frame have the number of the last frame.
   */
  lemma ErrorFreeHistory(p: Phase, ws: seq<Choice>, rest: seq<Packet>, mux: RemuxStage)
    returns (fragments: seq<Chunk>, tick: int)
    requires p.open && p.session == BEGUN
    requires Legal(BEGUN, ws) && Failures(BEGUN, ws) == 0
    ensures var q := After(p, WriteCalls(ws, mux) + [CloseCall(Accepts(rest), NoFault, mux, false)]);
            !q.open && Pushed(q) == p.before + fragments + [ClosingBuffer]
    ensures var made := Made(ws, 0) + UnderCount(rest, |ws|);
            && Packets(made) == Writes(BEGUN, ws).codec.produced + rest
            && |fragments| == |made| && SameTime(1, tick, p.bases)
            && forall i | 0 <= i < |made| ::
                 fragments[i].Fragment? && RemuxedFrom(made[i], fragments[i].packet, tick, p.bases)
  {
    ErrorFreeHandled(p.session, ws, rest);
    var s := Drain(Writes(BEGUN, ws), Accepts(rest), NoFault);
    AfterWrites(p, ws, mux);
    AfterOne(p, WriteCalls(ws, mux), CloseCall(Accepts(rest), NoFault, mux, false));
    fragments, tick := Chunks(Written(s.handled), p.bases), Ticks(1, p.bases);
    AllWritten(ws, rest);
    TicksAreNearest(1, p.bases);
    forall i | 0 <= i < |s.handled|
      ensures fragments[i].Fragment? && RemuxedFrom(s.handled[i], fragments[i].packet, tick, p.bases)
    {
      FragmentFields(s.handled, p.bases, i);
    }
  }

  lemma ReleasedOnceAll(b: Books)
    requires Sound(b)
    ensures forall h :: multiset(b.released)[h] <= 1 && (h in b.released ==> h !in b.live)
  {
    forall h ensures multiset(b.released)[h] <= 1 && (h in b.released ==> h !in b.live) {
      ReleasedAtMostOnce(b, h);
    }
  }

  /**
   From the constructor to the destructor, for every list of calls and whatever fails in
   them: the encoder's handles stay live exactly when some Open failed after its first
   library call; the remuxer's live ones are as many as the flushes that lose a buffer; so
   nothing stays live exactly when there is no such Open and no such flush.  Nothing is
   released twice.  `history` is all that was pushed to the queue.
   */
  method Lifetime(calls: seq<Call>, answer: Answer, fault: Fault, mux: RemuxStage, bufferFails: bool)
    returns (books: Books, remuxer: Books, ghost history: seq<Chunk>)
    ensures history == Pushed(After(NEW, calls + [CloseCall(answer, fault, mux, bufferFails)]))
    ensures books.live == {} <==> NoneLeaks(calls)
    ensures |remuxer.live| == Lost(calls + [CloseCall(answer, fault, mux, bufferFails)])
    ensures books.live == {} && remuxer.live == {} <==>
            NoneLeaks(calls) && Lost(calls + [CloseCall(answer, fault, mux, bufferFails)]) == 0
    ensures forall h :: multiset(books.released)[h] <= 1 && (h in books.released ==> h !in books.live)
    ensures forall h :: multiset(remuxer.released)[h] <= 1 && (h in remuxer.released ==> h !in remuxer.live)
  {
    var library := new Library();
    var encoder := new VideoStreamEncoder(library);
    var last := CloseCall(answer, fault, mux, bufferFails);
    PerformAll(encoder, calls + [last]);
    OneCallMore(calls, last);
    books, remuxer := library.books, encoder.scratch.books;
    history := encoder.encodedFramesQueue.pushed;
    ReleasedOnceAll(books);
    ReleasedOnceAll(remuxer);
  }
}
