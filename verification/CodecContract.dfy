/**
 The send/receive contract of an opened FFmpeg encoder, and the two encoder classes' way of
 using it: every `Write` offers one frame and then receives packets until the codec has
 none, and `Close` offers the null frame and receives what is left.

 What the codec and the output decide is a parameter of each operation.
 */
module CodecContract {
  import opened Bytes
  import Remux

  type Packet = Remux.Packet

  /**
   An opened codec context.  `pending` are the packets ready to be received; `refusing` says
   that a frame was answered with EAGAIN and nothing was received since; `draining` that the
   null frame was accepted.  `produced` is the history of all packets made ready.
   */
  datatype Codec = Codec(pending: seq<Packet>, refusing: bool, draining: bool, produced: seq<Packet>)

  const OPENED: Codec := Codec([], false, false, [])

  /** The answer to a frame: accepted, with the packets it makes ready; EAGAIN; or an error. */
  datatype Answer = Accepts(packets: seq<Packet>) | Refuses | Fails

  /**
   EAGAIN only when not all output was received, and then again until some is; nothing is
   accepted after the null frame.
   */
  predicate MaySend(c: Codec, a: Answer) {
    match a
    case Accepts(ps) => !c.refusing && !c.draining
    case Refuses => c.pending != []
    case Fails => true
  }

  /** The answer, when the codec may give it; otherwise an error, which it always may. */
  function Possible(c: Codec, a: Answer): (r: Answer)
    ensures MaySend(c, r)
  {
    if MaySend(c, a) then a else Fails
  }

  /** Never EAGAIN on both ends. */
  predicate Coherent(c: Codec) {
    c.refusing ==> c.pending != []
  }

  function Send(c: Codec, a: Answer): Codec
    requires MaySend(c, a)
  {
    match a
    case Accepts(ps) => c.(pending := c.pending + ps, produced := c.produced + ps)
    case Refuses => c.(refusing := true)
    case Fails => c
  }

  /** Sending the null frame: accepting it makes the rest of the packets ready. */
  function SendNull(c: Codec, a: Answer): Codec
    requires MaySend(c, a)
  {
    if a.Accepts? then Send(c, a).(draining := true) else Send(c, a)
  }

  function Receive(c: Codec): Codec
    requires c.pending != []
  {
    c.(pending := c.pending[1..], refusing := false)
  }

  // ---------------------------------------------------------------------------
  // FlushPackets
  // ---------------------------------------------------------------------------

  /**
   The first thing that goes wrong in `FlushPackets`: a receive that returns an error, or
   writing a received packet, after the given number of packets.
   */
  datatype Fault = NoFault | ReceiveFails(after: nat) | WriteFails(after: nat)

  /** A received packet, the frame count at that time, and whether it was written to the output. */
  datatype Handled = Handled(packet: Packet, index: nat, written: bool)

  datatype Flushed = Flushed(codec: Codec, handled: seq<Handled>, ok: bool)

  function Later(f: Fault): Fault {
    match f
    case ReceiveFails(n) => if n == 0 then f else ReceiveFails(n - 1)
    case WriteFails(n) => if n == 0 then f else WriteFails(n - 1)
    case NoFault => NoFault
  }

  /** One round of the loop after another. */
  function Flush(c: Codec, index: nat, fault: Fault): Flushed
    decreases |c.pending|
  {
    if fault == ReceiveFails(0) then Flushed(c, [], false)
    else if c.pending == [] then Flushed(c, [], true)
    else if fault == WriteFails(0) then Flushed(Receive(c), [Handled(c.pending[0], index, false)], false)
    else
      var rest := Flush(Receive(c), index, Later(fault));
      rest.(handled := [Handled(c.pending[0], index, true)] + rest.handled)
  }

  function Packets(hs: seq<Handled>): (r: seq<Packet>)
    ensures |r| == |hs|
  {
    if hs == [] then [] else [hs[0].packet] + Packets(hs[1..])
  }

  /** The packets that reached the output. */
  function Written(hs: seq<Handled>): seq<Handled> {
    if hs == [] then []
    else (if hs[0].written then [hs[0]] else []) + Written(hs[1..])
  }

  function Unwritten(hs: seq<Handled>): nat {
    if hs == [] then 0 else (if hs[0].written then 0 else 1) + Unwritten(hs[1..])
  }

  lemma {:induction false} PacketsAppend(a: seq<Handled>, b: seq<Handled>)
    ensures Packets(a + b) == Packets(a) + Packets(b)
  {
    if a == [] {
      assert a + b == b;
    } else {
      TailOfSum(a, b);
      PacketsAppend(a[1..], b);
      Regroup([a[0].packet], Packets(a[1..]), Packets(b));
    }
  }

  lemma {:induction false} WrittenAppend(a: seq<Handled>, b: seq<Handled>)
    ensures Written(a + b) == Written(a) + Written(b)
  {
    if a == [] {
      assert a + b == b;
    } else {
      TailOfSum(a, b);
      WrittenAppend(a[1..], b);
      Regroup(if a[0].written then [a[0]] else [], Written(a[1..]), Written(b));
    }
  }

  lemma {:induction false} UnwrittenAppend(a: seq<Handled>, b: seq<Handled>)
    ensures Unwritten(a + b) == Unwritten(a) + Unwritten(b)
  {
    if a == [] {
      assert a + b == b;
    } else {
      TailOfSum(a, b);
      UnwrittenAppend(a[1..], b);
    }
  }

  /** The fault strikes before the loop finds the codec empty. */
  predicate Strikes(f: Fault, waiting: nat) {
    match f
    case NoFault => false
    case ReceiveFails(n) => n <= waiting
    case WriteFails(n) => n < waiting
  }

  /** Flushing takes packets from the front, in order, and leaves the others as they were. */
  lemma {:induction false} FlushKeepsOrder(c: Codec, index: nat, fault: Fault)
    ensures var r := Flush(c, index, fault);
            && c.pending == Packets(r.handled) + r.codec.pending
            && r.codec == c.(pending := r.codec.pending, refusing := c.refusing && r.handled == [])
    decreases |c.pending|
  {
    if fault == ReceiveFails(0) || c.pending == [] {
    } else if fault == WriteFails(0) {
      assert c.pending == [c.pending[0]] + c.pending[1..];
    } else {
      FlushKeepsOrder(Receive(c), index, Later(fault));
      var rest := Flush(Receive(c), index, Later(fault));
      assert c.pending == [c.pending[0]] + c.pending[1..];
      Regroup([c.pending[0]], Packets(rest.handled), rest.codec.pending);
      FirstHandled(Handled(c.pending[0], index, true), rest.handled);
    }
  }

  lemma FirstHandled(h: Handled, hs: seq<Handled>)
    ensures Packets([h] + hs) == [h.packet] + Packets(hs)
    ensures Unwritten([h] + hs) == (if h.written then 0 else 1) + Unwritten(hs)
  {
    assert ([h] + hs)[1..] == hs;
  }

  /**
   Without a fault all packets are taken and written; a fault leaves those behind it, and
   loses the one whose writing failed.
   */
  lemma {:induction false} FlushCounts(c: Codec, index: nat, fault: Fault)
    ensures var r := Flush(c, index, fault);
            && (r.ok <==> !Strikes(fault, |c.pending|))
            && |r.handled| + |r.codec.pending| == |c.pending|
            && Unwritten(r.handled) == (if fault.WriteFails? && !r.ok then 1 else 0)
            && |r.handled| == (if r.ok then |c.pending| else if fault.WriteFails? then fault.after + 1 else fault.after)
    decreases |c.pending|
  {
    if fault == ReceiveFails(0) || c.pending == [] {
    } else if fault == WriteFails(0) {
      FirstHandled(Handled(c.pending[0], index, false), []);
    } else {
      FlushCounts(Receive(c), index, Later(fault));
      FirstHandled(Handled(c.pending[0], index, true), Flush(Receive(c), index, Later(fault)).handled);
    }
  }

  lemma FlushMeans(c: Codec, index: nat, fault: Fault)
    ensures var r := Flush(c, index, fault);
            && c.pending == Packets(r.handled) + r.codec.pending
            && r.codec == c.(pending := r.codec.pending, refusing := c.refusing && r.handled == [])
            && (r.ok <==> !Strikes(fault, |c.pending|))
            && (r.ok ==> r.codec.pending == [])
            && Unwritten(r.handled) == (if fault.WriteFails? && !r.ok then 1 else 0)
  {
    FlushKeepsOrder(c, index, fault);
    FlushCounts(c, index, fault);
  }

  /** Place by place: the packet that waited there, under the frame count; only the one whose writing fails is lost. */
  lemma {:induction false} FlushHandles(c: Codec, index: nat, fault: Fault)
    ensures var hs := Flush(c, index, fault).handled;
            && |hs| <= |c.pending|
            && forall i | 0 <= i < |hs| :: hs[i] == Handled(c.pending[i], index, fault != WriteFails(i))
    decreases |c.pending|
  {
    if fault != ReceiveFails(0) && c.pending != [] && fault != WriteFails(0) {
      FlushHandles(Receive(c), index, Later(fault));
    }
  }

  // ---------------------------------------------------------------------------
  // Write and Close
  // ---------------------------------------------------------------------------

  /** One opening of an encoder: its codec, its frame count, and the packets received so far. */
  datatype Session = Session(codec: Codec, index: nat, handled: seq<Handled>)

  const BEGUN: Session := Session(OPENED, 0, [])

  /** What happens inside a Write: the frame is not writable, or it is offered to the codec. */
  datatype Choice = NotWritable | Offered(answer: Answer, fault: Fault)

  predicate May(s: Session, w: Choice) {
    w.Offered? ==> MaySend(s.codec, w.answer)
  }

  /** The frame is offered, and the codec accepts it. */
  predicate Accepted(w: Choice) {
    w.Offered? && w.answer.Accepts?
  }

  /** Nothing goes wrong in a flush of that many packets. */
  predicate ComesBehind(f: Fault, waiting: nat) {
    match f
    case NoFault => true
    case ReceiveFails(n) => n > waiting
    case WriteFails(n) => n >= waiting
  }

  function AfterFlush(s: Session, fault: Fault): Session {
    var r := Flush(s.codec, s.index, fault);
    s.(codec := r.codec, handled := s.handled + r.handled)
  }

  /** One round of the loop: what is left to flush after it leads to the same end. */
  lemma FlushRound(s: Session, fault: Fault)
    ensures var r := Flush(s.codec, s.index, fault);
            if fault == ReceiveFails(0) || s.codec.pending == [] then
              AfterFlush(s, fault) == s && r.ok == (fault != ReceiveFails(0))
            else
              var h := Handled(s.codec.pending[0], s.index, fault != WriteFails(0));
              var next := s.(codec := Receive(s.codec), handled := s.handled + [h]);
              if fault == WriteFails(0) then AfterFlush(s, fault) == next && !r.ok
              else AfterFlush(s, fault) == AfterFlush(next, Later(fault))
                   && r.ok == Flush(next.codec, next.index, Later(fault)).ok
  {
    if fault == ReceiveFails(0) || s.codec.pending == [] {
      assert s.handled + [] == s.handled;
    } else if fault != WriteFails(0) {
      Regroup(s.handled, [Handled(s.codec.pending[0], s.index, true)],
              Flush(Receive(s.codec), s.index, Later(fault)).handled);
    }
  }

  function Write(s: Session, w: Choice): Session
    requires May(s, w)
  {
    if w.NotWritable? then s
    else
      var sent := s.(index := s.index + 1, codec := Send(s.codec, w.answer));
      if w.answer.Accepts? then AfterFlush(sent, w.fault) else sent
  }

  /** What Write returns. */
  predicate Succeeds(s: Session, w: Choice)
    requires May(s, w)
  {
    && w.Offered? && w.answer.Accepts?
    && Flush(Send(s.codec, w.answer), s.index + 1, w.fault).ok
  }

  /** A Write returns true exactly when its frame is accepted and its fault comes behind all that waits then. */
  lemma SucceedsIff(s: Session, w: Choice)
    requires May(s, w)
    ensures var waiting := |s.codec.pending| + if Accepted(w) then |w.answer.packets| else 0;
            Succeeds(s, w) <==> Accepted(w) && ComesBehind(w.fault, waiting)
  {
    if Accepted(w) {
      FlushCounts(Send(s.codec, w.answer), s.index + 1, w.fault);
    }
  }

  /** What a Write receives is stamped with the number of its frame, and added to what was received before. */
  lemma WriteStamps(s: Session, w: Choice)
    requires May(s, w)
    ensures s.handled <= Write(s, w).handled
    ensures w.NotWritable? ==> Write(s, w) == s
    ensures forall i | |s.handled| <= i < |Write(s, w).handled| :: Write(s, w).handled[i].index == s.index + 1
    ensures Write(s, w).index == s.index + if w.Offered? then 1 else 0
  {
    if Accepted(w) {
      FlushHandles(Send(s.codec, w.answer), s.index + 1, w.fault);
    }
  }

  /** The part of Close before the trailer; neither result is looked at. */
  function Drain(s: Session, answer: Answer, fault: Fault): Session
    requires MaySend(s.codec, answer)
  {
    AfterFlush(s.(codec := SendNull(s.codec, answer)), fault)
  }

  /** Every choice is one the codec allows when its turn comes. */
  predicate Legal(s: Session, ws: seq<Choice>)
    decreases |ws|
  {
    ws == [] || (May(s, ws[0]) && Legal(Write(s, ws[0]), ws[1..]))
  }

  function Writes(s: Session, ws: seq<Choice>): Session
    requires Legal(s, ws)
    decreases |ws|
  {
    if ws == [] then s else Writes(Write(s, ws[0]), ws[1..])
  }

  /** How many of the Writes return false. */
  function Failures(s: Session, ws: seq<Choice>): nat
    requires Legal(s, ws)
    decreases |ws|
  {
    if ws == [] then 0
    else (if Succeeds(s, ws[0]) then 0 else 1) + Failures(Write(s, ws[0]), ws[1..])
  }

  // ---------------------------------------------------------------------------
  // Invariants of a session
  // ---------------------------------------------------------------------------

  /** Every packet made ready was received once, in order, or is still waiting. */
  predicate Conserved(s: Session) {
    Coherent(s.codec) && s.codec.produced == Packets(s.handled) + s.codec.pending
  }

  /** Nothing waits and nothing was lost. */
  predicate Clean(s: Session) {
    s.codec.pending == [] && Unwritten(s.handled) == 0
  }

  lemma FlushConserves(s: Session, fault: Fault)
    requires Conserved(s)
    ensures Conserved(AfterFlush(s, fault))
  {
    FlushMeans(s.codec, s.index, fault);
    var r := Flush(s.codec, s.index, fault);
    PacketsAppend(s.handled, r.handled);
    assert Packets(s.handled) + (Packets(r.handled) + r.codec.pending)
        == (Packets(s.handled) + Packets(r.handled)) + r.codec.pending;
  }

  lemma SendConserves(s: Session, a: Answer)
    requires Conserved(s) && MaySend(s.codec, a)
    ensures Conserved(s.(codec := Send(s.codec, a)))
  {
    if a.Accepts? {
      assert Packets(s.handled) + s.codec.pending + a.packets == Packets(s.handled) + (s.codec.pending + a.packets);
    }
  }

  lemma WriteConserves(s: Session, w: Choice)
    requires Conserved(s) && May(s, w)
    ensures Conserved(Write(s, w))
  {
    if w.Offered? {
      SendConserves(s, w.answer);
      FlushConserves(s.(index := s.index + 1, codec := Send(s.codec, w.answer)), w.fault);
    }
  }

  lemma DrainConserves(s: Session, answer: Answer, fault: Fault)
    requires Conserved(s) && MaySend(s.codec, answer)
    ensures Conserved(Drain(s, answer, fault))
  {
    SendConserves(s, answer);
    FlushConserves(s.(codec := SendNull(s.codec, answer)), fault);
  }

  /** A Write that returns true leaves no packet behind and loses none. */
  lemma SuccessIsClean(s: Session, w: Choice)
    requires May(s, w) && Succeeds(s, w)
    ensures Write(s, w).codec.pending == []
    ensures Unwritten(Write(s, w).handled) == Unwritten(s.handled)
  {
    var c := Send(s.codec, w.answer);
    FlushMeans(c, s.index + 1, w.fault);
    UnwrittenAppend(s.handled, Flush(c, s.index + 1, w.fault).handled);
  }

  /** The frame is accepted, and writing a packet fails in the flush behind it. */
  predicate LosesPacket(s: Session, w: Choice)
    requires May(s, w)
  {
    && w.Offered? && w.answer.Accepts? && w.fault.WriteFails?
    && Strikes(w.fault, |Send(s.codec, w.answer).pending|)
  }

  /** Such a Write loses one packet and returns false; any other loses none. */
  lemma WriteLosesOne(s: Session, w: Choice)
    requires May(s, w)
    ensures Unwritten(Write(s, w).handled) == Unwritten(s.handled) + if LosesPacket(s, w) then 1 else 0
    ensures LosesPacket(s, w) ==> !Succeeds(s, w)
  {
    if w.Offered? && w.answer.Accepts? {
      var c := Send(s.codec, w.answer);
      FlushMeans(c, s.index + 1, w.fault);
      UnwrittenAppend(s.handled, Flush(c, s.index + 1, w.fault).handled);
    }
  }

  /** How many of the Writes lose a packet. */
  function Losses(s: Session, ws: seq<Choice>): nat
    requires Legal(s, ws)
    decreases |ws|
  {
    if ws == [] then 0
    else (if LosesPacket(s, ws[0]) then 1 else 0) + Losses(Write(s, ws[0]), ws[1..])
  }

  // ---------------------------------------------------------------------------
  // Main results, over every run
  // ---------------------------------------------------------------------------

  /**
   In every run, whatever fails: the packets the codec produced are those received, once
   each and in order, then those still waiting; and as many are lost as there are accepted
   Writes in which writing a packet fails, each of which returned false.
   */
  lemma {:induction false} RunConserves(s: Session, ws: seq<Choice>)
    requires Conserved(s) && Legal(s, ws)
    ensures Conserved(Writes(s, ws))
    ensures Unwritten(Writes(s, ws).handled) == Unwritten(s.handled) + Losses(s, ws)
    ensures Losses(s, ws) <= Failures(s, ws)
    decreases |ws|
  {
    if ws != [] {
      WriteConserves(s, ws[0]);
      WriteLosesOne(s, ws[0]);
      RunConserves(Write(s, ws[0]), ws[1..]);
    }
  }

  lemma {:induction false} RunClean(s: Session, ws: seq<Choice>)
    requires Conserved(s) && Clean(s) && Legal(s, ws) && Failures(s, ws) == 0
    ensures Conserved(Writes(s, ws)) && Clean(Writes(s, ws))
    decreases |ws|
  {
    if ws != [] {
      WriteConserves(s, ws[0]);
      SuccessIsClean(s, ws[0]);
      RunClean(Write(s, ws[0]), ws[1..]);
    }
  }

  /** While all Writes returned true, the codec never answers the next frame with EAGAIN. */
  lemma NeverRefused(ws: seq<Choice>)
    requires Legal(BEGUN, ws) && Failures(BEGUN, ws) == 0
    ensures !MaySend(Writes(BEGUN, ws).codec, Refuses)
    ensures !Writes(BEGUN, ws).codec.refusing
  {
    RunClean(BEGUN, ws);
  }

  /** The fault ends the loop with a packet still in the codec. */
  predicate Behind(f: Fault, waiting: nat) {
    match f
    case NoFault => false
    case ReceiveFails(n) => n < waiting
    case WriteFails(n) => n + 1 < waiting
  }

  lemma FlushLeaves(c: Codec, index: nat, fault: Fault)
    ensures Flush(c, index, fault).codec.pending != [] <==> Behind(fault, |c.pending|)
  {
    FlushCounts(c, index, fault);
  }

  /** Only an accepted frame changes what waits in the codec. */
  lemma WriteLeaves(s: Session, w: Choice)
    requires May(s, w)
    ensures if Accepted(w) then
              Write(s, w).codec.pending != [] <==> Behind(w.fault, |Send(s.codec, w.answer).pending|)
            else Write(s, w).codec.pending == s.codec.pending
  {
    if Accepted(w) {
      FlushLeaves(Send(s.codec, w.answer), s.index + 1, w.fault);
    }
  }

  lemma {:induction false} RestLeaves(s: Session, ws: seq<Choice>)
    requires Legal(s, ws) && forall w <- ws :: !Accepted(w)
    ensures Writes(s, ws).codec.pending == s.codec.pending
    decreases |ws|
  {
    if ws != [] {
      WriteLeaves(s, ws[0]);
      RestLeaves(Write(s, ws[0]), ws[1..]);
    }
  }

  lemma {:induction false} WritesThen(s: Session, ws: seq<Choice>, vs: seq<Choice>)
    requires Legal(s, ws + vs)
    ensures Legal(s, ws) && Legal(Writes(s, ws), vs)
    ensures Writes(s, ws + vs) == Writes(Writes(s, ws), vs)
    decreases |ws|
  {
    if ws == [] {
      assert ws + vs == vs;
    } else {
      TailOfSum(ws, vs);
      WritesThen(Write(s, ws[0]), ws[1..], vs);
    }
  }

  /**
   Exactly when the next frame may be refused: when the flush of the last accepted frame
   ended on a receive that failed before the packets were through, or on a write that
   failed before the last packet.
   */
  lemma RefusedIff(before: seq<Choice>, w: Choice, after: seq<Choice>)
    requires Legal(BEGUN, before + ([w] + after))
    requires Accepted(w) && forall v <- after :: !Accepted(v)
    ensures Legal(BEGUN, before) && MaySend(Writes(BEGUN, before).codec, w.answer)
    ensures MaySend(Writes(BEGUN, before + ([w] + after)).codec, Refuses) <==>
            Behind(w.fault, |Send(Writes(BEGUN, before).codec, w.answer).pending|)
  {
    WritesThen(BEGUN, before, [w] + after);
    var s := Writes(BEGUN, before);
    assert ([w] + after)[1..] == after;
    WriteLeaves(s, w);
    RestLeaves(Write(s, w), after);
  }

  /** Without an accepted frame none may be refused. */
  lemma NothingAcceptedNothingRefused(ws: seq<Choice>)
    requires Legal(BEGUN, ws) && forall w <- ws :: !Accepted(w)
    ensures !MaySend(Writes(BEGUN, ws).codec, Refuses)
  {
    RestLeaves(BEGUN, ws);
  }

  lemma {:induction false} WrittenAll(hs: seq<Handled>)
    ensures Written(hs) == hs <==> Unwritten(hs) == 0
    ensures |Written(hs)| == |hs| - Unwritten(hs)
  {
    if hs != [] {
      WrittenAll(hs[1..]);
      assert hs == [hs[0]] + hs[1..];
    }
  }

  /**
   When all Writes returned true and nothing fails while closing, every packet the codec
   produced, those of the null frame included, is written exactly once, in the order of
   production, before the trailer.
   */
  lemma ErrorFreeRunWritesAll(ws: seq<Choice>, rest: seq<Packet>)
    requires Legal(BEGUN, ws) && Failures(BEGUN, ws) == 0
    requires MaySend(Writes(BEGUN, ws).codec, Accepts(rest))
    ensures var s := Drain(Writes(BEGUN, ws), Accepts(rest), NoFault);
            && Packets(Written(s.handled)) == s.codec.produced
            && s.codec.produced == Writes(BEGUN, ws).codec.produced + rest
            && s.codec.pending == [] && s.codec.draining
  {
    RunClean(BEGUN, ws);
    var s := Writes(BEGUN, ws);
    DrainConserves(s, Accepts(rest), NoFault);
    var c := SendNull(s.codec, Accepts(rest));
    FlushMeans(c, s.index, NoFault);
    UnwrittenAppend(s.handled, Flush(c, s.index, NoFault).handled);
    WrittenAll(Drain(s, Accepts(rest), NoFault).handled);
  }

  /** In such a run the null frame is never refused either. */
  lemma NullFrameNotRefused(ws: seq<Choice>, answer: Answer)
    requires Legal(BEGUN, ws) && Failures(BEGUN, ws) == 0
    requires MaySend(Writes(BEGUN, ws).codec, answer)
    ensures answer.Accepts? || answer.Fails?
  {
    NeverRefused(ws);
  }

  /**
   A refusal is final: a refused Write does not receive packets, so every later Write
   returns false and writes nothing.
   */
  lemma {:induction false} RefusedStaysRefused(s: Session, ws: seq<Choice>)
    requires s.codec.refusing && Legal(s, ws)
    ensures Failures(s, ws) == |ws|
    ensures Writes(s, ws).codec == s.codec && Writes(s, ws).handled == s.handled
    decreases |ws|
  {
    if ws != [] {
      RefusedStaysRefused(Write(s, ws[0]), ws[1..]);
    }
  }

  /** And the null frame is not accepted: what the codec still holds back is never produced. */
  lemma RefusedIsNotDrained(s: Session, answer: Answer, fault: Fault)
    requires s.codec.refusing && !s.codec.draining && MaySend(s.codec, answer)
    ensures !Drain(s, answer, fault).codec.draining
    ensures Drain(s, answer, fault).codec.produced == s.codec.produced
  {
    FlushMeans(SendNull(s.codec, answer), s.index, fault);
  }

  /** Such a run exists: writing the first of two packets fails, and the next frame is refused. */
  lemma SomeRunIsRefused(p: Packet, q: Packet) returns (ws: seq<Choice>)
    ensures Legal(BEGUN, ws) && |ws| == 2 && Writes(BEGUN, ws).codec.refusing
  {
    var first := Offered(Accepts([p, q]), WriteFails(0));
    var second := Offered(Refuses, NoFault);
    ws := [first, second];
    var s := Write(BEGUN, first);
    assert OPENED.pending + [p, q] == [p, q];
    assert s.codec.pending == [q];
    assert ws[1..] == [second] && ws[1..][1..] == [];
    assert Writes(Write(s, second), []) == Write(s, second);
  }

  // ---------------------------------------------------------------------------
  // The frame counts of the packets
  // ---------------------------------------------------------------------------

  /** Packets are received under a frame count that never falls. */
  ghost predicate CountsRise(hs: seq<Handled>, index: nat) {
    && (forall i, j | 0 <= i <= j < |hs| :: hs[i].index <= hs[j].index)
    && (forall i | 0 <= i < |hs| :: hs[i].index <= index)
  }

  lemma CountsAppend(s: Session, fault: Fault)
    requires CountsRise(s.handled, s.index)
    ensures CountsRise(AfterFlush(s, fault).handled, s.index)
  {
    FlushHandles(s.codec, s.index, fault);
  }

  lemma {:induction false} RunCountsRise(s: Session, ws: seq<Choice>)
    requires CountsRise(s.handled, s.index) && Legal(s, ws)
    ensures CountsRise(Writes(s, ws).handled, Writes(s, ws).index)
    decreases |ws|
  {
    if ws != [] {
      var w := ws[0];
      if w.Offered? && w.answer.Accepts? {
        CountsAppend(s.(index := s.index + 1, codec := Send(s.codec, w.answer)), w.fault);
      }
      RunCountsRise(Write(s, w), ws[1..]);
    }
  }

  /** How many frames are offered. */
  function Offers(ws: seq<Choice>): nat {
    if ws == [] then 0 else (if ws[0].Offered? then 1 else 0) + Offers(ws[1..])
  }

  lemma LastWrite(s: Session, ws: seq<Choice>, w: Choice)
    requires Legal(s, ws + [w])
    ensures Legal(s, ws) && May(Writes(s, ws), w) && Writes(s, ws + [w]) == Write(Writes(s, ws), w)
  {
    WritesThen(s, ws, [w]);
    assert [w][1..] == [];
    assert Writes(Write(Writes(s, ws), w), []) == Write(Writes(s, ws), w);
  }

  /** In every run, whatever fails, the count is the number of frames offered so far. */
  lemma {:induction false} RunCounts(s: Session, ws: seq<Choice>)
    requires Legal(s, ws)
    ensures Writes(s, ws).index == s.index + Offers(ws)
    decreases |ws|
  {
    if ws != [] {
      WriteStamps(s, ws[0]);
      RunCounts(Write(s, ws[0]), ws[1..]);
    }
  }

  /** And what a Write receives, if anything, carries the number of its frame. */
  lemma RunStamps(s: Session, ws: seq<Choice>, w: Choice)
    requires Legal(s, ws + [w])
    ensures Legal(s, ws)
    ensures var before, after := Writes(s, ws).handled, Writes(s, ws + [w]).handled;
            && before <= after
            && forall i | |before| <= i < |after| :: after[i].index == s.index + Offers(ws) + 1
  {
    LastWrite(s, ws, w);
    RunCounts(s, ws);
    WriteStamps(Writes(s, ws), w);
  }

  // ---------------------------------------------------------------------------
  // Runs in which nothing fails
  // ---------------------------------------------------------------------------

  /** The frame is accepted, and nothing goes wrong before its packets are through. */
  predicate Flawless(w: Choice) {
    Accepted(w) && ComesBehind(w.fault, |w.answer.packets|)
  }

  /** No Write returns false exactly when every frame is accepted and every fault comes behind its packets. */
  lemma {:induction false} NoFailureIff(s: Session, ws: seq<Choice>)
    requires Legal(s, ws) && s.codec.pending == []
    ensures Failures(s, ws) == 0 <==> forall w <- ws :: Flawless(w)
    decreases |ws|
  {
    if ws != [] {
      var w := ws[0];
      assert w in ws && ws == [w] + ws[1..];
      SucceedsIff(s, w);
      if Succeeds(s, w) {
        SuccessIsClean(s, w);
        NoFailureIff(Write(s, w), ws[1..]);
      }
    }
  }

  /** Packets received and written under one count. */
  function UnderCount(ps: seq<Packet>, index: nat): (hs: seq<Handled>)
    ensures |hs| == |ps| && forall i | 0 <= i < |hs| :: hs[i] == Handled(ps[i], index, true)
  {
    seq(|ps|, i requires 0 <= i < |ps| => Handled(ps[i], index, true))
  }

  /** The packets of accepted frames, each under the number of the frame that made it ready. */
  function Made(ws: seq<Choice>, index: nat): seq<Handled> {
    if ws == [] then []
    else (if Accepted(ws[0]) then UnderCount(ws[0].answer.packets, index + 1) else []) + Made(ws[1..], index + 1)
  }

  /** A flush of everything, when nothing waited before. */
  lemma FlushesAll(s: Session, ps: seq<Packet>, fault: Fault)
    requires s.codec.pending == ps && ComesBehind(fault, |ps|)
    ensures AfterFlush(s, fault).codec == s.codec.(pending := [], refusing := s.codec.refusing && ps == [])
    ensures AfterFlush(s, fault).handled == s.handled + UnderCount(ps, s.index)
  {
    FlushMeans(s.codec, s.index, fault);
    FlushCounts(s.codec, s.index, fault);
    FlushHandles(s.codec, s.index, fault);
    assert Flush(s.codec, s.index, fault).handled == UnderCount(ps, s.index);
  }

  /** From an idle codec, flawless frames may all be offered; each one's packets are written under its number. */
  lemma {:induction false} FlawlessRun(s: Session, ws: seq<Choice>)
    requires s.codec.pending == [] && !s.codec.refusing && !s.codec.draining
    requires forall w <- ws :: Flawless(w)
    ensures Legal(s, ws) && Writes(s, ws).index == s.index + |ws|
    ensures Writes(s, ws).codec.pending == [] && !Writes(s, ws).codec.refusing && !Writes(s, ws).codec.draining
    ensures Writes(s, ws).handled == s.handled + Made(ws, s.index)
    decreases |ws|
  {
    if ws == [] {
      assert s.handled + [] == s.handled;
    } else {
      assert ws[0] in ws;
      var ps, more := ws[0].answer.packets, Made(ws[1..], s.index + 1);
      var sent := s.(index := s.index + 1, codec := Send(s.codec, ws[0].answer));
      assert [] + ps == ps;
      FlushesAll(sent, ps, ws[0].fault);
      FlawlessRun(Write(s, ws[0]), ws[1..]);
      Regroup(s.handled, UnderCount(ps, s.index + 1), more);
    }
  }

  /** Draining an idle codec writes the packets of the null frame behind what was received. */
  lemma DrainsAll(s: Session, rest: seq<Packet>, made: seq<Handled>, frames: nat)
    requires s.codec.pending == [] && !s.codec.refusing && !s.codec.draining
    requires s.handled == made && s.index == frames
    ensures Drain(s, Accepts(rest), NoFault).handled == made + UnderCount(rest, frames)
  {
    assert [] + rest == rest;
    FlushesAll(s.(codec := SendNull(s.codec, Accepts(rest))), rest, NoFault);
  }

  /** A session in which nothing fails receives the packets of its frames, and then those of the null frame. */
  lemma ErrorFreeHandled(s: Session, ws: seq<Choice>, rest: seq<Packet>)
    requires s == BEGUN && Legal(s, ws) && Failures(s, ws) == 0
    ensures MaySend(Writes(s, ws).codec, Accepts(rest))
    ensures Drain(Writes(s, ws), Accepts(rest), NoFault).handled == Made(ws, 0) + UnderCount(rest, |ws|)
  {
    NoFailureIff(s, ws);
    FlawlessRun(s, ws);
    assert s.handled + Made(ws, s.index) == Made(ws, 0);
    DrainsAll(Writes(s, ws), rest, Made(ws, 0), |ws|);
  }
}
