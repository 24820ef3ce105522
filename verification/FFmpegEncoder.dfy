/** The encoder that writes the captured frames to a file. */
module FFmpegEncoders {
  import opened Bytes
  import opened CodecContract
  import opened EncoderSetup
  import opened Handles
  import opened Remux

  /** What is written to an output file. */
  datatype Record = Header | Data(packet: Packet) | Trailer

  /** The packet as it is written: its times rescaled, and for the one stream there is. */
  function Outgoing(p: Packet, bases: ValidStream): Packet {
    RescaledTimes(p, bases).(stream := 0)
  }

  function Records(hs: seq<Handled>, bases: ValidStream): (r: seq<Record>)
    ensures |r| == |hs|
  {
    if hs == [] then [] else [Data(Outgoing(hs[0].packet, bases))] + Records(hs[1..], bases)
  }

  lemma {:induction false} RecordsAppend(hs: seq<Handled>, h: Handled, bases: ValidStream)
    ensures Records(hs + [h], bases) == Records(hs, bases) + [Data(Outgoing(h.packet, bases))]
  {
    var last := [Data(Outgoing(h.packet, bases))];
    if hs == [] {
      assert hs + [h] == [h];
      assert Records([h], bases) == last + Records([h][1..], bases);
    } else {
      TailOfSum(hs, [h]);
      RecordsAppend(hs[1..], h, bases);
      Regroup([Data(Outgoing(hs[0].packet, bases))], Records(hs[1..], bases), last);
    }
  }

  lemma {:induction false} RecordAt(hs: seq<Handled>, bases: ValidStream, i: nat)
    requires i < |hs|
    ensures Records(hs, bases)[i] == Data(Outgoing(hs[i].packet, bases))
    ensures Packets(hs)[i] == hs[i].packet
  {
    if i > 0 {
      RecordAt(hs[1..], bases, i - 1);
    }
  }

  /** The content of the file of a session that is still open. */
  function FileOf(s: Session, bases: ValidStream): seq<Record> {
    [Header] + Records(Written(s.handled), bases)
  }

  lemma FileGrows(s: Session, bases: ValidStream, c: Codec, h: Handled)
    ensures FileOf(s.(codec := c, handled := s.handled + [h]), bases)
         == if h.written then FileOf(s, bases) + [Data(Outgoing(h.packet, bases))] else FileOf(s, bases)
  {
    WrittenAppend(s.handled, [h]);
    assert Written([h]) == if h.written then [h] else [];
    if h.written {
      RecordsAppend(Written(s.handled), h, bases);
      Regroup([Header], Records(Written(s.handled), bases), [Data(Outgoing(h.packet, bases))]);
    } else {
      assert Written(s.handled) + [] == Written(s.handled);
    }
  }

  /** The library calls of `Open`; when writing the header fails, the file is closed. */
  method PrepareFile(library: Library, preset: bool, failing: set<Stage>) returns (context: Context, ok: bool)
    requires library.books.live == {}
    modifies library
    ensures library.books.live == Owned(context) && WellKinded(context)
    ensures ok <==> Passed(preset, failing) == CALLS
    ensures if ok then Complete(context) else context.pb == None
  {
    context, ok := Prepare(library, preset, failing);
    if ok && WriteHeader in failing {
      // the closed output stays in the format context, which is freed next
      context := CloseOutput(library, context);
      ok := false;
    }
  }

  class FFmpegEncoder {
    const library: Library
    var mContext: Context
    var mIsOpen: bool
    var session: Session             // the codec behind codec_context, and frame_index
    var bases: ValidStream           // the time bases of codec_context and stream
    var file: seq<Record>            // the file behind pb
    var finished: seq<seq<Record>>   // the files that were closed

    /**
     The library's live handles are exactly those of the non-null fields, the opened file
     among them, and there are such fields only while the encoder is open.
     */
    ghost predicate Valid()
      reads this, library
    {
      && library.books.live == Owned(mContext)
      && WellKinded(mContext)
      && (if mIsOpen then Complete(mContext) && file == FileOf(session, bases) else mContext == EMPTY_CONTEXT)
    }

    constructor (library: Library)
      requires library.books.live == {}
      ensures Valid() && !mIsOpen && this.library == library && finished == []
    {
      this.library := library;
      mContext, mIsOpen, session, bases, file, finished := EMPTY_CONTEXT, false, BEGUN, SAME_BASES, [], [];
    }

    /** Receives and writes packets until the codec has none; `fault` is the first thing that goes wrong. */
    method FlushPackets(fault: Fault) returns (ok: bool)
      requires file == FileOf(session, bases)
      modifies this`session, this`file
      ensures session == AfterFlush(old(session), fault) && file == FileOf(session, bases)
      ensures ok == Flush(old(session.codec), old(session.index), fault).ok
    {
      var todo := fault;
      while true
        invariant file == FileOf(session, bases)
        invariant AfterFlush(session, todo) == AfterFlush(old(session), fault)
        invariant Flush(session.codec, session.index, todo).ok
               == Flush(old(session.codec), old(session.index), fault).ok
        decreases |session.codec.pending|
      {
        FlushRound(session, todo);
        // avcodec_receive_packet
        if todo == ReceiveFails(0) {
          return false;
        }
        if session.codec.pending == [] {
          break;
        }
        var packet := session.codec.pending[0];
        var received := Receive(session.codec);
        var written := todo != WriteFails(0);
        FileGrows(session, bases, received, Handled(packet, session.index, written));
        session := session.(codec := received, handled := session.handled + [Handled(packet, session.index, written)]);
        packet := RescaledTimes(packet, bases);
        packet := packet.(stream := 0);
        // av_interleaved_write_frame
        if !written {
          return false;
        }
        file := file + [Data(packet)];
        todo := Later(todo);
      }
      return true;
    }

    /** `Write` of an open encoder; `choice` is what the codec and the file do. */
    method Encode(choice: Choice) returns (ok: bool)
      requires file == FileOf(session, bases) && May(session, choice)
      modifies this`session, this`file
      ensures session == CodecContract.Write(old(session), choice) && ok == Succeeds(old(session), choice)
      ensures file == FileOf(session, bases)
    {
      if choice.NotWritable? {
        return false;
      }
      // the frame gets the count as its time stamp, and is offered to the codec
      session := session.(index := session.index + 1, codec := Send(session.codec, choice.answer));
      if !choice.answer.Accepts? {
        return false;
      }
      ok := FlushPackets(choice.fault);
    }

    /** Encodes one frame, if open. */
    method Write(choice: Choice) returns (ok: bool)
      requires Valid()
      requires mIsOpen ==> May(session, choice)
      modifies this`session, this`file
      ensures Valid()
      ensures !old(mIsOpen) ==> !ok && unchanged(this)
      ensures old(mIsOpen) ==>
                session == CodecContract.Write(old(session), choice) && ok == Succeeds(old(session), choice)
    {
      if !mIsOpen {
        return false;
      }
      ok := Encode(choice);
    }

    /** The first half of `Close`: drains the codec and writes the trailer. */
    method Finish(answer: Answer, fault: Fault)
      requires file == FileOf(session, bases) && MaySend(session.codec, answer)
      modifies this`session, this`file, this`finished
      ensures session == Drain(old(session), answer, fault)
      ensures finished == old(finished) + [FileOf(session, bases) + [Trailer]]
    {
      session := session.(codec := SendNull(session.codec, answer));
      var flushed := FlushPackets(fault);
      file := file + [Trailer];
      finished := finished + [file];
    }

    /** The last part of `Close`: releases what the struct holds, and resets it. */
    method ReleaseAll()
      requires library.books.live == Owned(mContext) && WellKinded(mContext) && mContext.pb == None
      modifies this`mContext, this`mIsOpen, library
      ensures !mIsOpen && mContext == EMPTY_CONTEXT && library.books.live == {}
    {
      FreeContext(library, mContext);
      mContext := EMPTY_CONTEXT;
      mIsOpen := false;
    }

    /** Drains the codec and ends the file when open; releases every handle held. */
    method Close(answer: Answer, fault: Fault)
      requires library.books.live == Owned(mContext) && WellKinded(mContext)
      requires mIsOpen ==> Complete(mContext) && file == FileOf(session, bases) && MaySend(session.codec, answer)
      requires !mIsOpen ==> mContext.pb == None
      modifies this`mContext, this`mIsOpen, this`session, this`file, this`finished, library
      ensures Valid() && !mIsOpen && library.books.live == {}
      ensures old(mIsOpen) ==> session == Drain(old(session), answer, fault)
      ensures old(mIsOpen) ==> finished == old(finished) + [FileOf(session, bases) + [Trailer]]
      ensures !old(mIsOpen) ==> session == old(session) && finished == old(finished)
    {
      if mIsOpen {
        Finish(answer, fault);
        mContext := CloseOutput(library, mContext);
      }
      ReleaseAll();
    }

    /** The block of library calls in `Open`; it stops at the first failure, with what it has acquired. */
    method SetUp(preset: bool, failing: set<Stage>, times: ValidStream) returns (ok: bool)
      requires library.books.live == {} && !mIsOpen
      modifies this`mContext, this`mIsOpen, this`session, this`bases, this`file, library
      ensures library.books.live == Owned(mContext) && WellKinded(mContext)
      ensures ok <==> Passed(preset, failing) == CALLS
      ensures mIsOpen == ok
      ensures if ok then Complete(mContext) && session == BEGUN && bases == times && file == [Header]
              else mContext.pb == None && session == old(session)
    {
      mContext, ok := PrepareFile(library, preset, failing);
      if ok {
        session, bases, file := BEGUN, times, [Header];
        mIsOpen := true;
      }
    }

    /** Closes a previous session, then makes the library calls in order; any failure undoes all. */
    method Open(preset: bool, failing: set<Stage>, times: ValidStream, answer: Answer, fault: Fault) returns (ok: bool)
      requires Valid()
      requires mIsOpen ==> MaySend(session.codec, answer)
      modifies this`mContext, this`mIsOpen, this`session, this`bases, this`file, this`finished, library
      ensures Valid() && mIsOpen == ok
      ensures ok <==> Passed(preset, failing) == CALLS
      ensures if ok then session == BEGUN && bases == times && file == [Header] else library.books.live == {}
      ensures old(mIsOpen) ==>
                finished == old(finished) + [FileOf(Drain(old(session), answer, fault), old(bases)) + [Trailer]]
      ensures !old(mIsOpen) ==> finished == old(finished)
    {
      Close(answer, fault);
      ok := SetUp(preset, failing, times);
      if ok {
        assert FileOf(BEGUN, bases) == [Header];
        return true;
      }
      Close(Fails, NoFault);
    }
  }

  // ---------------------------------------------------------------------------
  // The content of the file
  // ---------------------------------------------------------------------------

  /** `r` is what is written for `p`: the same data, for the only stream, with the times in the file's ticks. */
  predicate SentOn(p: Packet, r: Packet, bases: ValidStream) {
    && r.stream == 0 && r.payload == p.payload && r.pos == p.pos
    && SameOrUnknown(p.pts, r.pts, bases) && SameOrUnknown(p.dts, r.dts, bases)
    && (if p.duration > 0 then SameTime(p.duration, r.duration, bases) else r.duration == p.duration)
  }

  /** In every session, whatever fails: behind the header, one record for each packet written, in order. */
  lemma FileHolds(s: Session, bases: ValidStream, i: nat)
    requires i < |Written(s.handled)|
    ensures var file := FileOf(s, bases);
            && |file| == |Written(s.handled)| + 1 && file[0] == Header
            && file[i + 1].Data? && SentOn(Written(s.handled)[i].packet, file[i + 1].packet, bases)
  {
    RecordAt(Written(s.handled), bases, i);
    RescaledFields(Written(s.handled)[i].packet, bases);
  }

  /**
   When nothing fails in a session, the file holds every packet the codec produced exactly
   once, in order, rescaled, between the header and the trailer.
   */
  lemma ErrorFreeFile(ws: seq<Choice>, rest: seq<Packet>, bases: ValidStream, i: nat)
    requires Legal(BEGUN, ws) && Failures(BEGUN, ws) == 0
    requires MaySend(Writes(BEGUN, ws).codec, Accepts(rest))
    requires i < |Writes(BEGUN, ws).codec.produced + rest|
    ensures var produced := Writes(BEGUN, ws).codec.produced + rest;
            var file := FileOf(Drain(Writes(BEGUN, ws), Accepts(rest), NoFault), bases);
            && |file| == |produced| + 1 && file[0] == Header
            && file[i + 1].Data? && SentOn(produced[i], file[i + 1].packet, bases)
  {
    ErrorFreeRunWritesAll(ws, rest);
    FileHolds(Drain(Writes(BEGUN, ws), Accepts(rest), NoFault), bases, i);
    RecordAt(Written(Drain(Writes(BEGUN, ws), Accepts(rest), NoFault).handled), bases, i);
  }

  lemma RisingBehind(ps: seq<Packet>)
    requires ps != [] && Rising(ps)
    ensures Rising(ps[1..]) && ps[0].dts != NOPTS
    ensures forall p <- ps[1..] :: ps[0].dts <= p.dts
  {
    forall p | p in ps[1..] ensures ps[0].dts <= p.dts {
      var i :| 0 <= i < |ps[1..]| && ps[1..][i] == p;
      assert ps[i + 1] == p;
    }
  }

  lemma RisingWith(first: Packet, rest: seq<Packet>)
    requires Rising(rest) && first.dts != NOPTS
    requires forall p <- rest :: first.dts <= p.dts
    ensures Rising([first] + rest)
  {
    var all := [first] + rest;
    forall i, j | 0 <= i < j < |all| ensures all[i].dts <= all[j].dts {
      if i == 0 {
        assert rest[j - 1] in rest;
      }
    }
  }

  lemma {:induction false} WrittenPacketsAmong(hs: seq<Handled>)
    ensures forall p <- Packets(Written(hs)) :: p in Packets(hs)
  {
    if hs != [] {
      WrittenPacketsAmong(hs[1..]);
      FirstHandled(hs[0], Written(hs[1..]));
      assert Packets(hs) == [hs[0].packet] + Packets(hs[1..]);
      assert Written(hs) == (if hs[0].written then [hs[0]] else []) + Written(hs[1..]);
      assert !hs[0].written ==> Written(hs) == Written(hs[1..]);
    }
  }

  lemma {:induction false} WrittenRising(hs: seq<Handled>)
    requires Rising(Packets(hs))
    ensures Rising(Packets(Written(hs)))
  {
    if hs != [] {
      assert Packets(hs)[1..] == Packets(hs[1..]);
      RisingBehind(Packets(hs));
      WrittenRising(hs[1..]);
      WrittenPacketsAmong(hs[1..]);
      if hs[0].written {
        FirstHandled(hs[0], Written(hs[1..]));
        RisingWith(hs[0].packet, Packets(Written(hs[1..])));
      } else {
        assert Written(hs) == Written(hs[1..]);
      }
    }
  }

  lemma RisingPrefix(a: seq<Packet>, b: seq<Packet>)
    requires Rising(a + b)
    ensures Rising(a)
  {
    assert forall i | 0 <= i < |a| :: (a + b)[i] == a[i];
  }

  /** Whatever fails in a session: when the codec's decoding times do not fall, those in the file do not. */
  lemma FileInOrder(s: Session, bases: ValidStream, i: nat, j: nat)
    requires Conserved(s) && Rising(s.codec.produced)
    requires 0 < i <= j < |FileOf(s, bases)|
    ensures var file := FileOf(s, bases);
            file[i].Data? && file[j].Data? && file[i].packet.dts <= file[j].packet.dts
  {
    RisingPrefix(Packets(s.handled), s.codec.pending);
    WrittenRising(s.handled);
    var hs := Written(s.handled);
    RecordAt(hs, bases, i - 1);
    RecordAt(hs, bases, j - 1);
    TicksMonotone(hs[i - 1].packet.dts, hs[j - 1].packet.dts, bases);
  }

  /** A packet presented no earlier than it is decoded stays so. */
  lemma OutgoingPresentable(p: Packet, bases: ValidStream)
    requires p.pts != NOPTS && p.dts != NOPTS && Presentable(p)
    ensures Presentable(Outgoing(p, bases))
  {
    TicksMonotone(p.dts, p.pts, bases);
  }

  // ---------------------------------------------------------------------------
  // The whole life of an encoder object
  // ---------------------------------------------------------------------------

  datatype Call =
    | OpenCall(preset: bool, failing: set<Stage>, times: ValidStream, answer: Answer, fault: Fault)
    | WriteCall(choice: Choice)
    | CloseCall(answer: Answer, fault: Fault)

  predicate Whole(file: seq<Record>) {
    && |file| >= 2 && file[0] == Header && file[|file| - 1] == Trailer
    && forall i | 0 < i < |file| - 1 :: file[i].Data?
  }

  lemma {:induction false} RecordsAreData(hs: seq<Handled>, bases: ValidStream)
    ensures forall i | 0 <= i < |Records(hs, bases)| :: Records(hs, bases)[i].Data?
  {
    if hs != [] {
      RecordsAreData(hs[1..], bases);
    }
  }

  lemma ClosedFileIsWhole(s: Session, bases: ValidStream)
    ensures Whole(FileOf(s, bases) + [Trailer])
  {
    RecordsAreData(Written(s.handled), bases);
  }

  /**
   From the constructor to the destructor, for every list of calls and whatever fails in
   them: no handle is live at the end, every handle obtained was released exactly once,
   and every file whose header was written got its trailer.
   */
  method Lifetime(calls: seq<Call>, answer: Answer, fault: Fault)
    returns (books: Books, files: seq<seq<Record>>, started: nat)
    ensures books.live == {}
    ensures forall h :: multiset(books.released)[h] == if h in books.given then 1 else 0
    ensures |files| == started && forall f <- files :: Whole(f)
  {
    var library := new Library();
    var encoder := new FFmpegEncoder(library);
    started := 0;
    for i := 0 to |calls|
      invariant encoder.library == library && fresh(encoder) && fresh(library)
      invariant encoder.Valid()
      invariant forall f <- encoder.finished :: Whole(f)
      invariant started == |encoder.finished| + if encoder.mIsOpen then 1 else 0
    {
      var ok := Perform(encoder, calls[i]);
      started := started + if calls[i].OpenCall? && ok then 1 else 0;
    }
    var ok := Perform(encoder, CloseCall(answer, fault));
    books, files := library.books, encoder.finished;
    forall h ensures multiset(books.released)[h] == if h in books.given then 1 else 0 {
      Settled(books, h);
    }
  }

  /** One call of the list. */
  method Perform(encoder: FFmpegEncoder, call: Call) returns (ok: bool)
    requires encoder.Valid()
    requires forall f <- encoder.finished :: Whole(f)
    modifies encoder, encoder.library
    ensures encoder.Valid()
    ensures forall f <- encoder.finished :: Whole(f)
    ensures |encoder.finished| + (if encoder.mIsOpen then 1 else 0)
         == |old(encoder.finished)| + (if old(encoder.mIsOpen) then 1 else 0) + (if call.OpenCall? && ok then 1 else 0)
    ensures call.CloseCall? ==> !encoder.mIsOpen
  {
    var codec := encoder.session.codec;
    match call
    case OpenCall(preset, failing, times, a, f) =>
      ClosedFileIsWhole(Drain(encoder.session, Possible(codec, a), f), encoder.bases);
      ok := encoder.Open(preset, failing, times, Possible(codec, a), f);
    case WriteCall(c) =>
      ok := encoder.Write(if c.Offered? then c.(answer := Possible(codec, c.answer)) else c);
    case CloseCall(a, f) =>
      ClosedFileIsWhole(Drain(encoder.session, Possible(codec, a), f), encoder.bases);
      encoder.Close(Possible(codec, a), f);
      ok := true;
  }
}
