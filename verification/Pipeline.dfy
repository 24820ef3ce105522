/**
 The capture threads: a key listener, a frame reader and a frame encoder, which share the
 atomic flag `m_recording` and one frame queue.  The loops are the same in the file
 recorder and in the live sender.

 Each atomic action is an event: a load or store of the flag, a critical section of the
 queue, or a step that touches only what its thread owns.  A run is a list of events, in
 any order the program counters allow.
 */
module Pipeline {

  /** A captured frame: the address of its buffer, and the image in it. */
  datatype Frame = Frame(addr: nat, image: int)

  /** `listenForKeyPress`. */
  datatype Key =
    | KeyTest                 // at the loop test
    | KeyPoll                 // inside the loop
    | KeyStop                 // a q was read, the store is next
    | KeyDone

  /** The reader lambda, with the loop of `getFrameData` inside. */
  datatype Reader =
    | ReadTest                // at the loop test of the thread
    | GrabTest                // at the loop test of getFrameData
    | Grab                    // getFrameData reads a packet
    | Notify(frame: Frame)    // the observer is shown the buffer
    | Hand(frame: Frame)      // the push is next
    | ReadDone

  /** The encoder lambda. */
  datatype Encoder =
    | FlagTest                // at the first half of the loop test
    | EmptyTest               // recording was false: at the second half
    | Pop(seenFrame: bool)    // in pop; was the loop entered by the second half?
    | Write(frame: Frame)     // holds a frame, the encoder's Write is next
    | Free(frame: Frame)      // written, av_free is next
    | EncodeDone

  datatype State = State(
    recording: bool,
    key: Key,
    reader: Reader,
    encoder: Encoder,
    queue: seq<Frame>,
    live: set<nat>,           // addresses of buffers allocated and not freed
    captured: seq<Frame>,     // history: frames obtained from the camera
    written: seq<Frame>,      // history: frames handed to Write
    freed: seq<Frame>         // history: frames whose buffer was freed
  )

  const START: State := State(true, KeyTest, ReadTest, FlagTest, [], {}, [], [], [])

  datatype Event =
    | KeyLoad | KeyNothing | KeyQuit | KeyStore
    | StopButton
    | ReadLoad | GrabLoad | GrabNothing | GrabFails | GrabFrame(frame: Frame) | Shown | Push
    | EncodeLoad | EncodeEmpty | EncodePop | EncodeWrite | EncodeFree

  predicate Enabled(s: State, e: Event) {
    match e
    case KeyLoad => s.key.KeyTest?
    case KeyNothing => s.key.KeyPoll?
    case KeyQuit => s.key.KeyPoll?
    case KeyStore => s.key.KeyStop?
    case StopButton => s.recording
    case ReadLoad => s.reader.ReadTest?
    case GrabLoad => s.reader.GrabTest?
    case GrabNothing => s.reader.Grab?
    case GrabFails => s.reader.Grab?
    case GrabFrame(f) => s.reader.Grab? && f.addr !in s.live
    case Shown => s.reader.Notify?
    case Push => s.reader.Hand?
    case EncodeLoad => s.encoder.FlagTest?
    case EncodeEmpty => s.encoder.EmptyTest?
    case EncodePop => s.encoder.Pop? && s.queue != []
    case EncodeWrite => s.encoder.Write?
    case EncodeFree => s.encoder.Free?
  }

  function Apply(s: State, e: Event): State
    requires Enabled(s, e)
  {
    match e
    case KeyLoad => s.(key := if s.recording then KeyPoll else KeyDone)
    case KeyNothing => s.(key := KeyTest)
    case KeyQuit => s.(key := KeyStop)
    case KeyStore => s.(recording := false, key := KeyDone)
    case StopButton => s.(recording := false)
    case ReadLoad => s.(reader := if s.recording then GrabTest else ReadDone)
    case GrabLoad => s.(reader := if s.recording then Grab else ReadTest)
    case GrabNothing => s.(reader := GrabTest)
    case GrabFails => s.(reader := ReadTest)
    case GrabFrame(f) => s.(reader := Notify(f), live := s.live + {f.addr}, captured := s.captured + [f])
    case Shown => s.(reader := Hand(s.reader.frame))
    case Push => s.(reader := ReadTest, queue := s.queue + [s.reader.frame])
    case EncodeLoad => s.(encoder := if s.recording then Pop(false) else EmptyTest)
    case EncodeEmpty => s.(encoder := if s.queue == [] then EncodeDone else Pop(true))
    case EncodePop => s.(encoder := Write(s.queue[0]), queue := s.queue[1..])
    case EncodeWrite => s.(encoder := Free(s.encoder.frame), written := s.written + [s.encoder.frame])
    case EncodeFree =>
      s.(encoder := FlagTest, live := s.live - {s.encoder.frame.addr}, freed := s.freed + [s.encoder.frame])
  }

  // ---------------------------------------------------------------------------
  // Runs
  // ---------------------------------------------------------------------------

  /** Where the events lead from `s`, when each is enabled in its turn. */
  predicate Leads(s: State, es: seq<Event>, t: State)
    decreases |es|
  {
    if es == [] then s == t else Enabled(s, es[0]) && Leads(Apply(s, es[0]), es[1..], t)
  }

  ghost predicate Reachable(s: State) {
    exists es :: Leads(START, es, s)
  }

  // ---------------------------------------------------------------------------
  // The invariant
  // ---------------------------------------------------------------------------

  /** The frame the reader holds and has not pushed. */
  function ReaderHand(r: Reader): seq<Frame> {
    if r.Notify? || r.Hand? then [r.frame] else []
  }

  /** The frame the encoder popped and has not yet handed to Write. */
  function Unwritten(e: Encoder): seq<Frame> {
    if e.Write? then [e.frame] else []
  }

  /** The frame that is written and not yet freed. */
  function Unfreed(e: Encoder): seq<Frame> {
    if e.Free? then [e.frame] else []
  }

  /** Every buffer in use, in the order of capture. */
  function Owned(s: State): seq<Frame> {
    Unfreed(s.encoder) + Unwritten(s.encoder) + s.queue + ReaderHand(s.reader)
  }

  ghost predicate DistinctBuffers(fs: seq<Frame>) {
    forall i, j | 0 <= i < j < |fs| :: fs[i].addr != fs[j].addr
  }

  ghost predicate BuffersAre(fs: seq<Frame>, live: set<nat>) {
    && (forall f <- fs :: f.addr in live)
    && (forall a <- live :: exists f <- fs :: f.addr == a)
  }

  /** One more frame may still reach the queue. */
  function Pending(r: Reader): nat {
    if r.Grab? || r.Notify? || r.Hand? then 1 else 0
  }

  /** Nothing captured is lost, repeated or reordered on the way to Write and to free. */
  predicate Conserved(s: State) {
    && s.captured == s.written + Unwritten(s.encoder) + s.queue + ReaderHand(s.reader)
    && s.written == s.freed + Unfreed(s.encoder)
  }

  /** Each live buffer has exactly one owner. */
  ghost predicate SoleOwners(s: State) {
    DistinctBuffers(Owned(s)) && BuffersAre(Owned(s), s.live)
  }

  predicate ControlInv(s: State) {
    && (s.encoder.Pop? && s.encoder.seenFrame ==> s.queue != [])
    && (s.encoder.EmptyTest? || s.encoder.EncodeDone? ==> !s.recording)
    && (s.key.KeyDone? || s.reader.ReadDone? ==> !s.recording)
    && (s.encoder.EncodeDone? ==> |s.queue| + Pending(s.reader) <= 1)
  }

  ghost predicate Inv(s: State) {
    Conserved(s) && SoleOwners(s) && ControlInv(s)
  }

  lemma ConservedStep(s: State, e: Event)
    requires Conserved(s) && Enabled(s, e)
    ensures Conserved(Apply(s, e))
  {
    match e
    case GrabFrame(f) =>
    case Shown =>
    case Push =>
      var front := s.written + Unwritten(s.encoder);
      assert front + (s.queue + [s.reader.frame]) + [] == front + s.queue + [s.reader.frame];
    case EncodePop =>
      assert s.written + [s.queue[0]] + s.queue[1..] == s.written + s.queue;
      assert s.written + [] == s.written;
    case EncodeWrite =>
      assert (s.written + [s.encoder.frame]) + [] == s.written + [s.encoder.frame];
    case EncodeFree =>
    case _ =>
  }

  lemma ControlStep(s: State, e: Event)
    requires ControlInv(s) && Enabled(s, e)
    ensures ControlInv(Apply(s, e))
  {
  }

  /** What one event does to the buffers in use. */
  lemma OwnedStep(s: State, e: Event)
    requires Enabled(s, e)
    ensures if e.GrabFrame? then Owned(Apply(s, e)) == Owned(s) + [e.frame]
            else if e.EncodeFree? then Owned(s) == [s.encoder.frame] + Owned(Apply(s, e))
            else Owned(Apply(s, e)) == Owned(s)
  {
    match e
    case GrabFrame(f) => GrabAdds(s, f);
    case Push => PushMoves(s);
    case EncodePop => PopMoves(s);
    case EncodeWrite => WriteMoves(s);
    case EncodeFree => FreeRemoves(s);
    case _ =>
  }

  lemma GrabAdds(s: State, f: Frame)
    requires Enabled(s, GrabFrame(f))
    ensures Owned(Apply(s, GrabFrame(f))) == Owned(s) + [f]
  {
    var used := Unfreed(s.encoder) + Unwritten(s.encoder) + s.queue;
    assert used + [] + [f] == used + [f];
  }

  lemma WriteMoves(s: State)
    requires Enabled(s, EncodeWrite)
    ensures Owned(Apply(s, EncodeWrite)) == Owned(s)
  {
    assert [] + [s.encoder.frame] == [s.encoder.frame] + [];
  }

  lemma FreeRemoves(s: State)
    requires Enabled(s, EncodeFree)
    ensures Owned(s) == [s.encoder.frame] + Owned(Apply(s, EncodeFree))
  {
    var rest := s.queue + ReaderHand(s.reader);
    assert [s.encoder.frame] + [] + s.queue + ReaderHand(s.reader) == [s.encoder.frame] + rest;
    assert [] + [] + s.queue + ReaderHand(s.reader) == rest;
  }

  lemma PushMoves(s: State)
    requires Enabled(s, Push)
    ensures Owned(Apply(s, Push)) == Owned(s)
    ensures s.queue + [s.reader.frame] == Apply(s, Push).queue
  {
    var front := Unfreed(s.encoder) + Unwritten(s.encoder);
    assert front + (s.queue + [s.reader.frame]) + [] == front + s.queue + [s.reader.frame];
  }

  lemma PopMoves(s: State)
    requires Enabled(s, EncodePop)
    ensures Owned(Apply(s, EncodePop)) == Owned(s)
  {
    assert [s.queue[0]] + s.queue[1..] == s.queue;
    assert [] + [s.queue[0]] + s.queue[1..] == [] + [] + s.queue;
  }

  lemma OwnersStep(s: State, e: Event)
    requires SoleOwners(s) && Enabled(s, e)
    ensures SoleOwners(Apply(s, e))
  {
    OwnedStep(s, e);
    if e.GrabFrame? {
      OneMore(Owned(s), e.frame, s.live);
    } else if e.EncodeFree? {
      OneLess(s.encoder.frame, Owned(Apply(s, e)), s.live);
    }
  }

  lemma OneMore(fs: seq<Frame>, f: Frame, live: set<nat>)
    requires DistinctBuffers(fs) && BuffersAre(fs, live) && f.addr !in live
    ensures DistinctBuffers(fs + [f]) && BuffersAre(fs + [f], live + {f.addr})
  {
    forall a <- live + {f.addr} ensures exists g <- fs + [f] :: g.addr == a {
      if a == f.addr {
        assert f in fs + [f];
      } else {
        var g :| g in fs && g.addr == a;
        assert g in fs + [f];
      }
    }
  }

  lemma OneLess(f: Frame, fs: seq<Frame>, live: set<nat>)
    requires DistinctBuffers([f] + fs) && BuffersAre([f] + fs, live)
    ensures DistinctBuffers(fs) && BuffersAre(fs, live - {f.addr})
  {
    var all := [f] + fs;
    forall i | 0 <= i < |fs| ensures fs[i].addr != f.addr && fs[i].addr in live {
      assert all[i + 1] == fs[i] && all[0] == f;
    }
    forall i, j | 0 <= i < j < |fs| ensures fs[i].addr != fs[j].addr {
      assert all[i + 1] == fs[i] && all[j + 1] == fs[j];
    }
    forall a <- live - {f.addr} ensures exists g <- fs :: g.addr == a {
      var g :| g in all && g.addr == a;
    }
  }

  /** The invariant holds along every run. */
  lemma {:induction false} InvAlong(s: State, es: seq<Event>, t: State)
    requires Inv(s) && Leads(s, es, t)
    ensures Inv(t)
    decreases |es|
  {
    if es != [] {
      ConservedStep(s, es[0]);
      OwnersStep(s, es[0]);
      ControlStep(s, es[0]);
      InvAlong(Apply(s, es[0]), es[1..], t);
    }
  }

  lemma ReachableInv(s: State)
    requires Reachable(s)
    ensures Inv(s)
  {
    var es :| Leads(START, es, s);
    InvAlong(START, es, s);
  }

  // ---------------------------------------------------------------------------
  // What holds in every interleaving
  // ---------------------------------------------------------------------------

  /** The captured frames, in order: written, in the encoder's hand, queued, in the reader's hand. */
  lemma FramesConserved(s: State)
    requires Reachable(s)
    ensures s.captured == s.written + Unwritten(s.encoder) + s.queue + ReaderHand(s.reader)
    ensures s.freed <= s.written <= s.captured
  {
    ReachableInv(s);
  }

  /** The encoder never frees a dead buffer, nor one that anybody else holds. */
  lemma FreeIsSafe(s: State)
    requires Reachable(s) && s.encoder.Free?
    ensures s.encoder.frame.addr in s.live
    ensures forall f <- s.queue + ReaderHand(s.reader) :: f.addr != s.encoder.frame.addr
  {
    ReachableInv(s);
    var rest := s.queue + ReaderHand(s.reader);
    assert Owned(s) == [s.encoder.frame] + rest;
    FirstIsAlone(s.encoder.frame, rest);
  }

  lemma FirstIsAlone(f: Frame, rest: seq<Frame>)
    requires DistinctBuffers([f] + rest)
    ensures forall g <- rest :: g.addr != f.addr
  {
    var all := [f] + rest;
    forall g <- rest ensures g.addr != f.addr {
      var i :| 0 <= i < |rest| && rest[i] == g;
      assert all[0] == f && all[i + 1] == g;
    }
  }

  /** What the encoder writes from is a live buffer that the reader has let go. */
  lemma WriteIsSafe(s: State)
    requires Reachable(s) && s.encoder.Write?
    ensures s.encoder.frame.addr in s.live
    ensures forall f <- s.queue + ReaderHand(s.reader) :: f.addr != s.encoder.frame.addr
  {
    ReachableInv(s);
    var rest := s.queue + ReaderHand(s.reader);
    assert Owned(s) == [s.encoder.frame] + rest;
    FirstIsAlone(s.encoder.frame, rest);
  }

  /** The reader touches only a live buffer that it has not pushed. */
  lemma ReaderTouchesItsOwn(s: State)
    requires Reachable(s) && (s.reader.Notify? || s.reader.Hand?)
    ensures s.reader.frame.addr in s.live
    ensures forall f <- Unfreed(s.encoder) + Unwritten(s.encoder) + s.queue :: f.addr != s.reader.frame.addr
  {
    ReachableInv(s);
    var front := Unfreed(s.encoder) + Unwritten(s.encoder) + s.queue;
    assert Owned(s) == front + [s.reader.frame];
    LastIsAlone(front, s.reader.frame);
  }

  lemma LastIsAlone(front: seq<Frame>, f: Frame)
    requires DistinctBuffers(front + [f])
    ensures forall g <- front :: g.addr != f.addr
  {
    var all := front + [f];
    forall g <- front ensures g.addr != f.addr {
      var i :| 0 <= i < |front| && front[i] == g;
      assert all[i] == g && all[|front|] == f;
    }
  }

  /**
   When both threads have ended, at most one captured frame was not written; every written
   buffer was freed, and the buffers still live are those of the frames left in the queue.
   */
  lemma AtMostOneLost(s: State)
    requires Reachable(s) && s.reader.ReadDone? && s.encoder.EncodeDone?
    ensures s.captured == s.written + s.queue && |s.queue| <= 1
    ensures s.freed == s.written
    ensures BuffersAre(s.queue, s.live)
  {
    ReachableInv(s);
    OwnedAtEnd(s);
  }

  lemma OwnedAtEnd(s: State)
    requires s.reader.ReadDone? && s.encoder.EncodeDone?
    ensures Owned(s) == s.queue
    ensures s.written + Unwritten(s.encoder) + s.queue + ReaderHand(s.reader) == s.written + s.queue
    ensures s.freed + Unfreed(s.encoder) == s.freed
  {
  }

  /** A pop entered because the queue was seen not empty never waits: there is one consumer. */
  lemma PopAfterTestNeverWaits(s: State)
    requires Reachable(s) && s.encoder == Pop(true)
    ensures Enabled(s, EncodePop)
  {
    ReachableInv(s);
  }

  // ---------------------------------------------------------------------------
  // What the events of a run say
  // ---------------------------------------------------------------------------

  lemma {:induction false} RecordingAlong(s: State, es: seq<Event>, t: State)
    requires Leads(s, es, t)
    ensures t.recording <==> s.recording && StopButton !in es && KeyStore !in es
    decreases |es|
  {
    if es != [] {
      assert es == [es[0]] + es[1..];
      RecordingAlong(Apply(s, es[0]), es[1..], t);
    }
  }

  lemma {:induction false} NoStoreWithoutQuit(s: State, es: seq<Event>, t: State)
    requires Leads(s, es, t) && !s.key.KeyStop? && KeyQuit !in es
    ensures KeyStore !in es
    decreases |es|
  {
    if es != [] {
      assert es == [es[0]] + es[1..];
      NoStoreWithoutQuit(Apply(s, es[0]), es[1..], t);
    }
  }

  /** Recording goes on until the stop button is pressed, or the key listener stores the flag after a q. */
  lemma RecordingIff(es: seq<Event>, t: State)
    requires Leads(START, es, t)
    ensures t.recording <==> StopButton !in es && KeyStore !in es
    ensures KeyStore in es ==> KeyQuit in es
  {
    RecordingAlong(START, es, t);
    if KeyQuit !in es {
      NoStoreWithoutQuit(START, es, t);
    }
  }

  /** After the stop at most one more frame is captured, and only when the reader was already at it. */
  lemma {:induction false} CapturedAfterStop(s: State, es: seq<Event>, t: State)
    requires !s.recording && Leads(s, es, t)
    ensures s.captured <= t.captured
    ensures |t.captured| + (if t.reader.Grab? then 1 else 0) <= |s.captured| + if s.reader.Grab? then 1 else 0
    decreases |es|
  {
    if es != [] {
      StepUsesUp(s, es[0]);
      CapturedAfterStop(Apply(s, es[0]), es[1..], t);
    }
  }

  /** How often an event occurs. */
  function Times(es: seq<Event>, e: Event): nat {
    if es == [] then 0 else (if es[0] == e then 1 else 0) + Times(es[1..], e)
  }

  /** The frames got from the camera, in order. */
  function Grabbed(es: seq<Event>): seq<Frame> {
    if es == [] then [] else GrabbedIn(es[0]) + Grabbed(es[1..])
  }

  function GrabbedIn(e: Event): seq<Frame> {
    if e.GrabFrame? then [e.frame] else []
  }

  lemma CapturedStep(s: State, e: Event)
    requires Enabled(s, e)
    ensures Apply(s, e).captured == s.captured + GrabbedIn(e)
  {
    assert s.captured + [] == s.captured;
  }

  /** Every frame got from the camera counts as captured. */
  lemma {:induction false} CapturedAlong(s: State, es: seq<Event>, t: State)
    requires Leads(s, es, t)
    ensures t.captured == s.captured + Grabbed(es)
    decreases |es|
  {
    if es == [] {
      assert s.captured + [] == s.captured;
    } else {
      CapturedStep(s, es[0]);
      CapturedAlong(Apply(s, es[0]), es[1..], t);
      assert s.captured + (GrabbedIn(es[0]) + Grabbed(es[1..])) == (s.captured + GrabbedIn(es[0])) + Grabbed(es[1..]);
    }
  }

  function One(b: bool): nat {
    if b then 1 else 0
  }

  lemma {:induction false} ReaderCounts(s: State, es: seq<Event>, t: State)
    requires Leads(s, es, t)
    ensures |t.captured| - One(t.reader.Notify?) == |s.captured| - One(s.reader.Notify?) + Times(es, Shown)
    ensures Times(es, Push) + One(t.reader.Hand?) == One(s.reader.Hand?) + Times(es, Shown)
    decreases |es|
  {
    if es != [] {
      ReaderCounts(Apply(s, es[0]), es[1..], t);
      ReaderCountsStep(s, es[0]);
    }
  }

  lemma ReaderCountsStep(s: State, e: Event)
    requires Enabled(s, e)
    ensures |Apply(s, e).captured| - One(Apply(s, e).reader.Notify?)
         == |s.captured| - One(s.reader.Notify?) + One(e == Shown)
    ensures One(e == Push) + One(Apply(s, e).reader.Hand?) == One(s.reader.Hand?) + One(e == Shown)
  {
  }

  lemma {:induction false} EncoderCounts(s: State, es: seq<Event>, t: State)
    requires Leads(s, es, t)
    ensures Times(es, EncodePop) + One(s.encoder.Write?) == One(t.encoder.Write?) + Times(es, EncodeWrite)
    ensures |t.written| == |s.written| + Times(es, EncodeWrite)
    decreases |es|
  {
    if es != [] {
      EncoderCounts(Apply(s, es[0]), es[1..], t);
      EncoderCountsStep(s, es[0]);
    }
  }

  lemma EncoderCountsStep(s: State, e: Event)
    requires Enabled(s, e)
    ensures One(e == EncodePop) + One(s.encoder.Write?) == One(Apply(s, e).encoder.Write?) + One(e == EncodeWrite)
    ensures |Apply(s, e).written| == |s.written| + One(e == EncodeWrite)
  {
  }

  /**
   Every captured frame is shown to the observer, and then pushed, but for the one the
   reader has; every popped one is written, but for the one the encoder has.
   */
  lemma ShownThenPushed(es: seq<Event>, t: State)
    requires Leads(START, es, t)
    ensures |t.captured| == Times(es, Shown) + if t.reader.Notify? then 1 else 0
    ensures Times(es, Shown) == Times(es, Push) + if t.reader.Hand? then 1 else 0
    ensures Times(es, EncodePop) == |t.written| + if t.encoder.Write? then 1 else 0
  {
    ReaderCounts(START, es, t);
    EncoderCounts(START, es, t);
  }

  // ---------------------------------------------------------------------------
  // Two runs
  // ---------------------------------------------------------------------------

  lemma {:induction false} LeadsFurther(s: State, es: seq<Event>, t: State, e: Event)
    requires Leads(s, es, t) && Enabled(t, e)
    ensures Leads(s, es + [e], Apply(t, e))
    decreases |es|
  {
    if es == [] {
      assert [e][1..] == [];
    } else {
      assert (es + [e])[1..] == es[1..] + [e];
      LeadsFurther(Apply(s, es[0]), es[1..], t, e);
    }
  }

  lemma ReachableStep(s: State, e: Event) returns (t: State)
    requires Reachable(s) && Enabled(s, e)
    ensures t == Apply(s, e) && Reachable(t)
  {
    var es :| Leads(START, es, s);
    LeadsFurther(START, es, s, e);
    t := Apply(s, e);
  }

  lemma StartReachable()
    ensures Reachable(START)
  {
    assert Leads(START, [], START);
  }

  /** The recording is stopped by the key while the encoder waits for a first frame. */
  lemma SomeRunHangs() returns (s: State)
    ensures Reachable(s) && Waiting(s) && s.key.KeyDone?
  {
    StartReachable();
    s := ReachableStep(START, EncodeLoad);
    s := ReachableStep(s, KeyLoad);
    s := ReachableStep(s, KeyQuit);
    s := ReachableStep(s, KeyStore);
    s := ReachableStep(s, ReadLoad);
  }

  /** The encoder finds the queue empty while the reader is still grabbing a frame. */
  lemma SomeRunLosesAFrame(f: Frame) returns (s: State)
    ensures Reachable(s) && s.reader.ReadDone? && s.encoder.EncodeDone?
    ensures s.captured == [f] && s.written == []
  {
    s := SomeRunEndsEncoding();
    s := ReachableStep(s, GrabFrame(f));
    s := ReachableStep(s, Shown);
    s := ReachableStep(s, Push);
    s := ReachableStep(s, ReadLoad);
  }

  lemma SomeRunEndsEncoding() returns (s: State)
    ensures Reachable(s) && s == State(false, KeyDone, Grab, EncodeDone, [], {}, [], [], [])
  {
    StartReachable();
    s := ReachableStep(START, ReadLoad);
    s := ReachableStep(s, GrabLoad);
    s := ReachableStep(s, KeyLoad);
    s := ReachableStep(s, KeyQuit);
    s := ReachableStep(s, KeyStore);
    s := ReachableStep(s, EncodeLoad);
    s := ReachableStep(s, EncodeEmpty);
  }

  /** The reader has ended and the encoder waits in `pop` on the empty queue. */
  predicate Waiting(s: State) {
    s.reader.ReadDone? && s.encoder.Pop? && s.queue == []
  }

  /** Such a wait never ends. */
  lemma {:induction false} WaitingForever(s: State, es: seq<Event>, t: State)
    requires Waiting(s) && Leads(s, es, t)
    ensures Waiting(t)
    decreases |es|
  {
    if es != [] {
      WaitingForever(Apply(s, es[0]), es[1..], t);
    }
  }

  /** Every thread is at its end, or waits. */
  predicate AllStopped(s: State) {
    && s.key.KeyDone? && s.reader.ReadDone?
    && (s.encoder.EncodeDone? || (!s.recording && s.encoder == Pop(false) && s.queue == []))
  }

  lemma StoppedMeansStuck(s: State, e: Event)
    requires AllStopped(s) && e != StopButton
    ensures !Enabled(s, e)
  {
  }

  lemma ReaderHasStep(s: State)
    requires !s.reader.ReadDone?
    ensures
      || Enabled(s, ReadLoad) || Enabled(s, GrabLoad) || Enabled(s, GrabNothing)
      || Enabled(s, Shown) || Enabled(s, Push)
  {
  }

  lemma EncoderHasStep(s: State)
    requires !s.encoder.EncodeDone? && !(s.encoder.Pop? && s.queue == [])
    ensures
      || Enabled(s, EncodeLoad) || Enabled(s, EncodeEmpty) || Enabled(s, EncodePop)
      || Enabled(s, EncodeWrite) || Enabled(s, EncodeFree)
  {
  }

  lemma KeyHasStep(s: State)
    requires !s.key.KeyDone?
    ensures Enabled(s, KeyLoad) || Enabled(s, KeyNothing) || Enabled(s, KeyStore)
  {
  }

  /**
   No thread can take a step in exactly these reachable states: all have ended, or
   recording has stopped and the encoder waits for a reader that has ended.
   */
  lemma StuckIff(s: State)
    requires Reachable(s)
    ensures (forall e | e != StopButton :: !Enabled(s, e)) <==> AllStopped(s)
  {
    ReachableInv(s);
    if AllStopped(s) {
      forall e | e != StopButton ensures !Enabled(s, e) {
        StoppedMeansStuck(s, e);
      }
    } else if !s.reader.ReadDone? {
      ReaderHasStep(s);
    } else if !s.key.KeyDone? {
      KeyHasStep(s);
    } else {
      EncoderHasStep(s);
    }
  }

  // ---------------------------------------------------------------------------
  // After recording has stopped
  // ---------------------------------------------------------------------------

  function KeySteps(k: Key): nat {
    match k
    case KeyPoll => 2
    case KeyTest => 1
    case KeyStop => 1
    case KeyDone => 0
  }

  /** A frame the reader still pushes counts for the encoder's round, too. */
  function ReaderSteps(r: Reader): nat {
    match r
    case Grab => 9
    case Notify(f) => 8
    case Hand(f) => 7
    case GrabTest => 2
    case ReadTest => 1
    case ReadDone => 0
  }

  function EncoderSteps(e: Encoder): nat {
    match e
    case Write(f) => 4
    case Free(f) => 3
    case FlagTest => 2
    case EmptyTest => 1
    case Pop(b) => 0
    case EncodeDone => 0
  }

  /** How many steps all threads together can still take. */
  function StepsLeft(s: State): nat {
    KeySteps(s.key) + ReaderSteps(s.reader) + EncoderSteps(s.encoder) + 5 * |s.queue|
  }

  lemma StepUsesUp(s: State, e: Event)
    requires !s.recording && Enabled(s, e)
    ensures !Apply(s, e).recording && StepsLeft(Apply(s, e)) < StepsLeft(s)
  {
  }

  /**
   Once recording has stopped, every run is short, whatever the order of the steps: with
   `q` frames in the queue at most `5 * q + 15` steps are left.
   */
  lemma {:induction false} RunsEnd(s: State, es: seq<Event>, t: State)
    requires !s.recording && Leads(s, es, t)
    ensures !t.recording && |es| + StepsLeft(t) <= StepsLeft(s) <= 5 * |s.queue| + 15
    decreases |es|
  {
    if es != [] {
      StepUsesUp(s, es[0]);
      RunsEnd(Apply(s, es[0]), es[1..], t);
    }
  }

  /** So from every reachable state in which recording has stopped, a run leads to a stuck state. */
  lemma {:induction false} LeadsToStop(s: State) returns (es: seq<Event>, t: State)
    requires Reachable(s) && !s.recording
    ensures Leads(s, es, t) && AllStopped(t)
    decreases StepsLeft(s)
  {
    if AllStopped(s) {
      return [], s;
    }
    StuckIff(s);
    var e :| e != StopButton && Enabled(s, e);
    StepUsesUp(s, e);
    var next := ReachableStep(s, e);
    var rest, last := LeadsToStop(next);
    assert ([e] + rest)[1..] == rest;
    return [e] + rest, last;
  }

  /** The encoder waits on the empty queue, and the reader holds no frame it would still push. */
  predicate MayHang(s: State) {
    s.encoder == Pop(false) && s.queue == [] && !s.reader.Notify? && !s.reader.Hand?
  }

  lemma SafeStaysSafe(s: State, e: Event)
    requires !s.recording && ControlInv(s) && Enabled(s, e) && !MayHang(s)
    ensures !MayHang(Apply(s, e))
  {
  }

  lemma {:induction false} SafeRunsDoNotHang(s: State, es: seq<Event>, t: State)
    requires Reachable(s) && !s.recording && Leads(s, es, t) && !MayHang(s)
    ensures !Waiting(t)
    decreases |es|
  {
    ReachableInv(s);
    if es != [] {
      SafeStaysSafe(s, es[0]);
      StepUsesUp(s, es[0]);
      var next := ReachableStep(s, es[0]);
      SafeRunsDoNotHang(next, es[1..], t);
    }
  }

  // ---------------------------------------------------------------------------
  // What can still happen
  // ---------------------------------------------------------------------------

  ghost predicate CanReach(s: State, t: State) {
    exists es :: Leads(s, es, t)
  }

  lemma ReachSelf(s: State)
    ensures CanReach(s, s)
  {
    assert Leads(s, [], s);
  }

  lemma ReachOn(s: State, t: State, e: Event) returns (u: State)
    requires CanReach(s, t) && Enabled(t, e)
    ensures u == Apply(t, e) && CanReach(s, u)
  {
    var es :| Leads(s, es, t);
    LeadsFurther(s, es, t, e);
    u := Apply(t, e);
  }

  lemma {:induction false} LeadsThen(s: State, es: seq<Event>, t: State, fs: seq<Event>, u: State)
    requires Leads(s, es, t) && Leads(t, fs, u)
    ensures Leads(s, es + fs, u)
    decreases |es|
  {
    if es == [] {
      assert es + fs == fs;
    } else {
      assert (es + fs)[1..] == es[1..] + fs;
      LeadsThen(Apply(s, es[0]), es[1..], t, fs, u);
    }
  }

  lemma ReachThen(s: State, t: State, u: State)
    requires CanReach(s, t) && CanReach(t, u)
    ensures CanReach(s, u)
  {
    var es :| Leads(s, es, t);
    var fs :| Leads(t, fs, u);
    LeadsThen(s, es, t, fs, u);
  }

  lemma ReachKeepsInv(s: State, t: State)
    requires Reachable(s) && CanReach(s, t)
    ensures Inv(t) && Reachable(t)
  {
    var es :| Leads(START, es, s);
    var fs :| Leads(s, fs, t);
    LeadsThen(START, es, s, fs, t);
    ReachableInv(t);
  }

  lemma {:induction false} FreshAddress(live: set<nat>) returns (addr: nat)
    ensures addr !in live
    ensures forall a <- live :: a < addr
    decreases live
  {
    if live == {} {
      return 0;
    }
    var a :| a in live;
    addr := FreshAddress(live - {a});
    addr := if a < addr then addr else a + 1;
    forall b | b in live ensures b < addr {
      assert b == a || b in live - {a};
    }
  }

  /** The reader gets the frame it is after, or has, into the queue. */
  lemma ReaderPushes(s: State, t: State) returns (u: State)
    requires CanReach(s, t) && Pending(t.reader) == 1
    ensures CanReach(s, u) && u.reader.ReadTest? && u.queue != []
    ensures u.recording == t.recording && u.encoder == t.encoder
  {
    u := t;
    if u.reader.Grab? {
      var addr := FreshAddress(u.live);
      u := ReachOn(s, u, GrabFrame(Frame(addr, 0)));
    }
    if u.reader.Notify? {
      u := ReachOn(s, u, Shown);
    }
    u := ReachOn(s, u, Push);
  }

  /** While recording, the reader can be back at a grab without another frame. */
  lemma ReaderGrabs(s: State, t: State) returns (u: State)
    requires CanReach(s, t) && t.recording && t.reader.ReadTest?
    ensures CanReach(s, u) && u == t.(reader := Grab)
  {
    u := ReachOn(s, t, ReadLoad);
    u := ReachOn(s, u, GrabLoad);
  }

  /** While recording, the reader can come to its loop test. */
  lemma ReaderComesBack(s: State, t: State) returns (u: State)
    requires CanReach(s, t) && t.recording && !t.reader.ReadDone?
    ensures CanReach(s, u) && u.reader.ReadTest? && u.recording && u.encoder == t.encoder
  {
    u := t;
    if u.reader.Notify? || u.reader.Hand? {
      u := ReaderPushes(s, u);
    } else {
      if u.reader.GrabTest? {
        u := ReachOn(s, u, GrabLoad);
      }
      if u.reader.Grab? {
        u := ReachOn(s, u, GrabFails);
      }
    }
  }

  /** After the stop, the reader can end without another frame. */
  lemma ReaderEnds(s: State, t: State) returns (u: State)
    requires CanReach(s, t) && !t.recording && !t.reader.Notify? && !t.reader.Hand?
    ensures CanReach(s, u) && u == t.(reader := ReadDone)
  {
    u := t;
    if u.reader.Grab? {
      u := ReachOn(s, u, GrabFails);
    }
    if u.reader.GrabTest? {
      u := ReachOn(s, u, GrabLoad);
    }
    if u.reader.ReadTest? {
      u := ReachOn(s, u, ReadLoad);
    }
  }

  /** After the stop, the encoder can take all frames there are and end, unless it waits for one. */
  lemma {:induction false} EncoderEnds(s: State, t: State) returns (u: State)
    requires CanReach(s, t) && !t.recording && (t.encoder.Pop? ==> t.queue != [])
    ensures CanReach(s, u) && u.encoder.EncodeDone? && !u.recording
    ensures u.reader == t.reader && (t.encoder.EncodeDone? ==> u == t)
    decreases EncoderSteps(t.encoder) + 5 * |t.queue|
  {
    if t.encoder.EncodeDone? {
      return t;
    }
    var e := match t.encoder
      case FlagTest => EncodeLoad
      case EmptyTest => EncodeEmpty
      case Pop(b) => EncodePop
      case Write(f) => EncodeWrite
      case _ => EncodeFree;
    u := ReachOn(s, t, e);
    u := EncoderEnds(s, u);
  }

  /** While recording, the encoder can take all frames there are and wait for another. */
  lemma {:induction false} EncoderWaits(s: State, t: State) returns (u: State)
    requires Reachable(s) && CanReach(s, t) && t.recording
    ensures CanReach(s, u) && u.encoder == Pop(false) && u.queue == [] && u.recording && u.reader == t.reader
    decreases EncoderSteps(t.encoder) + 5 * |t.queue|
  {
    ReachKeepsInv(s, t);
    if t.encoder.Pop? && t.queue == [] {
      return t;
    }
    var e := match t.encoder
      case FlagTest => EncodeLoad
      case Pop(b) => EncodePop
      case Write(f) => EncodeWrite
      case _ => EncodeFree;
    u := ReachOn(s, t, e);
    u := EncoderWaits(s, u);
  }

  // ---------------------------------------------------------------------------
  // Hanging
  // ---------------------------------------------------------------------------

  ghost predicate CanHang(s: State) {
    exists t :: CanReach(s, t) && Waiting(t)
  }

  /**
   The states from which some run hangs are exactly those in which recording goes on, and
   those in which the encoder already waits on the empty queue and no frame is on its way.
   */
  lemma HangIff(s: State)
    requires Reachable(s)
    ensures CanHang(s) <==> s.recording || MayHang(s)
  {
    ReachSelf(s);
    if s.recording {
      ReachableInv(s);
      var t := ReaderComesBack(s, s);
      t := EncoderWaits(s, t);
      t := ReachOn(s, t, StopButton);
      t := ReaderEnds(s, t);
      assert CanHang(s);
    } else if MayHang(s) {
      var t := ReaderEnds(s, s);
      assert CanHang(s);
    } else if CanHang(s) {
      var t :| CanReach(s, t) && Waiting(t);
      var es :| Leads(s, es, t);
      SafeRunsDoNotHang(s, es, t);
      assert false;
    }
  }

  // ---------------------------------------------------------------------------
  // Ending
  // ---------------------------------------------------------------------------

  ghost predicate CanEnd(s: State) {
    exists t :: CanReach(s, t) && t.encoder.EncodeDone?
  }

  /** The encoder waits on the empty queue for a reader that will push no frame. */
  predicate Doomed(s: State) {
    !s.recording && s.encoder == Pop(false) && s.queue == [] && Pending(s.reader) == 0
  }

  lemma {:induction false} DoomedStaysDoomed(s: State, es: seq<Event>, t: State)
    requires Doomed(s) && Leads(s, es, t)
    ensures Doomed(t)
    decreases |es|
  {
    if es != [] {
      DoomedStaysDoomed(Apply(s, es[0]), es[1..], t);
    }
  }

  /** From a stopped state that is not doomed the encoder can end, and so it can from every recording one. */
  lemma EncoderCanEnd(s: State) returns (t: State)
    requires Reachable(s) && !Doomed(s)
    ensures CanReach(s, t) && t.encoder.EncodeDone? && !t.recording
  {
    ReachSelf(s);
    ReachableInv(s);
    t := s;
    if t.recording {
      t := ReaderComesBack(s, t);
      t := ReaderGrabs(s, t);
      t := ReachOn(s, t, StopButton);
    }
    ReachKeepsInv(s, t);
    if t.encoder == Pop(false) && t.queue == [] {
      t := ReaderPushes(s, t);
    }
    t := EncoderEnds(s, t);
  }

  lemma EndIff(s: State)
    requires Reachable(s)
    ensures CanEnd(s) <==> !Doomed(s)
  {
    if !Doomed(s) {
      var t := EncoderCanEnd(s);
    } else if CanEnd(s) {
      var t :| CanReach(s, t) && t.encoder.EncodeDone?;
      var es :| Leads(s, es, t);
      DoomedStaysDoomed(s, es, t);
      assert false;
    }
  }

  // ---------------------------------------------------------------------------
  // Losing a frame
  // ---------------------------------------------------------------------------

  /** Reader and encoder have ended, and a captured frame was not written. */
  predicate Lost(s: State) {
    s.reader.ReadDone? && s.encoder.EncodeDone? && s.written != s.captured
  }

  ghost predicate CanLose(s: State) {
    exists t :: CanReach(s, t) && Lost(t)
  }

  /**
   The reader is after a frame, or holds one, and the encoder does not wait for it; or the
   encoder has ended before a frame in the queue.
   */
  predicate MayLose(s: State) {
    || (Pending(s.reader) == 1 && !(s.encoder == Pop(false) && s.queue == []))
    || (s.encoder.EncodeDone? && s.queue != [])
  }

  lemma KeepsSafeFromLoss(s: State, e: Event)
    requires !s.recording && ControlInv(s) && Enabled(s, e) && !MayLose(s)
    ensures !MayLose(Apply(s, e))
  {
  }

  lemma {:induction false} SafeRunsDoNotLose(s: State, es: seq<Event>, t: State)
    requires Reachable(s) && !s.recording && Leads(s, es, t) && !MayLose(s)
    ensures !Lost(t)
    decreases |es|
  {
    if es == [] {
      FramesConserved(s);
    } else {
      ReachableInv(s);
      KeepsSafeFromLoss(s, es[0]);
      StepUsesUp(s, es[0]);
      var next := ReachableStep(s, es[0]);
      SafeRunsDoNotLose(next, es[1..], t);
    }
  }

  lemma LeftBehind(s: State)
    requires Conserved(s) && s.reader.ReadDone? && s.encoder.EncodeDone? && s.queue != []
    ensures Lost(s)
  {
    assert s.captured == s.written + s.queue;
  }

  /** The encoder ends first, then the reader pushes its frame and ends. */
  lemma LosingRun(s: State, t: State) returns (u: State)
    requires Reachable(s) && CanReach(s, t) && !t.recording && MayLose(t)
    ensures CanReach(s, u) && Lost(u)
  {
    ReachKeepsInv(s, t);
    u := EncoderEnds(s, t);
    if Pending(u.reader) == 1 {
      u := ReaderPushes(s, u);
    }
    u := ReaderEnds(s, u);
    ReachKeepsInv(s, u);
    LeftBehind(u);
  }

  /**
   The states from which some run loses a frame are exactly those in which recording goes
   on, and those in which the reader is after a frame, or holds one, that the encoder does
   not wait for, or in which the encoder has already left a frame behind.
   */
  lemma LoseIff(s: State)
    requires Reachable(s)
    ensures CanLose(s) <==> s.recording || MayLose(s)
  {
    ReachSelf(s);
    if s.recording {
      ReachableInv(s);
      var t := ReaderComesBack(s, s);
      t := ReaderGrabs(s, t);
      if t.encoder == Pop(false) && t.queue == [] {
        t := ReaderPushes(s, t);
        t := ReaderGrabs(s, t);
      }
      t := ReachOn(s, t, StopButton);
      t := LosingRun(s, t);
    } else if MayLose(s) {
      var t := LosingRun(s, s);
    } else if CanLose(s) {
      var t :| CanReach(s, t) && Lost(t);
      var es :| Leads(s, es, t);
      SafeRunsDoNotLose(s, es, t);
      assert false;
    }
  }
}

/** `videoCaptureAndEncoding`: the main thread joins the three, closes the encoder and cleans up. */
module FileRecorder {
  import opened Pipeline

  datatype Main = JoinKey | JoinReader | JoinEncoder | CloseEncoder | Cleanup | Finished

  datatype Recorder = Recorder(threads: State, main: Main)

  datatype Step = Thread(event: Event) | MainStep

  predicate CanStep(r: Recorder, e: Step) {
    match e
    case Thread(event) => Enabled(r.threads, event)
    case MainStep =>
      match r.main
      case JoinKey => r.threads.key.KeyDone?
      case JoinReader => r.threads.reader.ReadDone?
      case JoinEncoder => r.threads.encoder.EncodeDone?
      case CloseEncoder => true
      case Cleanup => true
      case Finished => false
  }

  function TakeStep(r: Recorder, e: Step): Recorder
    requires CanStep(r, e)
  {
    match e
    case Thread(event) => r.(threads := Apply(r.threads, event))
    case MainStep =>
      r.(main := match r.main
                 case JoinKey => JoinReader
                 case JoinReader => JoinEncoder
                 case JoinEncoder => CloseEncoder
                 case CloseEncoder => Cleanup
                 case Cleanup => Finished
                 case Finished => Finished)
  }

  predicate StepsTo(r: Recorder, es: seq<Step>, t: Recorder)
    decreases |es|
  {
    if es == [] then r == t else CanStep(r, es[0]) && StepsTo(TakeStep(r, es[0]), es[1..], t)
  }

  const BEGIN: Recorder := Recorder(START, JoinKey)

  ghost predicate Occurs(r: Recorder) {
    exists es :: StepsTo(BEGIN, es, r)
  }

  /** What has been joined has ended. */
  predicate Joined(r: Recorder) {
    && (!r.main.JoinKey? ==> r.threads.key.KeyDone?)
    && (!r.main.JoinKey? && !r.main.JoinReader? ==> r.threads.reader.ReadDone?)
    && (r.main.CloseEncoder? || r.main.Cleanup? || r.main.Finished? ==> r.threads.encoder.EncodeDone?)
  }

  lemma {:induction false} OccursInv(r: Recorder, es: seq<Step>, t: Recorder)
    requires StepsTo(r, es, t) && Reachable(r.threads) && Joined(r)
    ensures Reachable(t.threads) && Joined(t)
    decreases |es|
  {
    if es != [] {
      if es[0].Thread? {
        var next := ReachableStep(r.threads, es[0].event);
      }
      OccursInv(TakeStep(r, es[0]), es[1..], t);
    }
  }

  lemma OccursMeans(r: Recorder)
    requires Occurs(r)
    ensures Reachable(r.threads) && Joined(r)
  {
    StartReachable();
    var es :| StepsTo(BEGIN, es, r);
    OccursInv(BEGIN, es, r);
  }

  /** The encoder is closed by the main thread only, after every other thread has ended. */
  lemma CloseIsAlone(r: Recorder)
    requires Occurs(r) && (r.main.CloseEncoder? || r.main.Cleanup? || r.main.Finished?)
    ensures r.threads.key.KeyDone? && r.threads.reader.ReadDone? && r.threads.encoder.EncodeDone?
    ensures r.threads.written == r.threads.freed && |r.threads.captured| <= |r.threads.written| + 1
  {
    OccursMeans(r);
    AtMostOneLost(r.threads);
  }

  /**
   No thread of the recorder can take a step exactly when all have ended, or when the main
   thread waits for an encoder that waits for frames of a reader that has ended.
   */
  lemma RecorderStuckIff(r: Recorder)
    requires Occurs(r)
    ensures (forall e | e != Thread(StopButton) :: !CanStep(r, e)) <==>
            || (r.main.Finished? && r.threads.encoder.EncodeDone?)
            || (r.main.JoinEncoder? && !r.threads.recording && r.threads.encoder == Pop(false) && r.threads.queue == [])
  {
    OccursMeans(r);
    StuckIff(r.threads);
    if forall e | e != Thread(StopButton) :: !CanStep(r, e) {
      forall e | e != StopButton ensures !Enabled(r.threads, e) {
        assert !CanStep(r, Thread(e));
      }
      assert !CanStep(r, MainStep);
    } else {
      var e :| e != Thread(StopButton) && CanStep(r, e);
      if e.Thread? {
        assert Enabled(r.threads, e.event);
      }
    }
  }

  function MainTurns(es: seq<Step>): nat {
    if es == [] then 0 else (if es[0].MainStep? then 1 else 0) + MainTurns(es[1..])
  }

  /** The main thread does five things, in this order, each once. */
  lemma {:induction false} MainInOrder(r: Recorder, es: seq<Step>, t: Recorder, done: nat)
    requires StepsTo(r, es, t)
    requires done <= 5 && r.main == [JoinKey, JoinReader, JoinEncoder, CloseEncoder, Cleanup, Finished][done]
    ensures var n := done + MainTurns(es);
            n <= 5 && t.main == [JoinKey, JoinReader, JoinEncoder, CloseEncoder, Cleanup, Finished][n]
    decreases |es|
  {
    if es != [] {
      MainInOrder(TakeStep(r, es[0]), es[1..], t, if es[0].MainStep? then done + 1 else done);
    }
  }

  function MainSteps(m: Main): nat {
    match m
    case JoinKey => 5
    case JoinReader => 4
    case JoinEncoder => 3
    case CloseEncoder => 2
    case Cleanup => 1
    case Finished => 0
  }

  /** Once recording has stopped, every run of the recorder is short, too. */
  lemma {:induction false} RecorderRunsEnd(r: Recorder, es: seq<Step>, t: Recorder)
    requires !r.threads.recording && StepsTo(r, es, t)
    ensures |es| + StepsLeft(t.threads) + MainSteps(t.main) <= StepsLeft(r.threads) + MainSteps(r.main)
    decreases |es|
  {
    if es != [] {
      if es[0].Thread? {
        StepUsesUp(r.threads, es[0].event);
      }
      RecorderRunsEnd(TakeStep(r, es[0]), es[1..], t);
    }
  }

  /** Once the encoder waits like that, the main thread never closes it: the trailer is not written. */
  lemma {:induction false} NeverClosed(r: Recorder, es: seq<Step>, t: Recorder)
    requires StepsTo(r, es, t) && Waiting(r.threads)
    requires r.main.JoinKey? || r.main.JoinReader? || r.main.JoinEncoder?
    ensures Waiting(t.threads) && (t.main.JoinKey? || t.main.JoinReader? || t.main.JoinEncoder?)
    decreases |es|
  {
    if es != [] {
      NeverClosed(TakeStep(r, es[0]), es[1..], t);
    }
  }

  /** What the threads do in a run of the recorder is a run of the threads. */
  lemma {:induction false} ThreadsReach(r: Recorder, es: seq<Step>, t: Recorder)
    requires StepsTo(r, es, t)
    ensures CanReach(r.threads, t.threads)
    decreases |es|
  {
    ReachSelf(r.threads);
    if es != [] {
      ThreadsReach(TakeStep(r, es[0]), es[1..], t);
      if es[0].Thread? {
        var next := ReachOn(r.threads, r.threads, es[0].event);
        ReachThen(r.threads, next, t.threads);
      }
    }
  }

  /** And the other way round: the main thread need not move. */
  lemma {:induction false} ThreadsGo(r: Recorder, es: seq<Event>, t: State) returns (steps: seq<Step>)
    requires Leads(r.threads, es, t)
    ensures StepsTo(r, steps, r.(threads := t))
    decreases |es|
  {
    if es == [] {
      return [];
    }
    var rest := ThreadsGo(TakeStep(r, Thread(es[0])), es[1..], t);
    steps := [Thread(es[0])] + rest;
    assert steps[1..] == rest;
  }

  /** Some run leads to a state in which the encoder waits for ever, and so is never closed. */
  ghost predicate CanStayOpen(r: Recorder) {
    exists es, t :: StepsTo(r, es, t) && Waiting(t.threads)
  }

  /** From which states the file may never be closed. */
  lemma NeverClosedIff(r: Recorder)
    requires Occurs(r)
    ensures CanStayOpen(r) <==> r.threads.recording || MayHang(r.threads)
  {
    OccursMeans(r);
    HangIff(r.threads);
    if CanHang(r.threads) {
      var t :| CanReach(r.threads, t) && Waiting(t);
      var es :| Leads(r.threads, es, t);
      var steps := ThreadsGo(r, es, t);
      assert Waiting(r.(threads := t).threads);
    } else if CanStayOpen(r) {
      var es, t :| StepsTo(r, es, t) && Waiting(t.threads);
      ThreadsReach(r, es, t);
      assert false;
    }
  }
}
