/**
 `sendLiveVideoToClient`: the capture threads of `Pipeline`, the encoder's fragments, and
 the sender thread that broadcasts them.

 The encoder thread pushes fragments while it is in `Write`, and again in `Close` after its
 loop, ending with the closing buffer.  The sender waits for a client, then pops fragments
 and broadcasts the first one as it is and every later one filtered.
 */
module LiveSender {
  import opened Bytes
  import opened BoxFilter
  import opened Pipeline

  /** A fragment in which no reached header declares a size below eight. */
  type Fragment = p: seq<byte> | !StopsAtShortSize(p) witness EmptyFragment()

  function EmptyFragment(): (p: seq<byte>)
    ensures !StopsAtShortSize(p)
  {
    []
  }

  datatype Sender =
    | ClientWait              // waits for m_client_connected
    | LoopFlag                // at the first half of the loop test
    | LoopEmpty               // recording was false: at the second half
    | Take(seenFragment: bool)
    | Deliver(fragment: Fragment)
    | SendDone

  /** `VideoStreamEncoder::Close`, run by the encoder thread after its loop. */
  datatype Closing = NotClosed | Closed(withBuffer: bool)

  datatype Live = Live(
    threads: State,
    closing: Closing,
    encoded: seq<Fragment>,
    sender: Sender,
    initSent: bool,           // m_initialization_sent
    connected: bool,          // m_client_connected
    pushed: seq<Fragment>,    // history: everything the encoder pushed
    delivered: seq<Fragment>, // history: fragments whose broadcast succeeded
    broadcast: seq<seq<byte>> // history: what was broadcast
  )

  const FIRST: Live := Live(START, NotClosed, [], ClientWait, false, false, [], [], [])

  datatype Act =
    | Thread(event: Event)
    | PushFragment(fragment: Fragment)
    | CloseWith(fragment: Fragment)
    | CloseWithout
    | ClientsChange(connected: bool)
    | Wake | LoopLoad | LoopCheck | TakeFragment | Send | SendThrows

  predicate Can(l: Live, a: Act) {
    match a
    case Thread(e) => Enabled(l.threads, e)
    case PushFragment(p) => l.threads.encoder.Write? || (l.threads.encoder.EncodeDone? && l.closing.NotClosed?)
    case CloseWith(p) => l.threads.encoder.EncodeDone? && l.closing.NotClosed?
    case CloseWithout => l.threads.encoder.EncodeDone? && l.closing.NotClosed?
    case ClientsChange(c) => true
    case Wake => l.sender.ClientWait? && l.connected
    case LoopLoad => l.sender.LoopFlag?
    case LoopCheck => l.sender.LoopEmpty?
    case TakeFragment => l.sender.Take? && l.encoded != []
    case Send => l.sender.Deliver?
    case SendThrows => l.sender.Deliver?
  }

  /** What is broadcast for a fragment. */
  function Payload(p: Fragment, initSent: bool): seq<byte> {
    if initSent then Filter(p) else p
  }

  function Do(l: Live, a: Act): Live
    requires Can(l, a)
  {
    match a
    case Thread(e) => l.(threads := Apply(l.threads, e))
    case PushFragment(p) => l.(encoded := l.encoded + [p], pushed := l.pushed + [p])
    case CloseWith(p) => l.(closing := Closed(true), encoded := l.encoded + [p], pushed := l.pushed + [p])
    case CloseWithout => l.(closing := Closed(false))
    case ClientsChange(c) => l.(connected := c)
    case Wake => l.(sender := LoopFlag)
    case LoopLoad => l.(sender := if l.threads.recording then Take(false) else LoopEmpty)
    case LoopCheck => l.(sender := if l.encoded == [] then SendDone else Take(true))
    case TakeFragment => l.(sender := Deliver(l.encoded[0]), encoded := l.encoded[1..])
    case Send =>
      l.(sender := LoopFlag, initSent := true,
         delivered := l.delivered + [l.sender.fragment],
         broadcast := l.broadcast + [Payload(l.sender.fragment, l.initSent)])
    case SendThrows => l.(sender := SendDone, initSent := true)
  }

  predicate Goes(l: Live, acts: seq<Act>, m: Live)
    decreases |acts|
  {
    if acts == [] then l == m else Can(l, acts[0]) && Goes(Do(l, acts[0]), acts[1..], m)
  }

  ghost predicate Happens(l: Live) {
    exists acts :: Goes(FIRST, acts, l)
  }

  // ---------------------------------------------------------------------------
  // The broadcast sequence
  // ---------------------------------------------------------------------------

  /** The broadcasts of a list of fragments: the first as it is, the others filtered. */
  function Image(ps: seq<Fragment>): (r: seq<seq<byte>>)
    ensures |r| == |ps|
  {
    if ps == [] then []
    else
      var n := |ps| - 1;
      Image(ps[..n]) + [Payload(ps[n], n > 0)]
  }

  lemma ImageAppend(ps: seq<Fragment>, p: Fragment)
    ensures Image(ps + [p]) == Image(ps) + [Payload(p, ps != [])]
  {
    assert (ps + [p])[..|ps|] == ps;
  }

  lemma {:induction false} ImageAt(ps: seq<Fragment>, i: nat)
    requires i < |ps|
    ensures Image(ps)[i] == Payload(ps[i], i > 0)
  {
    if i < |ps| - 1 {
      ImageAt(ps[..|ps| - 1], i);
    }
  }

  function SenderHand(s: Sender): seq<Fragment> {
    if s.Deliver? then [s.fragment] else []
  }

  /** What was broadcast is the image of what was delivered. */
  predicate ImageInv(l: Live) {
    && l.broadcast == Image(l.delivered)
    && (!l.sender.SendDone? ==> (l.initSent <==> l.delivered != []))
  }

  /** Nothing pushed is lost or reordered while the sender runs. */
  predicate OrderInv(l: Live) {
    && l.delivered <= l.pushed
    && (!l.sender.SendDone? ==> l.pushed == l.delivered + (SenderHand(l.sender) + l.encoded))
  }

  predicate BroadcastInv(l: Live) {
    ImageInv(l) && OrderInv(l)
  }

  lemma ImageStep(l: Live, a: Act)
    requires ImageInv(l) && Can(l, a)
    ensures ImageInv(Do(l, a))
  {
    if a.Send? {
      ImageAppend(l.delivered, l.sender.fragment);
    }
  }

  lemma PushKeepsOrder(l: Live, p: Fragment, m: Live)
    requires OrderInv(l)
    requires m.delivered == l.delivered && m.sender == l.sender
    requires m.encoded == l.encoded + [p] && m.pushed == l.pushed + [p]
    ensures OrderInv(m)
  {
    var hand := SenderHand(l.sender);
    assert l.delivered + (hand + (l.encoded + [p])) == l.delivered + (hand + l.encoded) + [p];
  }

  lemma TakeKeepsOrder(l: Live)
    requires OrderInv(l) && l.sender.Take? && l.encoded != []
    ensures OrderInv(Do(l, TakeFragment))
  {
    assert [] + l.encoded == [l.encoded[0]] + l.encoded[1..];
  }

  lemma SendKeepsOrder(l: Live)
    requires OrderInv(l) && l.sender.Deliver?
    ensures OrderInv(Do(l, Send))
  {
    var f := l.sender.fragment;
    assert l.delivered + ([f] + l.encoded) == (l.delivered + [f]) + ([] + l.encoded);
  }

  lemma OrderStep(l: Live, a: Act)
    requires OrderInv(l) && Can(l, a)
    ensures OrderInv(Do(l, a))
  {
    match a
    case TakeFragment => TakeKeepsOrder(l);
    case Send => SendKeepsOrder(l);
    case PushFragment(p) => PushKeepsOrder(l, p, Do(l, a));
    case CloseWith(p) => PushKeepsOrder(l, p, Do(l, a));
    case _ =>
  }

  /** The sender's waiting, and what wakes it. */
  predicate SenderInv(l: Live) {
    && (l.sender.Take? && l.sender.seenFragment ==> l.encoded != [])
    && (l.sender.LoopEmpty? ==> !l.threads.recording)
    && (l.closing.Closed? ==> l.threads.encoder.EncodeDone?)
    && (l.closing.Closed? && l.closing.withBuffer && l.sender.Take? ==> l.encoded != [])
  }

  lemma SenderStep(l: Live, a: Act)
    requires SenderInv(l) && ControlInv(l.threads) && Can(l, a)
    ensures SenderInv(Do(l, a))
  {
  }

  lemma {:induction false} HappensInv(l: Live, acts: seq<Act>, m: Live)
    requires Goes(l, acts, m)
    requires Reachable(l.threads) && BroadcastInv(l) && SenderInv(l)
    ensures Reachable(m.threads) && BroadcastInv(m) && SenderInv(m)
    decreases |acts|
  {
    if acts != [] {
      ReachableInv(l.threads);
      ImageStep(l, acts[0]);
      OrderStep(l, acts[0]);
      SenderStep(l, acts[0]);
      if acts[0].Thread? {
        var t := ReachableStep(l.threads, acts[0].event);
      }
      HappensInv(Do(l, acts[0]), acts[1..], m);
    }
  }

  lemma HappensMeans(l: Live)
    requires Happens(l)
    ensures Reachable(l.threads) && BroadcastInv(l) && SenderInv(l)
  {
    StartReachable();
    var acts :| Goes(FIRST, acts, l);
    HappensInv(FIRST, acts, l);
  }

  // ---------------------------------------------------------------------------
  // Main results
  // ---------------------------------------------------------------------------

  /**
   In every run the broadcasts are the image of a prefix of what the encoder pushed: the
   first fragment as it is, every later one filtered, in order, none twice.
   */
  lemma BroadcastIsImageOfPrefix(l: Live)
    requires Happens(l)
    ensures |l.broadcast| <= |l.pushed|
    ensures l.broadcast == Image(l.pushed[..|l.broadcast|])
    ensures forall i | 0 <= i < |l.broadcast| ::
              l.broadcast[i] == if i == 0 then l.pushed[0] else Filter(l.pushed[i])
  {
    HappensMeans(l);
    assert l.delivered == l.pushed[..|l.delivered|];
    forall i | 0 <= i < |l.broadcast|
      ensures l.broadcast[i] == if i == 0 then l.pushed[0] else Filter(l.pushed[i])
    {
      ImageAt(l.delivered, i);
    }
  }

  /** Every kept box of the fragment has a type without zero bytes. */
  ghost predicate CleanFragment(p: Fragment) {
    forall b <- Split(p).boxes :: !IsInit(b) ==> CleanType(b)
  }

  function LastChange(acts: seq<Act>, connected: bool): bool {
    if acts == [] then connected
    else LastChange(acts[1..], if acts[0].ClientsChange? then acts[0].connected else connected)
  }

  /** In every run the flags say whether a broadcast was begun, and whether a client is connected. */
  lemma {:induction false} FlagsAlong(l: Live, acts: seq<Act>, m: Live)
    requires Goes(l, acts, m)
    ensures m.initSent <==> l.initSent || Send in acts || SendThrows in acts
    ensures m.connected == LastChange(acts, l.connected)
    decreases |acts|
  {
    if acts != [] {
      assert acts == [acts[0]] + acts[1..];
      FlagsAlong(Do(l, acts[0]), acts[1..], m);
    }
  }

  /** The fragments of the encoder, the closing buffer among them, in order. */
  function Fragments(acts: seq<Act>): seq<Fragment> {
    if acts == [] then [] else FragmentsIn(acts[0]) + Fragments(acts[1..])
  }

  function FragmentsIn(a: Act): seq<Fragment> {
    if a.PushFragment? || a.CloseWith? then [a.fragment] else []
  }

  lemma PushedStep(l: Live, a: Act)
    requires Can(l, a)
    ensures Do(l, a).pushed == l.pushed + FragmentsIn(a)
  {
    assert l.pushed + [] == l.pushed;
  }

  /** Each is pushed once. */
  lemma {:induction false} PushedAlong(l: Live, acts: seq<Act>, m: Live)
    requires Goes(l, acts, m)
    ensures m.pushed == l.pushed + Fragments(acts)
    decreases |acts|
  {
    if acts == [] {
      assert l.pushed + [] == l.pushed;
    } else {
      PushedStep(l, acts[0]);
      PushedAlong(Do(l, acts[0]), acts[1..], m);
      Regroup(l.pushed, FragmentsIn(acts[0]), Fragments(acts[1..]));
    }
  }

  /** Nothing was pushed, or a frame was handed to Write, or the encoder's loop has ended. */
  predicate PushedInTime(l: Live) {
    l.pushed == [] || l.threads.encoder.Write? || l.threads.written != [] || l.threads.encoder.EncodeDone?
  }

  lemma {:induction false} PushedInTimeAlong(l: Live, acts: seq<Act>, m: Live)
    requires Goes(l, acts, m) && PushedInTime(l)
    ensures PushedInTime(m)
    decreases |acts|
  {
    if acts != [] {
      PushedInTimeAlong(Do(l, acts[0]), acts[1..], m);
    }
  }

  /** Before a frame is handed to Write, nothing is pushed and nothing broadcast, unless the encoder is closing. */
  lemma NothingBeforeAFrame(l: Live)
    requires Happens(l) && l.threads.written == []
    requires !l.threads.encoder.Write? && !l.threads.encoder.EncodeDone?
    ensures l.pushed == [] && l.broadcast == []
  {
    var acts :| Goes(FIRST, acts, l);
    PushedInTimeAlong(FIRST, acts, l);
    BroadcastIsImageOfPrefix(l);
  }

  /** Initialization boxes are sent with the first broadcast only. */
  lemma InitOnlyInFirstBroadcast(l: Live, i: nat)
    requires Happens(l) && 0 < i < |l.broadcast|
    requires i < |l.pushed| ==> CleanButLast(l.pushed[i])
    ensures i < |l.pushed| && (CleanFragment(l.pushed[i]) ==> Split(l.broadcast[i]).tail == [])
    ensures forall b <- Split(l.broadcast[i]).boxes :: !IsInit(b)
  {
    BroadcastIsImageOfPrefix(l);
    NoInitComesOut(l.pushed[i]);
    if CleanFragment(l.pushed[i]) {
      FilterIsKept(l.pushed[i]);
      KeptParses(l.pushed[i]);
    }
  }

  /** A take entered because the queue was seen not empty never waits. */
  lemma TakeAfterTestNeverWaits(l: Live)
    requires Happens(l) && l.sender == Take(true)
    ensures Can(l, TakeFragment)
  {
    HappensMeans(l);
  }

  /** The closing buffer wakes a waiting sender. */
  lemma ClosingBufferWakesSender(l: Live)
    requires Happens(l) && l.closing == Closed(true) && l.sender.Take?
    ensures Can(l, TakeFragment)
  {
    HappensMeans(l);
  }

  /** The steps of the environment: the window's stop button, and clients that come and go. */
  predicate Outside(a: Act) {
    a == Thread(StopButton) || a.ClientsChange?
  }

  /** The encoder thread has closed its encoder, or waits for frames that cannot come. */
  predicate EncoderStuck(l: Live) {
    l.closing.Closed? || (l.threads.encoder == Pop(false) && l.threads.queue == [])
  }

  predicate SenderStuck(l: Live) {
    l.sender.SendDone? || (l.sender.ClientWait? && !l.connected) || (l.sender == Take(false) && l.encoded == [])
  }

  predicate LiveStopped(l: Live) {
    l.threads.key.KeyDone? && l.threads.reader.ReadDone? && EncoderStuck(l) && SenderStuck(l)
  }

  lemma LiveStoppedMeansStuck(l: Live, a: Act)
    requires SenderInv(l) && LiveStopped(l) && !Outside(a)
    ensures !Can(l, a)
  {
    if a.Thread? {
      assert a.event != StopButton;
    }
  }

  lemma SenderHasStep(l: Live)
    requires SenderInv(l) && !SenderStuck(l)
    ensures Can(l, Wake) || Can(l, LoopLoad) || Can(l, LoopCheck) || Can(l, TakeFragment) || Can(l, SendThrows)
  {
  }

  lemma ThreadHasStep(l: Live)
    requires !(l.threads.key.KeyDone? && l.threads.reader.ReadDone? && EncoderStuck(l))
    requires Reachable(l.threads)
    ensures exists a :: !Outside(a) && Can(l, a)
  {
    StuckIff(l.threads);
    if AllStopped(l.threads) {
      assert Can(l, CloseWithout);
    } else {
      var e :| e != StopButton && Enabled(l.threads, e);
      assert Can(l, Thread(e));
    }
  }

  /** The states in which none of the four threads can take a step. */
  lemma LiveStuckIff(l: Live)
    requires Happens(l)
    ensures (forall a | !Outside(a) :: !Can(l, a)) <==> LiveStopped(l)
  {
    HappensMeans(l);
    if LiveStopped(l) {
      forall a | !Outside(a) ensures !Can(l, a) {
        LiveStoppedMeansStuck(l, a);
      }
    } else if !SenderStuck(l) {
      SenderHasStep(l);
    } else {
      ThreadHasStep(l);
    }
  }

  lemma {:induction false} GoesFurther(l: Live, acts: seq<Act>, m: Live, a: Act)
    requires Goes(l, acts, m) && Can(m, a)
    ensures Goes(l, acts + [a], Do(m, a))
    decreases |acts|
  {
    if acts == [] {
      assert Goes(Do(m, a), [], Do(m, a));
    } else {
      GoesFurther(Do(l, acts[0]), acts[1..], m, a);
      assert (acts + [a])[1..] == acts[1..] + [a];
    }
  }

  lemma HappensStep(l: Live, a: Act) returns (m: Live)
    requires Happens(l) && Can(l, a)
    ensures m == Do(l, a) && Happens(m)
  {
    m := Do(l, a);
    var acts :| Goes(FIRST, acts, l);
    GoesFurther(FIRST, acts, l, a);
  }

  /**
   The sender may leave before the last fragments: it finds the queue empty after recording
   stopped, and what the encoder pushes while it closes is never broadcast.
   */
  lemma SomeRunSendsNothing(p: Fragment) returns (l: Live)
    ensures Happens(l) && l.threads.encoder.EncodeDone? && l.closing.Closed? && l.sender.SendDone?
    ensures l.connected && l.pushed == [p] && l.broadcast == []
  {
    assert Goes(FIRST, [], FIRST);
    l := HappensStep(FIRST, ClientsChange(true));
    l := HappensStep(l, Wake);
    l := HappensStep(l, Thread(StopButton));
    l := HappensStep(l, LoopLoad);
    l := HappensStep(l, LoopCheck);
    l := HappensStep(l, Thread(EncodeLoad));
    l := HappensStep(l, Thread(EncodeEmpty));
    l := HappensStep(l, CloseWith(p));
  }

  // ---------------------------------------------------------------------------
  // What the sender misses
  // ---------------------------------------------------------------------------

  /** Everything pushed was delivered, is in the sender's hand, or is still in the queue. */
  predicate Accounted(l: Live) {
    l.pushed == l.delivered + (SenderHand(l.sender) + l.encoded)
  }

  lemma PushKeepsAccount(l: Live, p: Fragment)
    requires Accounted(l)
    ensures l.pushed + [p] == l.delivered + (SenderHand(l.sender) + (l.encoded + [p]))
  {
    var hand := SenderHand(l.sender);
    assert l.delivered + (hand + (l.encoded + [p])) == l.delivered + (hand + l.encoded) + [p];
  }

  /** Every step but a throwing send keeps the account, also after the sender has ended. */
  lemma AccountedStep(l: Live, a: Act)
    requires Accounted(l) && Can(l, a) && !a.SendThrows?
    ensures Accounted(Do(l, a))
  {
    match a
    case TakeFragment =>
      assert [] + l.encoded == [l.encoded[0]] + l.encoded[1..];
    case Send =>
      var f := l.sender.fragment;
      assert l.delivered + ([f] + l.encoded) == (l.delivered + [f]) + ([] + l.encoded);
    case PushFragment(p) => PushKeepsAccount(l, p);
    case CloseWith(p) => PushKeepsAccount(l, p);
    case _ =>
  }

  /** No send throws. */
  predicate Quiet(acts: seq<Act>) {
    forall a <- acts :: !a.SendThrows?
  }

  lemma {:induction false} QuietRunsAccount(l: Live, acts: seq<Act>, m: Live)
    requires Accounted(l) && Quiet(acts) && Goes(l, acts, m)
    ensures Accounted(m)
    decreases |acts|
  {
    if acts != [] {
      assert acts[0] in acts && forall a <- acts[1..] :: a in acts;
      AccountedStep(l, acts[0]);
      QuietRunsAccount(Do(l, acts[0]), acts[1..], m);
    }
  }

  /** In a run in which no send throws, a sender that has ended missed exactly what is left in the queue. */
  lemma MissedIsTheQueue(acts: seq<Act>, l: Live)
    requires Quiet(acts) && Goes(FIRST, acts, l) && l.sender.SendDone?
    ensures |l.broadcast| <= |l.pushed|
    ensures l.pushed == l.pushed[..|l.broadcast|] + l.encoded
  {
    assert Happens(l);
    HappensMeans(l);
    QuietRunsAccount(FIRST, acts, l);
    assert [] + l.encoded == l.encoded;
    assert l.delivered == l.pushed[..|l.delivered|];
  }

  /** The sender has ended, and a fragment was pushed that it did not broadcast. */
  predicate Missed(l: Live) {
    l.sender.SendDone? && l.delivered != l.pushed
  }

  ghost predicate CanGo(l: Live, m: Live) {
    exists acts :: Quiet(acts) && Goes(l, acts, m)
  }

  ghost predicate CanMiss(l: Live) {
    exists m :: CanGo(l, m) && Missed(m)
  }

  /** The encoder is closed, or will never get another frame. */
  predicate PushesNoMore(l: Live) {
    l.closing.Closed? || Doomed(l.threads)
  }

  predicate MissesNothing(l: Live) {
    PushesNoMore(l) && !Missed(l)
  }

  lemma PushesNoMoreStep(l: Live, a: Act)
    requires SenderInv(l) && PushesNoMore(l) && Can(l, a)
    ensures PushesNoMore(Do(l, a))
    ensures Do(l, a).pushed == l.pushed
  {
  }

  lemma MissesNothingStep(l: Live, a: Act)
    requires SenderInv(l) && OrderInv(l) && MissesNothing(l) && Can(l, a) && !a.SendThrows?
    ensures MissesNothing(Do(l, a))
  {
    PushesNoMoreStep(l, a);
    if a.LoopCheck? && l.encoded == [] {
      assert l.delivered + ([] + []) == l.delivered;
    }
  }

  lemma {:induction false} NothingMissed(l: Live, acts: seq<Act>, m: Live)
    requires Reachable(l.threads) && BroadcastInv(l) && SenderInv(l) && MissesNothing(l)
    requires Quiet(acts) && Goes(l, acts, m)
    ensures !Missed(m)
    decreases |acts|
  {
    if acts != [] {
      var a := acts[0];
      assert a in acts && forall b <- acts[1..] :: b in acts;
      MissesNothingStep(l, a);
      assert Goes(Do(l, a), [], Do(l, a));
      assert Goes(l, [a], Do(l, a));
      HappensInv(l, [a], Do(l, a));
      NothingMissed(Do(l, a), acts[1..], m);
    }
  }

  lemma GoSelf(l: Live)
    ensures CanGo(l, l)
  {
    assert Quiet([]) && Goes(l, [], l);
  }

  lemma GoOn(l: Live, m: Live, a: Act) returns (n: Live)
    requires CanGo(l, m) && Can(m, a) && !a.SendThrows?
    ensures n == Do(m, a) && CanGo(l, n)
  {
    var acts :| Quiet(acts) && Goes(l, acts, m);
    GoesFurther(l, acts, m, a);
    n := Do(m, a);
    assert Quiet(acts + [a]);
  }

  /** The threads of the pipeline can go on by themselves. */
  lemma {:induction false} ThreadsGo(l: Live, m: Live, es: seq<Event>, t: State)
    requires CanGo(l, m) && Leads(m.threads, es, t)
    ensures CanGo(l, m.(threads := t))
    decreases |es|
  {
    if es == [] {
      assert m.(threads := t) == m;
    } else {
      var n := GoOn(l, m, Thread(es[0]));
      ThreadsGo(l, n, es[1..], t);
    }
  }

  function SenderSteps(l: Live): nat {
    match l.sender
    case ClientWait => 3
    case LoopFlag => 2
    case LoopEmpty => 1
    case Take(b) => if l.encoded == [] then 4 else 0
    case Deliver(f) => 3
    case SendDone => 0
  }

  /** With the encoder's loop at its end, the sender can leave before the encoder is closed. */
  lemma {:induction false} SenderLeaves(l: Live, m: Live) returns (n: Live)
    requires CanGo(l, m) && !m.threads.recording && m.threads.encoder.EncodeDone? && m.closing.NotClosed?
    ensures CanGo(l, n) && n.sender.SendDone? && n.closing.NotClosed? && n.threads.encoder.EncodeDone?
    decreases 4 * |m.encoded| + SenderSteps(m)
  {
    n := m;
    match m.sender {
      case SendDone =>
        return;
      case ClientWait =>
        n := GoOn(l, n, ClientsChange(true));
        n := GoOn(l, n, Wake);
      case LoopFlag =>
        n := GoOn(l, n, LoopLoad);
      case LoopEmpty =>
        n := GoOn(l, n, LoopCheck);
      case Take(b) =>
        if m.encoded == [] {
          n := GoOn(l, n, PushFragment(EmptyFragment()));
        }
        n := GoOn(l, n, TakeFragment);
      case Deliver(f) =>
        n := GoOn(l, n, Send);
    }
    n := SenderLeaves(l, n);
  }

  /** The encoder comes to the end of its loop, the sender leaves, and a fragment is pushed. */
  lemma MissingRun(l: Live)
    requires Happens(l) && !PushesNoMore(l)
    ensures CanMiss(l)
  {
    HappensMeans(l);
    GoSelf(l);
    var t := EncoderCanEnd(l.threads);
    var es :| Leads(l.threads, es, t);
    ThreadsGo(l, l, es, t);
    var n := SenderLeaves(l, l.(threads := t));
    GoKeepsOrder(l, n);
    var last := GoOn(l, n, PushFragment(EmptyFragment()));
    assert |last.delivered| < |last.pushed|;
  }

  lemma GoKeepsOrder(l: Live, m: Live)
    requires Happens(l) && CanGo(l, m)
    ensures OrderInv(m)
  {
    HappensMeans(l);
    var acts :| Quiet(acts) && Goes(l, acts, m);
    HappensInv(l, acts, m);
  }

  /**
   From which states the sender can miss a fragment although no send throws: those in
   which it has missed one already, and those in which the encoder is not closed and can
   still come to the end of its loop.  From all others, all that is pushed is broadcast
   before the sender leaves.
   */
  lemma MissIff(l: Live)
    requires Happens(l)
    ensures CanMiss(l) <==> Missed(l) || (l.closing.NotClosed? && !Doomed(l.threads))
  {
    HappensMeans(l);
    if Missed(l) {
      GoSelf(l);
    } else if !PushesNoMore(l) {
      MissingRun(l);
    } else if CanMiss(l) {
      var m :| CanGo(l, m) && Missed(m);
      var acts :| Quiet(acts) && Goes(l, acts, m);
      NothingMissed(l, acts, m);
      assert false;
    }
  }

  // ---------------------------------------------------------------------------
  // After recording has stopped
  // ---------------------------------------------------------------------------

  /** The steps the sender can take before it takes another fragment. */
  function SenderWork(s: Sender): nat {
    match s
    case ClientWait => 3
    case Deliver(f) => 3
    case LoopFlag => 2
    case LoopEmpty => 1
    case Take(b) => 0
    case SendDone => 0
  }

  /** How many steps all threads together can still take, pushes and clients aside. */
  function Left(l: Live): nat {
    StepsLeft(l.threads) + SenderWork(l.sender) + 4 * |l.encoded| + if l.closing.NotClosed? then 5 else 0
  }

  /** A push counts for itself and for the sender's round; a change of the clients for itself. */
  function Weight(a: Act): nat {
    match a
    case PushFragment(p) => 5
    case ClientsChange(c) => 1
    case _ => 0
  }

  function Weights(acts: seq<Act>): nat {
    if acts == [] then 0 else Weight(acts[0]) + Weights(acts[1..])
  }

  lemma LiveStepUsesUp(l: Live, a: Act)
    requires !l.threads.recording && Can(l, a)
    ensures !Do(l, a).threads.recording && Left(Do(l, a)) + 1 <= Left(l) + Weight(a)
  {
    if a.Thread? {
      StepUsesUp(l.threads, a.event);
    }
  }

  /**
   Once recording has stopped, every run of the live stream is as short as the fragments
   still pushed and the changes of the clients allow, whatever the order of the steps.
   */
  lemma {:induction false} LiveRunsEnd(l: Live, acts: seq<Act>, m: Live)
    requires !l.threads.recording && Goes(l, acts, m)
    ensures !m.threads.recording && |acts| + Left(m) <= Left(l) + Weights(acts)
    ensures Left(l) <= 5 * |l.threads.queue| + 4 * |l.encoded| + 23
    decreases |acts|
  {
    if acts != [] {
      LiveStepUsesUp(l, acts[0]);
      LiveRunsEnd(Do(l, acts[0]), acts[1..], m);
    }
  }

  // ---------------------------------------------------------------------------
  // Waiting for ever
  // ---------------------------------------------------------------------------

  /** The sender waits for a fragment, and none will be pushed. */
  predicate Starved(l: Live) {
    l.sender.Take? && l.encoded == [] && PushesNoMore(l)
  }

  lemma {:induction false} StarvedForEver(l: Live, acts: seq<Act>, m: Live)
    requires Starved(l) && SenderInv(l) && Reachable(l.threads) && BroadcastInv(l) && Goes(l, acts, m)
    ensures Starved(m)
    decreases |acts|
  {
    if acts != [] {
      var next := Do(l, acts[0]);
      PushesNoMoreStep(l, acts[0]);
      assert Goes(next, [], next);
      assert Goes(l, [acts[0]], next);
      HappensInv(l, [acts[0]], next);
      StarvedForEver(next, acts[1..], m);
    }
  }

  ghost predicate CanStarve(l: Live) {
    exists acts, m :: Goes(l, acts, m) && Starved(m)
  }

  /** After the stop, a sender that does not wait for a fragment never will in vain. */
  predicate Fed(l: Live) {
    !l.threads.recording && !(l.sender.Take? && l.encoded == [])
  }

  lemma FedStaysFed(l: Live, a: Act)
    requires Fed(l) && Can(l, a)
    ensures Fed(Do(l, a))
  {
  }

  lemma {:induction false} FedNeverStarves(l: Live, acts: seq<Act>, m: Live)
    requires Fed(l) && Goes(l, acts, m)
    ensures !Starved(m)
    decreases |acts|
  {
    if acts != [] {
      FedStaysFed(l, acts[0]);
      FedNeverStarves(Do(l, acts[0]), acts[1..], m);
    }
  }

  lemma {:induction false} DoneStaysDone(l: Live, acts: seq<Act>, m: Live)
    requires l.sender.SendDone? && Goes(l, acts, m)
    ensures m.sender.SendDone?
    decreases |acts|
  {
    if acts != [] {
      DoneStaysDone(Do(l, acts[0]), acts[1..], m);
    }
  }

  /** While recording, the sender can send all there is and wait for another fragment. */
  lemma {:induction false} SenderWaits(l: Live, m: Live) returns (n: Live)
    requires CanGo(l, m) && m.threads.recording && !m.sender.LoopEmpty? && !m.sender.SendDone?
    ensures CanGo(l, n) && n.sender.Take? && n.encoded == []
    ensures n.threads == m.threads && n.closing == m.closing
    decreases 4 * |m.encoded| + SenderWork(m.sender)
  {
    n := m;
    match m.sender {
      case ClientWait =>
        n := GoOn(l, n, ClientsChange(true));
        n := GoOn(l, n, Wake);
      case LoopFlag =>
        n := GoOn(l, n, LoopLoad);
      case Take(b) =>
        if m.encoded == [] {
          return;
        }
        n := GoOn(l, n, TakeFragment);
      case Deliver(f) =>
        n := GoOn(l, n, Send);
    }
    n := SenderWaits(l, n);
  }

  /** With the sender waiting, the encoder can end without pushing anything, or already hangs. */
  lemma StarvingRun(l: Live, m: Live)
    requires CanGo(l, m) && Reachable(m.threads) && SenderInv(m) && m.sender.Take? && m.encoded == []
    ensures CanStarve(l)
  {
    var n := m;
    if !PushesNoMore(m) {
      var t := EncoderCanEnd(m.threads);
      var es :| Leads(m.threads, es, t);
      ThreadsGo(l, m, es, t);
      n := GoOn(l, m.(threads := t), CloseWithout);
    }
    var acts :| Quiet(acts) && Goes(l, acts, n);
    assert Starved(n);
  }

  /**
   From which states the sender can come to wait for ever: while recording, from all but
   those in which it has ended; after the stop, from those in which it already waits for a
   fragment, with none in the queue.
   */
  lemma StarveIff(l: Live)
    requires Happens(l)
    ensures CanStarve(l) <==>
            if l.threads.recording then !l.sender.SendDone? else l.sender.Take? && l.encoded == []
  {
    HappensMeans(l);
    GoSelf(l);
    if l.threads.recording && !l.sender.SendDone? {
      var n := SenderWaits(l, l);
      SenderInvAlong(l, n);
      StarvingRun(l, n);
    } else if !l.threads.recording && l.sender.Take? && l.encoded == [] {
      StarvingRun(l, l);
    } else if CanStarve(l) {
      var acts, m :| Goes(l, acts, m) && Starved(m);
      if l.sender.SendDone? {
        DoneStaysDone(l, acts, m);
      } else {
        FedNeverStarves(l, acts, m);
      }
      assert false;
    }
  }

  lemma SenderInvAlong(l: Live, m: Live)
    requires Happens(l) && CanGo(l, m)
    ensures SenderInv(m) && Reachable(m.threads)
  {
    HappensMeans(l);
    var acts :| Quiet(acts) && Goes(l, acts, m);
    HappensInv(l, acts, m);
  }
}
