/** What a client of the live stream receives, from the encoder's queue to its connection. */
module LiveClients {
  import opened BoxFilter
  import opened LiveSender
  import V = VideoStreamSockets

  /**
   The socket's events are those of a run in which the sender thread makes the broadcasts:
   a client that is connected during `during` only.
   */
  ghost predicate Connected(l: Live, before: seq<V.Event>, c: V.Client, during: seq<V.Event>, after: seq<V.Event>) {
    && Happens(l)
    && l.broadcast == V.Sent(before) + V.Sent(during) + V.Sent(after)
    && V.Open(c) !in before && V.Close(c) !in during
    && (after == [] || (after[0] == V.Close(c) && V.Open(c) !in after))
  }

  function Received(before: seq<V.Event>, c: V.Client, during: seq<V.Event>, after: seq<V.Event>): seq<V.Data> {
    V.Inbox(V.Run(V.IDLE, before + [V.Open(c)] + during + after).inboxes, c)
  }

  lemma MiddleAt<T>(a: seq<T>, b: seq<T>, c: seq<T>, i: nat)
    requires i < |b|
    ensures |a| + i < |a + b + c| && (a + b + c)[|a| + i] == b[i]
  {
  }

  lemma ReceivedAt(l: Live, before: seq<V.Event>, c: V.Client, during: seq<V.Event>, after: seq<V.Event>, i: nat)
    requires Connected(l, before, c, during, after)
    requires i < |Received(before, c, during, after)|
    ensures |V.Sent(before)| + i < |l.broadcast|
    ensures Received(before, c, during, after)[i] == l.broadcast[|V.Sent(before)| + i]
  {
    V.ReceivesSlice(before, c, during, after);
    MiddleAt(V.Sent(before), V.Sent(during), V.Sent(after), i);
  }

  /**
   A client receives consecutive fragments of the encoder, in order: the first one of the
   run as it is, if the client was there for it, and every other one filtered.
   */
  lemma ClientReceives(l: Live, before: seq<V.Event>, c: V.Client, during: seq<V.Event>, after: seq<V.Event>, i: nat)
    requires Connected(l, before, c, during, after)
    requires i < |Received(before, c, during, after)|
    ensures var n := |V.Sent(before)| + i;
            && n < |l.pushed|
            && Received(before, c, during, after)[i] == if n == 0 then l.pushed[0] else Filter(l.pushed[n])
  {
    ReceivedAt(l, before, c, during, after, i);
    BroadcastIsImageOfPrefix(l);
  }

  /** A client that connects after the first broadcast never receives an initialization box. */
  lemma LateClientGetsNoInit(l: Live, before: seq<V.Event>, c: V.Client, during: seq<V.Event>, after: seq<V.Event>,
        i: nat)
    requires Connected(l, before, c, during, after) && V.Sent(before) != []
    requires forall p <- l.pushed :: CleanButLast(p)
    requires i < |Received(before, c, during, after)|
    ensures var message := Received(before, c, during, after)[i];
            && (forall b <- Split(message).boxes :: !IsInit(b))
            && ((forall p <- l.pushed :: CleanFragment(p)) ==> Split(message).tail == [])
  {
    ReceivedAt(l, before, c, during, after, i);
    BroadcastIsImageOfPrefix(l);
    var n := |V.Sent(before)| + i;
    assert l.pushed[n] in l.pushed;
    InitOnlyInFirstBroadcast(l, n);
  }
}
