/**
 The WebSocket clients of the live stream.  Each handler holds the lock from start to end,
 so a run is a list of handler calls, in any order.
 */
module VideoStreamSockets {
  import opened Bytes

  type Client = nat
  type Data = seq<byte>

  /** What each client was sent; a client that is not a key was sent nothing. */
  type Inboxes = map<Client, seq<Data>>

  function Inbox(m: Inboxes, c: Client): seq<Data> {
    if c in m then m[c] else []
  }

  /** One more message for each of the clients. */
  function Delivered(m: Inboxes, to: set<Client>, data: Data): Inboxes {
    map c | c in m.Keys + to :: Inbox(m, c) + if c in to then [data] else []
  }

  lemma DeliverOneMore(m: Inboxes, to: set<Client>, c: Client, data: Data)
    requires c !in to
    ensures Delivered(Delivered(m, to, data), {c}, data) == Delivered(m, to + {c}, data)
  {
    var l, r := Delivered(Delivered(m, to, data), {c}, data), Delivered(m, to + {c}, data);
    assert l.Keys == r.Keys;
    forall d | d in r ensures l[d] == r[d] {
      assert Inbox(Delivered(m, to, data), d) == Inbox(m, d) + if d in to then [data] else [];
      assert Inbox(m, d) + [] == Inbox(m, d);
    }
  }

  lemma DeliverNone(m: Inboxes, data: Data)
    ensures Delivered(m, {}, data) == m
  {
    var r := Delivered(m, {}, data);
    assert r.Keys == m.Keys;
    forall c | c in m ensures r[c] == m[c] {
      assert Inbox(m, c) + [] == Inbox(m, c);
    }
  }

  // ---------------------------------------------------------------------------
  // The handlers, as steps
  // ---------------------------------------------------------------------------

  datatype Hub = Hub(connections: set<Client>, connected: bool, inboxes: Inboxes, broadcasts: seq<Data>)

  const IDLE: Hub := Hub({}, false, map[], [])

  datatype Event = Open(client: Client) | Close(client: Client) | Broadcast(data: Data)

  function Step(h: Hub, e: Event): Hub {
    match e
    case Open(c) => h.(connections := h.connections + {c}, connected := true)
    case Close(c) =>
      var left := h.connections - {c};
      h.(connections := left, connected := h.connected && left != {})
    case Broadcast(data) =>
      h.(inboxes := Delivered(h.inboxes, h.connections, data), broadcasts := h.broadcasts + [data])
  }

  function Run(h: Hub, es: seq<Event>): Hub
    decreases |es|
  {
    if es == [] then h else Run(Step(h, es[0]), es[1..])
  }

  class VideoStreamSocket {
    var m_connections: set<Client>
    var m_client_connected: bool
    var inboxes: Inboxes
    ghost var broadcasts: seq<Data>

    ghost function State(): Hub
      reads this
    {
      Hub(m_connections, m_client_connected, inboxes, broadcasts)
    }

    /** What holds whenever the lock is free. */
    ghost predicate Valid()
      reads this
    {
      m_client_connected <==> m_connections != {}
    }

    constructor ()
      ensures Valid() && State() == IDLE
    {
      m_connections, m_client_connected, inboxes, broadcasts := {}, false, map[], [];
    }

    method OnOpen(hdl: Client)
      requires Valid()
      modifies this
      ensures Valid() && State() == Step(old(State()), Open(hdl))
    {
      m_connections := m_connections + {hdl};
      m_client_connected := true;
      assert hdl in m_connections;
    }

    method OnClose(hdl: Client)
      requires Valid()
      modifies this
      ensures Valid() && State() == Step(old(State()), Close(hdl))
    {
      m_connections := m_connections - {hdl};
      if m_connections == {} {
        m_client_connected := false;
      }
      assert m_client_connected ==> old(m_client_connected);
    }

    /**
     Sends to every client in some order; a send that fails throws, and leaves the loop.
     Then the clients that come before it in that order have the data, and no others.
     */
    method SendVideoData(data: Data, failing: set<Client>) returns (thrown: bool, ghost reached: set<Client>)
      requires Valid()
      modifies this`inboxes, this`broadcasts
      ensures Valid() && thrown == (failing * m_connections != {})
      ensures !thrown ==> reached == m_connections && State() == Step(old(State()), Broadcast(data))
      ensures thrown ==> reached <= m_connections - failing && broadcasts == old(broadcasts)
      ensures inboxes == Delivered(old(inboxes), reached, data)
    {
      var todo := m_connections;
      reached, thrown := {}, false;
      DeliverNone(inboxes, data);
      while todo != {}
        invariant reached <= m_connections - failing && todo == m_connections - reached
        invariant inboxes == Delivered(old(inboxes), reached, data)
        invariant broadcasts == old(broadcasts)
        decreases todo
      {
        var hdl :| hdl in todo;
        if hdl in failing {
          assert hdl in failing * m_connections;
          return true, reached;
        }
        DeliverOneMore(old(inboxes), reached, hdl, data);
        inboxes := Delivered(inboxes, {hdl}, data);
        reached := reached + {hdl};
        todo := todo - {hdl};
      }
      broadcasts := broadcasts + [data];
    }
  }

  // ---------------------------------------------------------------------------
  // Runs
  // ---------------------------------------------------------------------------

  /** The data of the broadcasts among the events, in order. */
  function Sent(es: seq<Event>): seq<Data> {
    if es == [] then []
    else (if es[0].Broadcast? then [es[0].data] else []) + Sent(es[1..])
  }

  lemma {:induction false} RunAppend(h: Hub, es: seq<Event>, fs: seq<Event>)
    ensures Run(h, es + fs) == Run(Run(h, es), fs)
    decreases |es|
  {
    if es == [] {
      assert es + fs == fs;
    } else {
      assert (es + fs)[1..] == es[1..] + fs;
      RunAppend(Step(h, es[0]), es[1..], fs);
    }
  }

  /** The flag says whether there is a client, in every run. */
  lemma {:induction false} FlagMeansClients(h: Hub, es: seq<Event>)
    requires h.connected <==> h.connections != {}
    ensures Run(h, es).connected <==> Run(h, es).connections != {}
    decreases |es|
  {
    if es != [] {
      var next := Step(h, es[0]);
      if es[0].Open? {
        assert es[0].client in next.connections;
      }
      FlagMeansClients(next, es[1..]);
    }
  }

  lemma {:induction false} RunBroadcasts(h: Hub, es: seq<Event>)
    ensures Run(h, es).broadcasts == h.broadcasts + Sent(es)
    decreases |es|
  {
    if es == [] {
      assert h.broadcasts + [] == h.broadcasts;
    } else {
      RunBroadcasts(Step(h, es[0]), es[1..]);
      var first := if es[0].Broadcast? then [es[0].data] else [];
      assert h.broadcasts + (first + Sent(es[1..])) == (h.broadcasts + first) + Sent(es[1..]);
      assert h.broadcasts + [] == h.broadcasts;
    }
  }

  /** A client that is not connected, and does not connect, is sent nothing. */
  lemma {:induction false} AwayReceivesNothing(h: Hub, es: seq<Event>, c: Client)
    requires c !in h.connections && Open(c) !in es
    ensures c !in Run(h, es).connections && Inbox(Run(h, es).inboxes, c) == Inbox(h.inboxes, c)
    decreases |es|
  {
    if es != [] {
      assert es[0] in es;
      StepInbox(h, es[0], c);
      AwayReceivesNothing(Step(h, es[0]), es[1..], c);
    }
  }

  lemma StepInbox(h: Hub, e: Event, c: Client)
    ensures Inbox(Step(h, e).inboxes, c)
         == Inbox(h.inboxes, c) + if e.Broadcast? && c in h.connections then [e.data] else []
  {
    assert Inbox(h.inboxes, c) + [] == Inbox(h.inboxes, c);
  }

  /** A connected client is sent every broadcast until it closes. */
  lemma {:induction false} ConnectedReceivesAll(h: Hub, es: seq<Event>, c: Client)
    requires c in h.connections && Close(c) !in es
    ensures c in Run(h, es).connections && Inbox(Run(h, es).inboxes, c) == Inbox(h.inboxes, c) + Sent(es)
    decreases |es|
  {
    if es == [] {
      assert Inbox(h.inboxes, c) + [] == Inbox(h.inboxes, c);
    } else {
      assert es[0] in es;
      StepInbox(h, es[0], c);
      ConnectedReceivesAll(Step(h, es[0]), es[1..], c);
      var first := if es[0].Broadcast? then [es[0].data] else [];
      assert Inbox(h.inboxes, c) + (first + Sent(es[1..])) == (Inbox(h.inboxes, c) + first) + Sent(es[1..]);
    }
  }

  /**
   What a client receives is a contiguous part of all broadcasts: from the first one after
   it opened to the last one before it closed, whatever the other clients do.
   */
  lemma ReceivesSlice(before: seq<Event>, c: Client, during: seq<Event>, after: seq<Event>)
    requires Open(c) !in before && Close(c) !in during
    requires after == [] || (after[0] == Close(c) && Open(c) !in after)
    ensures var h := Run(IDLE, before + [Open(c)] + during + after);
            && h.broadcasts == Sent(before) + Sent(during) + Sent(after)
            && Inbox(h.inboxes, c) == Sent(during)
            && Inbox(h.inboxes, c) == h.broadcasts[|Sent(before)|..|Sent(before)| + |Sent(during)|]
  {
    var h0 := Run(IDLE, before);
    var h1 := Step(h0, Open(c));
    var h2 := Run(h1, during);
    Stages(before, Open(c), during, after);
    AwayReceivesNothing(IDLE, before, c);
    ConnectedReceivesAll(h1, during, c);
    assert [] + Sent(during) == Sent(during);
    RunBroadcasts(IDLE, before);
    RunBroadcasts(h1, during);
    RunBroadcasts(h2, after);
    assert [] + Sent(before) == Sent(before);
    if after != [] {
      var h3 := Step(h2, after[0]);
      assert forall e <- after[1..] :: e in after;
      AwayReceivesNothing(h3, after[1..], c);
    }
  }

  lemma Stages(before: seq<Event>, e: Event, during: seq<Event>, after: seq<Event>)
    ensures Run(IDLE, before + [e] + during + after)
         == Run(Run(Step(Run(IDLE, before), e), during), after)
  {
    RunAppend(IDLE, before + [e] + during, after);
    RunAppend(IDLE, before + [e], during);
    RunAppend(IDLE, before, [e]);
    var h := Run(IDLE, before);
    assert [e][1..] == [];
    assert Run(Step(h, e), []) == Step(h, e);
  }
}
