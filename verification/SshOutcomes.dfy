/** What each event achieves, said in terms of which sessions and channels are known before and after. */
module SshOutcomes {
  import opened SshState

  /** The state of a known channel. */
  function StateOf(h: Handler, s: Ptr, c: Ptr): ChannelState
    requires Known(h, s, c)
  {
    h.sessions[s].channels[c]
  }

  /** The same sessions with the same ids. */
  ghost predicate SameSessions(h: Handler, g: Handler) {
    g.sessions.Keys == h.sessions.Keys && forall s :: s in h.sessions ==> g.sessions[s].id == h.sessions[s].id
  }

  /** Nothing about any channel but c of session s differs. */
  ghost predicate OthersAsBefore(h: Handler, g: Handler, s: Ptr, c: Ptr) {
    forall t, d :: t != s || d != c ==>
      (Known(g, t, d) <==> Known(h, t, d)) && (Known(h, t, d) ==> StateOf(g, t, d) == StateOf(h, t, d))
  }

  /** A connection whose key exchange succeeds is a new session without channels, with an id no other
      session has; every other session is as it was. One whose key exchange fails leaves no trace. */
  lemma AfterAccepted(w: World, conn: Conn, keyExchange: bool)
    requires Reachable(w) && Possible(w, Accepted(conn, keyExchange))
    ensures var x := Apply(w, Accepted(conn, keyExchange));
      if !keyExchange then x == w
      else
        && x.server.sessions == w.server.sessions + [conn]
        && conn.raw in x.server.data && x.server.data[conn.raw].wrappers == []
        && (forall r :: r in w.server.data ==> r in x.server.data && x.server.data[r] == w.server.data[r])
        && conn.session !in w.handler.sessions && conn.session in x.handler.sessions
        && x.handler.sessions[conn.session].id == w.handler.nextId && x.handler.nextId == w.handler.nextId + 1
        && (forall c :: !Known(x.handler, conn.session, c))
        && (forall s :: s in w.handler.sessions ==>
              && s in x.handler.sessions && x.handler.sessions[s] == w.handler.sessions[s]
              && x.handler.sessions[s].id != x.handler.sessions[conn.session].id)
  {
    ReachableOk(w);
    if keyExchange {
      RawIsNew(w.server, conn);
    }
  }

  lemma OpenedInHandler(h: Handler, s: Ptr, chan: Ptr, node: Ptr)
    requires s in h.sessions && !Known(h, s, chan)
    ensures var g := OnChannelOpen(h, s, chan, node).0;
      && Known(g, s, chan) && StateOf(g, s, chan) == ChannelState(node, false, false)
      && SameSessions(h, g) && OthersAsBefore(h, g, s, chan)
      && g.channelOpens == h.channelOpens + 1
  {
  }

  /** The server owns one more wrapper. */
  ghost predicate OneMoreWrapper(v: Server, x: Server, raw: Ptr, chan: Ptr)
    requires raw in v.data
  {
    && x.sessions == v.sessions && x.data.Keys == v.data.Keys
    && x.data[raw].session == v.data[raw].session
    && x.data[raw].wrappers == v.data[raw].wrappers + [chan]
    && forall r :: r in v.data && r != raw ==> x.data[r] == v.data[r]
  }

  lemma OpenedInServer(v: Server, raw: Ptr, chan: Ptr)
    requires raw in v.data
    ensures var data := v.data[raw];
      OneMoreWrapper(v, v.(data := v.data[raw := data.(wrappers := data.wrappers + [chan])]), raw, chan)
  {
  }

  /** An opened channel is known, with neither a terminal nor a handler, where the server says it lives; the
      server owns one more wrapper, and nothing else changes. */
  lemma AfterChannelOpened(w: World, raw: Ptr, chan: Ptr, node: Ptr)
    requires Reachable(w) && Possible(w, ChannelOpened(raw, chan, node))
    ensures var x, s := Apply(w, ChannelOpened(raw, chan, node)), w.server.data[raw].session;
      && !Known(w.handler, s, chan)
      && Known(x.handler, s, chan) && StateOf(x.handler, s, chan) == ChannelState(node, false, false)
      && SameSessions(w.handler, x.handler) && OthersAsBefore(w.handler, x.handler, s, chan)
      && x.handler.channelOpens == w.handler.channelOpens + 1
    ensures OneMoreWrapper(w.server, Apply(w, ChannelOpened(raw, chan, node)).server, raw, chan)
  {
    ReachableOk(w);
    ChanIsNew(w, chan);
    var s := w.server.data[raw].session;
    assert Conn(s, raw) in w.server.sessions;
    assert !Known(w.handler, s, chan);
    OpenedInHandler(w.handler, s, chan, node);
    OpenedInServer(w.server, raw, chan);
  }

  /** A terminal asked for on a known channel is remembered, and nothing else changes; on a channel already
      forgotten nothing changes at all. */
  lemma AfterPtyRequested(w: World, raw: Ptr, chan: Ptr)
    requires Possible(w, PtyRequested(raw, chan))
    ensures var x, s := Apply(w, PtyRequested(raw, chan)), w.server.data[raw].session;
      if !Known(w.handler, s, chan) then x == w
      else
        && x.server == w.server && SameSessions(w.handler, x.handler)
        && OthersAsBefore(w.handler, x.handler, s, chan) && Known(x.handler, s, chan)
        && var now, was := StateOf(x.handler, s, chan), StateOf(w.handler, s, chan);
           now.hasPty && now.hasHandler == was.hasHandler && now.node == was.node
  {
  }

  /** A shell, exec or subsystem request that some callback answers leaves the channel with a handler
      exactly if that handler started; without an answer, or on a forgotten channel, nothing changes. */
  lemma AfterHandlerRequested(w: World, raw: Ptr, chan: Ptr, given: bool, started: bool)
    requires Possible(w, HandlerRequested(raw, chan, given, started))
    ensures var x, s := Apply(w, HandlerRequested(raw, chan, given, started)), w.server.data[raw].session;
      if !given || !Known(w.handler, s, chan) then x == w
      else
        && x.server == w.server && SameSessions(w.handler, x.handler)
        && OthersAsBefore(w.handler, x.handler, s, chan) && Known(x.handler, s, chan)
        && var now, was := StateOf(x.handler, s, chan), StateOf(w.handler, s, chan);
           now.hasHandler == started && now.hasPty == was.hasPty && now.node == was.node
  {
  }

  /** Polling forgets exactly the channels that have a handler which has finished. */
  lemma AfterPolled(w: World, finished: set<Ptr>)
    ensures var h, x := w.handler, Apply(w, Polled(finished));
      && x.server == w.server && SameSessions(h, x.handler)
      && (forall s, c :: Known(x.handler, s, c) <==>
            Known(h, s, c) && !(h.sessions[s].channels[c].hasHandler && c in finished))
      && (forall s, c :: Known(x.handler, s, c) ==> StateOf(x.handler, s, c) == StateOf(h, s, c))
  {
  }

  /** After some connections closed, the sessions left are exactly those of the others, unchanged on both
      sides. */
  lemma AfterClosed(w: World, raws: set<Ptr>)
    requires Reachable(w)
    ensures var x := Apply(w, Closed(raws));
      && (forall a :: a in x.server.sessions <==> a in w.server.sessions && a.raw !in raws)
      && (forall r :: r in x.server.data <==> r in w.server.data && r !in raws)
      && (forall r :: r in x.server.data ==> x.server.data[r] == w.server.data[r])
      && (forall s :: s in x.handler.sessions <==>
            exists a :: a in w.server.sessions && a.session == s && a.raw !in raws)
      && (forall s :: s in x.handler.sessions ==>
            s in w.handler.sessions && x.handler.sessions[s] == w.handler.sessions[s])
  {
    ReachableOk(w);
    EventKeepsInv(w, Closed(raws));
    var x := Apply(w, Closed(raws));
    AllClosed(w, w.server.sessions, raws);
    ClosedData(w, x, raws);
    ClosedSessions(w, x, raws);
  }

  lemma ClosedData(w: World, x: World, raws: set<Ptr>)
    requires ServerOk(w.server) && ServerOk(x.server)
    requires forall a :: a in x.server.sessions <==> a in w.server.sessions && a.raw !in raws
    requires forall r :: r in x.server.data ==> r in w.server.data && x.server.data[r] == w.server.data[r]
    ensures forall r :: r in x.server.data <==> r in w.server.data && r !in raws
  {
    forall r ensures r in x.server.data <==> r in w.server.data && r !in raws {
      if r in x.server.data {
        assert Conn(x.server.data[r].session, r) in x.server.sessions;
      }
      if r in w.server.data && r !in raws {
        var a := Conn(w.server.data[r].session, r);
        assert a in w.server.sessions;
        assert a in x.server.sessions && a.raw == r;
      }
    }
  }

  lemma ClosedSessions(w: World, x: World, raws: set<Ptr>)
    requires Linked(x) && forall a :: a in x.server.sessions <==> a in w.server.sessions && a.raw !in raws
    ensures forall s :: s in x.handler.sessions <==>
      exists a :: a in w.server.sessions && a.session == s && a.raw !in raws
  {
    forall s | s in x.handler.sessions ensures exists a :: a in w.server.sessions && a.session == s && a.raw !in raws {
      var a :| a in x.server.sessions && a.session == s;
      assert a in w.server.sessions;
    }
  }

  /** The loop over the connections: those closed among `conns` are gone, all others are as they were. */
  lemma {:induction false} AllClosed(w: World, conns: seq<Conn>, closed: set<Ptr>)
    requires Inv(w) && Among(conns, w)
    ensures var x := CloseAll(w, conns, closed);
      && (forall a :: a in x.server.sessions <==> a in w.server.sessions && !(a in conns && a.raw in closed))
      && (forall r :: r in x.server.data ==> r in w.server.data && x.server.data[r] == w.server.data[r])
      && (forall s :: s in x.handler.sessions ==>
            s in w.handler.sessions && x.handler.sessions[s] == w.handler.sessions[s])
    decreases |conns|
  {
    if conns != [] {
      Rest(conns);
      if conns[0].raw in closed {
        CloseOneKeeps(w, conns[0]);
        AmongRest(conns, w, CloseOne(w, conns[0]));
        WithoutIs(w.server.sessions, conns[0].raw);
        AllClosed(CloseOne(w, conns[0]), conns[1..], closed);
      } else {
        AmongRest(conns, w, w);
        AllClosed(w, conns[1..], closed);
      }
    }
  }
}
