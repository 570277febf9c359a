/** What the SSH server and its handler remember about sessions and channels, and what every turn of
    the event loop does to it. Addresses are numbers; a freed address may be used again. */
module SshState {

  type Ptr = nat

  /** `node` is where the state lives inside the handler's map. */
  datatype ChannelState = ChannelState(node: Ptr, hasPty: bool, hasHandler: bool)

  datatype SessionState = SessionState(id: nat, channels: map<Ptr, ChannelState>)

  /** BasicSshServerHandler: nested session maps beside a flat index of pointers into them. */
  datatype Handler = Handler(sessions: map<Ptr, SessionState>, index: map<Ptr, Ptr>, nextId: nat,
                             opens: nat, closes: nat, channelOpens: nat)

  /** An open session: the server's wrapper and the libssh session it wraps. */
  datatype Conn = Conn(session: Ptr, raw: Ptr)

  /** The channel wrappers the server allocated for a session, and frees with it. */
  datatype Data = Data(session: Ptr, wrappers: seq<Ptr>)

  datatype Server = Server(sessions: seq<Conn>, data: map<Ptr, Data>)

  datatype World = World(server: Server, handler: Handler)

  // ---- the handler's callbacks ----

  function OnSessionOpened(h: Handler, s: Ptr): Handler {
    h.(sessions := h.sessions[s := SessionState(h.nextId, map[])], nextId := h.nextId + 1, opens := h.opens + 1)
  }

  function OnSessionClosed(h: Handler, s: Ptr): Handler {
    if s !in h.sessions then h.(closes := h.closes + 1)
    else h.(sessions := h.sessions - {s}, index := h.index - h.sessions[s].channels.Keys, closes := h.closes + 1)
  }

  function Place(h: Handler, s: Ptr, c: Ptr, state: ChannelState): Handler
    requires s in h.sessions
  {
    h.(sessions := h.sessions[s := h.sessions[s].(channels := h.sessions[s].channels[c := state])])
  }

  /** A channel already there is overwritten where it is; a new one lives at `node`. */
  function OnChannelOpen(h: Handler, s: Ptr, c: Ptr, node: Ptr): (Handler, bool) {
    if s !in h.sessions then (h, false)
    else
      var at := if c in h.sessions[s].channels then h.sessions[s].channels[c].node else node;
      (Place(h, s, c, ChannelState(at, false, false)).(index := h.index[c := at], channelOpens := h.channelOpens + 1),
       true)
  }

  predicate Known(h: Handler, s: Ptr, c: Ptr) { s in h.sessions && c in h.sessions[s].channels }

  function OnRequestPty(h: Handler, s: Ptr, c: Ptr): (Handler, bool) {
    if !Known(h, s, c) then (h, false)
    else (Place(h, s, c, h.sessions[s].channels[c].(hasPty := true)), true)
  }

  /** A shell, exec or subsystem request: `given` if a callback supplied a handler, `started` if that
      handler started. A refused request leaves an earlier handler in place, a failed start does not. */
  function OnRequestHandler(h: Handler, s: Ptr, c: Ptr, given: bool, started: bool): (Handler, bool) {
    if !Known(h, s, c) || !given then (h, false)
    else (Place(h, s, c, h.sessions[s].channels[c].(hasHandler := started)), started)
  }

  predicate Done(state: ChannelState, c: Ptr, finished: set<Ptr>) { state.hasHandler && c in finished }

  function DoneIn(channels: map<Ptr, ChannelState>, finished: set<Ptr>): set<Ptr> {
    set c | c in channels && Done(channels[c], c, finished)
  }

  function PollSession(h: Handler, s: Ptr, finished: set<Ptr>): Handler
    requires s in h.sessions
  {
    var gone := DoneIn(h.sessions[s].channels, finished);
    h.(sessions := h.sessions[s := h.sessions[s].(channels := h.sessions[s].channels - gone)], index := h.index - gone)
  }

  /** After on_poll the channels whose handler has finished are gone. */
  function OnPoll(h: Handler, finished: set<Ptr>): Handler {
    var gone := set s, c | s in h.sessions && c in DoneIn(h.sessions[s].channels, finished) :: c;
    h.(sessions := map s | s in h.sessions ::
         h.sessions[s].(channels := h.sessions[s].channels - DoneIn(h.sessions[s].channels, finished)),
       index := h.index - gone)
  }

  // ---- the server ----

  function Without(conns: seq<Conn>, raw: Ptr): seq<Conn> {
    if conns == [] then []
    else (if conns[0].raw == raw then [] else [conns[0]]) + Without(conns[1..], raw)
  }

  function CleanupSession(v: Server, raw: Ptr): Server { Server(Without(v.sessions, raw), v.data - {raw}) }

  function OpenChannel(w: World, raw: Ptr, c: Ptr, node: Ptr): World
    requires raw in w.server.data
  {
    var data := w.server.data[raw];
    var (handler, allowed) := OnChannelOpen(w.handler, data.session, c, node);
    World(if allowed then w.server.(data := w.server.data[raw := data.(wrappers := data.wrappers + [c])]) else w.server,
          handler)
  }

  /** A key exchange that fails leaves nothing behind. */
  function Accept(w: World, conn: Conn, keyExchange: bool): World {
    if !keyExchange then w
    else World(Server(w.server.sessions + [conn], w.server.data[conn.raw := Data(conn.session, [])]),
               OnSessionOpened(w.handler, conn.session))
  }

  function CloseOne(w: World, conn: Conn): World {
    World(CleanupSession(w.server, conn.raw), OnSessionClosed(w.handler, conn.session))
  }

  function CloseAll(w: World, conns: seq<Conn>, closed: set<Ptr>): World
    decreases |conns|
  {
    if conns == [] then w
    else CloseAll(if conns[0].raw in closed then CloseOne(w, conns[0]) else w, conns[1..], closed)
  }

  // ---- the event loop ----

  datatype Event =
    | Accepted(conn: Conn, keyExchange: bool)
    | ChannelOpened(raw: Ptr, chan: Ptr, node: Ptr)
    | PtyRequested(raw: Ptr, chan: Ptr)
    | HandlerRequested(raw: Ptr, chan: Ptr, given: bool, started: bool)
    | Polled(finished: set<Ptr>)
    | Closed(raws: set<Ptr>)

  predicate Owned(v: Server, c: Ptr) { exists r :: r in v.data && c in v.data[r].wrappers }

  /** New addresses differ from those still in use; callbacks come only for what the server has. */
  ghost predicate Possible(w: World, e: Event) {
    match e
    case Accepted(conn, _) => forall x :: x in w.server.sessions ==> x.session != conn.session && x.raw != conn.raw
    case ChannelOpened(raw, chan, node) =>
      && raw in w.server.data && !Owned(w.server, chan)
      && forall s, c :: Known(w.handler, s, c) ==> w.handler.sessions[s].channels[c].node != node
    case PtyRequested(raw, chan) => raw in w.server.data && chan in w.server.data[raw].wrappers
    case HandlerRequested(raw, chan, _, _) => raw in w.server.data && chan in w.server.data[raw].wrappers
    case Polled(_) => true
    case Closed(_) => true
  }

  function Apply(w: World, e: Event): World
    requires e.ChannelOpened? || e.PtyRequested? || e.HandlerRequested? ==> e.raw in w.server.data
  {
    match e
    case Accepted(conn, ok) => Accept(w, conn, ok)
    case ChannelOpened(raw, chan, node) => OpenChannel(w, raw, chan, node)
    case PtyRequested(raw, chan) => w.(handler := OnRequestPty(w.handler, w.server.data[raw].session, chan).0)
    case HandlerRequested(raw, chan, given, started) =>
      w.(handler := OnRequestHandler(w.handler, w.server.data[raw].session, chan, given, started).0)
    case Polled(finished) => w.(handler := OnPoll(w.handler, finished))
    case Closed(raws) => CloseAll(w, w.server.sessions, raws)
  }

  ghost predicate Runs(w: World, events: seq<Event>, to: World)
    decreases |events|
  {
    if events == [] then w == to else Possible(w, events[0]) && Runs(Apply(w, events[0]), events[1..], to)
  }

  const START := World(Server([], map[]), Handler(map[], map[], 1, 0, 0, 0))

  ghost predicate Reachable(w: World) { exists events :: Runs(START, events, w) }

  // ---- the invariant ----

  ghost predicate Apart(conns: seq<Conn>) { forall i, j :: 0 <= i < j < |conns| ==> conns[i] != conns[j] }

  ghost predicate ServerOk(v: Server) {
    && Apart(v.sessions)
    && (forall a, b :: a in v.sessions && b in v.sessions && (a.session == b.session || a.raw == b.raw) ==> a == b)
    && (forall a :: a in v.sessions ==> a.raw in v.data && v.data[a.raw].session == a.session)
    && (forall r :: r in v.data ==> Conn(v.data[r].session, r) in v.sessions)
    && (forall r, q :: r in v.data && q in v.data ==>
          forall c :: c in v.data[r].wrappers && c in v.data[q].wrappers ==> r == q)
  }

  /** The flat index agrees with the nested maps. */
  ghost predicate IndexExact(h: Handler) {
    && (forall s, c :: Known(h, s, c) ==> c in h.index && h.index[c] == h.sessions[s].channels[c].node)
    && (forall c :: c in h.index ==> exists s :: Known(h, s, c))
  }

  ghost predicate NodesApart(h: Handler) {
    forall s, c, t, d :: Known(h, s, c) && Known(h, t, d) &&
      h.sessions[s].channels[c].node == h.sessions[t].channels[d].node
      ==> s == t && c == d
  }

  ghost predicate IdsOk(h: Handler) {
    && (forall s :: s in h.sessions ==> h.sessions[s].id < h.nextId)
    && (forall s, t :: s in h.sessions && t in h.sessions && h.sessions[s].id == h.sessions[t].id ==> s == t)
  }

  /** Handler and server know the same sessions, and the handler only channels the server still owns. */
  ghost predicate Linked(w: World) {
    && (forall a :: a in w.server.sessions ==> a.session in w.handler.sessions)
    && (forall s :: s in w.handler.sessions ==> exists a :: a in w.server.sessions && a.session == s)
    && (forall r, c :: r in w.server.data && Known(w.handler, w.server.data[r].session, c) ==>
      c in w.server.data[r].wrappers)
  }

  ghost predicate Counted(h: Handler) { h.opens == h.closes + |h.sessions| }

  ghost predicate Inv(w: World) {
    && ServerOk(w.server)
    && IndexExact(w.handler)
    && NodesApart(w.handler)
    && IdsOk(w.handler)
    && Linked(w)
    && Counted(w.handler)
  }

  /** Two sessions never share a channel. */
  lemma ChannelHasOneSession(h: Handler, s: Ptr, t: Ptr, c: Ptr)
    requires IndexExact(h) && NodesApart(h) && Known(h, s, c) && Known(h, t, c)
    ensures s == t
  {
  }

  // ---- every event keeps it ----

  /** The channels of `g` are channels of `h` at the same place, and the index of `g` lists just them. */
  ghost predicate Narrowed(h: Handler, g: Handler) {
    && (forall s, c :: Known(g, s, c) ==>
          Known(h, s, c) && g.sessions[s].channels[c].node == h.sessions[s].channels[c].node)
    && (forall c :: c in g.index ==> c in h.index && g.index[c] == h.index[c])
    && (forall s, c :: Known(h, s, c) ==> (Known(g, s, c) <==> c in g.index))
  }

  lemma NarrowedKeeps(h: Handler, g: Handler)
    requires IndexExact(h) && NodesApart(h) && Narrowed(h, g)
    ensures IndexExact(g) && NodesApart(g)
  {
    forall c | c in g.index ensures exists s :: Known(g, s, c) {
      var s :| Known(h, s, c);
      assert Known(g, s, c);
    }
  }

  ghost predicate SameIds(h: Handler, g: Handler) {
    && h.sessions.Keys == g.sessions.Keys && h.nextId == g.nextId && h.opens == g.opens && h.closes == g.closes
    && forall s :: s in h.sessions ==> h.sessions[s].id == g.sessions[s].id
  }

  lemma SameIdsKeeps(h: Handler, g: Handler)
    requires IdsOk(h) && Counted(h) && SameIds(h, g)
    ensures IdsOk(g) && Counted(g)
  {
    assert |h.sessions| == |h.sessions.Keys| && |g.sessions| == |g.sessions.Keys|;
  }

  lemma LinkedNarrows(w: World, h: Handler)
    requires Linked(w) && Narrowed(w.handler, h) && h.sessions.Keys == w.handler.sessions.Keys
    ensures Linked(w.(handler := h))
  {
  }

  lemma HandlerChange(w: World, h: Handler)
    requires Inv(w) && Narrowed(w.handler, h) && SameIds(w.handler, h)
    ensures Inv(w.(handler := h))
  {
    NarrowedKeeps(w.handler, h);
    SameIdsKeeps(w.handler, h);
    LinkedNarrows(w, h);
  }

  lemma OpenedNarrows(h: Handler, s: Ptr)
    requires IndexExact(h) && s !in h.sessions
    ensures Narrowed(h, OnSessionOpened(h, s))
  {
    forall t, c ensures Known(OnSessionOpened(h, s), t, c) <==> Known(h, t, c) {
    }
  }

  lemma OpenedIds(h: Handler, s: Ptr)
    requires IdsOk(h) && Counted(h) && s !in h.sessions
    ensures IdsOk(OnSessionOpened(h, s)) && Counted(OnSessionOpened(h, s))
  {
    var g := OnSessionOpened(h, s);
    assert g.sessions.Keys == h.sessions.Keys + {s};
    assert |g.sessions| == |g.sessions.Keys| && |h.sessions| == |h.sessions.Keys|;
  }

  lemma OpenedHandler(h: Handler, s: Ptr)
    requires IndexExact(h) && NodesApart(h) && IdsOk(h) && Counted(h) && s !in h.sessions
    ensures var g := OnSessionOpened(h, s); IndexExact(g) && NodesApart(g) && IdsOk(g) && Counted(g)
  {
    OpenedNarrows(h, s);
    NarrowedKeeps(h, OnSessionOpened(h, s));
    OpenedIds(h, s);
  }

  lemma AcceptKeeps(w: World, conn: Conn, ok: bool)
    requires Inv(w) && Possible(w, Accepted(conn, ok))
    ensures Inv(Accept(w, conn, ok))
  {
    if ok {
      assert conn.session !in w.handler.sessions;
      OpenedHandler(w.handler, conn.session);
      AcceptServer(w.server, conn);
      AcceptLinked(w, conn);
    }
  }

  lemma AcceptLinked(w: World, conn: Conn)
    requires ServerOk(w.server) && Linked(w) && conn.raw !in w.server.data && conn.session !in w.handler.sessions
    ensures Linked(Accept(w, conn, true))
  {
    var x := Accept(w, conn, true);
    forall s | s in x.handler.sessions ensures exists a :: a in x.server.sessions && a.session == s {
      if s == conn.session {
        assert conn in x.server.sessions;
      } else {
        var a :| a in w.server.sessions && a.session == s;
        assert a in x.server.sessions;
      }
    }
    forall r, c | r in x.server.data && Known(x.handler, x.server.data[r].session, c)
      ensures c in x.server.data[r].wrappers
    {
      assert Known(w.handler, x.server.data[r].session, c);
    }
  }

  lemma RawIsNew(v: Server, conn: Conn)
    requires ServerOk(v) && forall x :: x in v.sessions ==> x.raw != conn.raw
    ensures conn.raw !in v.data
  {
    forall r | r in v.data ensures r != conn.raw {
      assert Conn(v.data[r].session, r) in v.sessions;
    }
  }

  lemma AcceptServer(v: Server, conn: Conn)
    requires ServerOk(v) && forall x :: x in v.sessions ==> x.session != conn.session && x.raw != conn.raw
    ensures conn.raw !in v.data && ServerOk(Server(v.sessions + [conn], v.data[conn.raw := Data(conn.session, [])]))
  {
    RawIsNew(v, conn);
    var x := v.sessions + [conn];
    forall a ensures a in x <==> a in v.sessions || a == conn {
    }
  }

  lemma ChanIsNew(w: World, chan: Ptr)
    requires Linked(w) && ServerOk(w.server) && !Owned(w.server, chan)
    ensures forall t :: !Known(w.handler, t, chan)
  {
    forall t, c | Known(w.handler, t, c) ensures c != chan {
      var a :| a in w.server.sessions && a.session == t;
      assert c in w.server.data[a.raw].wrappers;
    }
  }

  lemma AddedKnown(h: Handler, s: Ptr, chan: Ptr, node: Ptr, t: Ptr, c: Ptr)
    requires s in h.sessions && !Known(h, s, chan)
    ensures var g := OnChannelOpen(h, s, chan, node).0;
      && (Known(g, t, c) <==> Known(h, t, c) || (t == s && c == chan))
      && (Known(g, t, c) && (t != s || c != chan) ==> g.sessions[t].channels[c].node == h.sessions[t].channels[c].node)
      && g.sessions[s].channels[chan].node == node
  {
  }

  lemma AddedNodes(h: Handler, s: Ptr, chan: Ptr, node: Ptr)
    requires NodesApart(h) && s in h.sessions && !Known(h, s, chan)
    requires forall t, c :: Known(h, t, c) ==> h.sessions[t].channels[c].node != node
    ensures NodesApart(OnChannelOpen(h, s, chan, node).0)
  {
    var g := OnChannelOpen(h, s, chan, node).0;
    forall t, c, u, d | Known(g, t, c) && Known(g, u, d)
      && g.sessions[t].channels[c].node == g.sessions[u].channels[d].node
      ensures t == u && c == d
    {
      AddedKnown(h, s, chan, node, t, c);
      AddedKnown(h, s, chan, node, u, d);
    }
  }

  lemma AddedIndex(h: Handler, s: Ptr, chan: Ptr, node: Ptr)
    requires IndexExact(h) && s in h.sessions && forall t :: !Known(h, t, chan)
    ensures IndexExact(OnChannelOpen(h, s, chan, node).0)
  {
    var g := OnChannelOpen(h, s, chan, node).0;
    assert !Known(h, s, chan);
    forall t, c | Known(g, t, c) ensures c in g.index && g.index[c] == g.sessions[t].channels[c].node {
      AddedKnown(h, s, chan, node, t, c);
    }
    forall c | c in g.index ensures exists t :: Known(g, t, c) {
      if c == chan {
        AddedKnown(h, s, chan, node, s, c);
      } else {
        var t :| Known(h, t, c);
        AddedKnown(h, s, chan, node, t, c);
      }
    }
  }

  lemma AddedHandler(h: Handler, s: Ptr, chan: Ptr, node: Ptr)
    requires IndexExact(h) && NodesApart(h) && s in h.sessions && forall t :: !Known(h, t, chan)
    requires forall t, c :: Known(h, t, c) ==> h.sessions[t].channels[c].node != node
    ensures var g := OnChannelOpen(h, s, chan, node).0; IndexExact(g) && NodesApart(g)
  {
    assert !Known(h, s, chan);
    AddedIndex(h, s, chan, node);
    AddedNodes(h, s, chan, node);
  }

  lemma OpenKeeps(w: World, raw: Ptr, chan: Ptr, node: Ptr)
    requires Inv(w) && Possible(w, ChannelOpened(raw, chan, node))
    ensures Inv(OpenChannel(w, raw, chan, node))
    ensures OnChannelOpen(w.handler, w.server.data[raw].session, chan, node).1
  {
    var s := w.server.data[raw].session;
    assert Conn(s, raw) in w.server.sessions;
    ChanIsNew(w, chan);
    AddedHandler(w.handler, s, chan, node);
    SameIdsKeeps(w.handler, OnChannelOpen(w.handler, s, chan, node).0);
    OpenServer(w.server, raw, chan);
    OpenLinked(w, raw, chan, node);
  }

  lemma OpenServer(v: Server, raw: Ptr, chan: Ptr)
    requires ServerOk(v) && raw in v.data && !Owned(v, chan)
    ensures ServerOk(v.(data := v.data[raw := v.data[raw].(wrappers := v.data[raw].wrappers + [chan])]))
  {
    var d := v.data[raw := v.data[raw].(wrappers := v.data[raw].wrappers + [chan])];
    forall r, c | r in d && c in d[r].wrappers ensures c in v.data[r].wrappers || (r == raw && c == chan) {
    }
  }

  lemma OpenLinked(w: World, raw: Ptr, chan: Ptr, node: Ptr)
    requires Inv(w) && raw in w.server.data && w.server.data[raw].session in w.handler.sessions
    ensures Linked(OpenChannel(w, raw, chan, node))
  {
    var x := OpenChannel(w, raw, chan, node);
    forall r, c | r in x.server.data && Known(x.handler, x.server.data[r].session, c)
      ensures c in x.server.data[r].wrappers
    {
      OpenedWrappers(w, raw, chan, node, r, c);
    }
  }

  lemma OpenedWrappers(w: World, raw: Ptr, chan: Ptr, node: Ptr, r: Ptr, c: Ptr)
    requires ServerOk(w.server) && Linked(w) && raw in w.server.data && w.server.data[raw].session in w.handler.sessions
    requires r in w.server.data && Known(OpenChannel(w, raw, chan, node).handler, w.server.data[r].session, c)
    ensures c in OpenChannel(w, raw, chan, node).server.data[r].wrappers
  {
    if c == chan && w.server.data[r].session == w.server.data[raw].session {
      OneRaw(w.server, r, raw);
    } else {
      assert Known(w.handler, w.server.data[r].session, c);
    }
  }

  lemma OneRaw(v: Server, r: Ptr, q: Ptr)
    requires ServerOk(v) && r in v.data && q in v.data && v.data[r].session == v.data[q].session
    ensures r == q
  {
    assert Conn(v.data[r].session, r) in v.sessions && Conn(v.data[q].session, q) in v.sessions;
  }

  /** Changing the state of a known channel in place keeps everything. */
  lemma PlaceKeeps(w: World, s: Ptr, c: Ptr, state: ChannelState)
    requires Inv(w) && Known(w.handler, s, c) && state.node == w.handler.sessions[s].channels[c].node
    ensures Inv(w.(handler := Place(w.handler, s, c, state)))
  {
    PlaceNarrows(w.handler, s, c, state);
    PlaceIds(w.handler, s, c, state);
    HandlerChange(w, Place(w.handler, s, c, state));
  }

  lemma PlaceIds(h: Handler, s: Ptr, c: Ptr, state: ChannelState)
    requires s in h.sessions
    ensures SameIds(h, Place(h, s, c, state))
  {
  }

  lemma PlaceNarrows(h: Handler, s: Ptr, c: Ptr, state: ChannelState)
    requires IndexExact(h) && Known(h, s, c) && state.node == h.sessions[s].channels[c].node
    ensures Narrowed(h, Place(h, s, c, state))
  {
    var g := Place(h, s, c, state);
    forall t, d ensures Known(g, t, d) <==> Known(h, t, d) {
    }
    forall t, d | Known(g, t, d) ensures g.sessions[t].channels[d].node == h.sessions[t].channels[d].node {
      PlacedNode(h, s, c, state, t, d);
    }
  }

  lemma PlacedNode(h: Handler, s: Ptr, c: Ptr, state: ChannelState, t: Ptr, d: Ptr)
    requires Known(h, s, c) && Known(h, t, d) && state.node == h.sessions[s].channels[c].node
    ensures Place(h, s, c, state).sessions[t].channels[d].node == h.sessions[t].channels[d].node
  {
  }

  /** Forgetting channels, in the maps and in the index alike, keeps everything. */
  lemma ForgetKeeps(w: World, h: Handler, gone: set<Ptr>)
    requires Inv(w) && h.sessions.Keys == w.handler.sessions.Keys && h.nextId == w.handler.nextId
    requires h.opens == w.handler.opens && h.closes == w.handler.closes
    requires h.index == w.handler.index - gone
    requires forall s :: s in h.sessions ==>
      && h.sessions[s].id == w.handler.sessions[s].id
      && h.sessions[s].channels == w.handler.sessions[s].channels - gone
    ensures Inv(w.(handler := h))
  {
    forall t, d ensures Known(h, t, d) <==> Known(w.handler, t, d) && d !in gone {
    }
    HandlerChange(w, h);
  }

  lemma PollKeeps(w: World, finished: set<Ptr>)
    requires Inv(w)
    ensures Inv(w.(handler := OnPoll(w.handler, finished)))
  {
    var h := w.handler;
    var gone := set s, c | s in h.sessions && c in DoneIn(h.sessions[s].channels, finished) :: c;
    forall s | s in h.sessions
      ensures h.sessions[s].channels - DoneIn(h.sessions[s].channels, finished) == h.sessions[s].channels - gone
    {
      forall c | c in h.sessions[s].channels && c in gone ensures c in DoneIn(h.sessions[s].channels, finished) {
        var t :| t in h.sessions && c in DoneIn(h.sessions[t].channels, finished);
        assert Known(h, s, c) && Known(h, t, c);
        ChannelHasOneSession(h, s, t, c);
      }
    }
    ForgetKeeps(w, OnPoll(h, finished), gone);
  }

  lemma {:induction false} WithoutHas(conns: seq<Conn>, raw: Ptr, a: Conn)
    ensures a in Without(conns, raw) <==> a in conns && a.raw != raw
  {
    if conns != [] {
      WithoutHas(conns[1..], raw, a);
      assert conns == [conns[0]] + conns[1..];
    }
  }

  lemma {:induction false} WithoutApart(conns: seq<Conn>, raw: Ptr)
    requires Apart(conns)
    ensures Apart(Without(conns, raw))
  {
    if conns != [] {
      WithoutApart(conns[1..], raw);
      WithoutHas(conns[1..], raw, conns[0]);
    }
  }

  lemma WithoutIs(conns: seq<Conn>, raw: Ptr)
    ensures forall a :: a in Without(conns, raw) <==> a in conns && a.raw != raw
  {
    forall a ensures a in Without(conns, raw) <==> a in conns && a.raw != raw {
      WithoutHas(conns, raw, a);
    }
  }

  lemma FewerSessions(v: Server, conns: seq<Conn>, raw: Ptr)
    requires ServerOk(v) && Apart(conns) && forall a :: a in conns <==> a in v.sessions && a.raw != raw
    ensures ServerOk(Server(conns, v.data - {raw}))
  {
  }

  lemma CleanupKeeps(v: Server, raw: Ptr)
    requires ServerOk(v)
    ensures ServerOk(CleanupSession(v, raw))
  {
    WithoutApart(v.sessions, raw);
    WithoutIs(v.sessions, raw);
    FewerSessions(v, Without(v.sessions, raw), raw);
  }

  lemma OwnChannels(h: Handler, s: Ptr, t: Ptr, c: Ptr)
    requires IndexExact(h) && NodesApart(h) && s in h.sessions && Known(h, t, c)
    ensures c in h.sessions[s].channels <==> t == s
  {
    if c in h.sessions[s].channels {
      assert Known(h, s, c);
    }
  }

  lemma StillKnown(h: Handler, s: Ptr, t: Ptr, c: Ptr)
    requires s in h.sessions
    ensures Known(OnSessionClosed(h, s), t, c) <==> Known(h, t, c) && t != s
    ensures Known(OnSessionClosed(h, s), t, c) ==> OnSessionClosed(h, s).sessions[t] == h.sessions[t]
  {
  }

  lemma ClosedNarrows(h: Handler, s: Ptr)
    requires IndexExact(h) && NodesApart(h) && s in h.sessions
    ensures Narrowed(h, OnSessionClosed(h, s))
  {
    var g := OnSessionClosed(h, s);
    forall t, c | Known(h, t, c) ensures Known(g, t, c) <==> c in g.index {
      StillKnown(h, s, t, c);
      OwnChannels(h, s, t, c);
    }
    forall t, c | Known(g, t, c)
      ensures Known(h, t, c) && g.sessions[t].channels[c].node == h.sessions[t].channels[c].node
    {
      StillKnown(h, s, t, c);
    }
  }

  lemma ClosedHandler(h: Handler, s: Ptr)
    requires IndexExact(h) && NodesApart(h) && IdsOk(h) && Counted(h) && s in h.sessions
    ensures var g := OnSessionClosed(h, s); IndexExact(g) && NodesApart(g) && IdsOk(g) && Counted(g)
  {
    ClosedNarrows(h, s);
    NarrowedKeeps(h, OnSessionClosed(h, s));
    ClosedIds(h, s);
  }

  lemma ClosedIds(h: Handler, s: Ptr)
    requires IdsOk(h) && Counted(h) && s in h.sessions
    ensures IdsOk(OnSessionClosed(h, s)) && Counted(OnSessionClosed(h, s))
  {
    var g := OnSessionClosed(h, s);
    assert g.sessions.Keys == h.sessions.Keys - {s};
    assert |g.sessions| == |g.sessions.Keys| && |h.sessions| == |h.sessions.Keys|;
  }

  lemma CloseOneKeeps(w: World, conn: Conn)
    requires Inv(w) && conn in w.server.sessions
    ensures Inv(CloseOne(w, conn))
    ensures forall a :: a in w.server.sessions && a != conn ==> a in CloseOne(w, conn).server.sessions
  {
    CleanupKeeps(w.server, conn.raw);
    WithoutIs(w.server.sessions, conn.raw);
    ClosedHandler(w.handler, conn.session);
    ClosedLinked(w, conn);
  }

  lemma ClosedLinked(w: World, conn: Conn)
    requires ServerOk(w.server) && Linked(w) && conn in w.server.sessions
    ensures Linked(CloseOne(w, conn))
  {
    WithoutIs(w.server.sessions, conn.raw);
    var x := CloseOne(w, conn);
    forall s | s in x.handler.sessions ensures exists a :: a in x.server.sessions && a.session == s {
      var a :| a in w.server.sessions && a.session == s;
      assert a in x.server.sessions;
    }
    forall r, c | r in x.server.data && Known(x.handler, x.server.data[r].session, c)
      ensures c in x.server.data[r].wrappers
    {
      assert Known(w.handler, w.server.data[r].session, c);
    }
  }

  ghost predicate Among(conns: seq<Conn>, w: World) {
    Apart(conns) && forall a :: a in conns ==> a in w.server.sessions
  }

  lemma Rest(conns: seq<Conn>)
    requires conns != [] && Apart(conns)
    ensures Apart(conns[1..]) && forall a :: a in conns[1..] ==> a in conns && a != conns[0]
  {
  }

  lemma AmongRest(conns: seq<Conn>, w: World, next: World)
    requires conns != [] && Among(conns, w)
    requires forall a :: a in w.server.sessions && a != conns[0] ==> a in next.server.sessions
    ensures Among(conns[1..], next)
  {
    Rest(conns);
  }

  lemma {:induction false} CloseAllKeeps(w: World, conns: seq<Conn>, closed: set<Ptr>)
    requires Inv(w) && Among(conns, w)
    ensures Inv(CloseAll(w, conns, closed))
    decreases |conns|
  {
    if conns != [] {
      if conns[0].raw in closed {
        CloseOneKeeps(w, conns[0]);
        AmongRest(conns, w, CloseOne(w, conns[0]));
        CloseAllKeeps(CloseOne(w, conns[0]), conns[1..], closed);
      } else {
        AmongRest(conns, w, w);
        CloseAllKeeps(w, conns[1..], closed);
      }
    }
  }

  lemma EventKeepsInv(w: World, e: Event)
    requires Inv(w) && Possible(w, e)
    ensures Inv(Apply(w, e))
  {
    match e
    case Accepted(conn, ok) => AcceptKeeps(w, conn, ok);
    case ChannelOpened(raw, chan, node) => OpenKeeps(w, raw, chan, node);
    case PtyRequested(raw, chan) =>
      var s := w.server.data[raw].session;
      if Known(w.handler, s, chan) {
        PlaceKeeps(w, s, chan, w.handler.sessions[s].channels[chan].(hasPty := true));
      }
    case HandlerRequested(raw, chan, given, started) =>
      var s := w.server.data[raw].session;
      if Known(w.handler, s, chan) && given {
        PlaceKeeps(w, s, chan, w.handler.sessions[s].channels[chan].(hasHandler := started));
      }
    case Polled(finished) => PollKeeps(w, finished);
    case Closed(raws) => CloseAllKeeps(w, w.server.sessions, raws);
  }

  lemma {:induction false} RunKeepsInv(w: World, events: seq<Event>, to: World)
    requires Inv(w) && Runs(w, events, to)
    ensures Inv(to)
    decreases |events|
  {
    if events != [] {
      EventKeepsInv(w, events[0]);
      RunKeepsInv(Apply(w, events[0]), events[1..], to);
    }
  }

  // ---- what holds in every reachable state ----

  lemma ReachableOk(w: World)
    requires Reachable(w)
    ensures Inv(w)
  {
    var events :| Runs(START, events, w);
    RunKeepsInv(START, events, w);
  }

  /** The flat index holds exactly the channels of the open sessions, each at its own state; each is a
      wrapper the server still owns for that session. */
  lemma RegistryIsExact(w: World)
    requires Reachable(w)
    ensures forall c :: c in w.handler.index <==> exists s :: Known(w.handler, s, c)
    ensures forall s, c :: Known(w.handler, s, c) ==> w.handler.index[c] == w.handler.sessions[s].channels[c].node
    ensures forall s, t, c :: Known(w.handler, s, c) && Known(w.handler, t, c) ==> s == t
    ensures forall s, c :: Known(w.handler, s, c) ==>
      exists a ::
        a in w.server.sessions && a.session == s && a.raw in w.server.data && c in w.server.data[a.raw].wrappers
    ensures forall s :: s in w.handler.sessions <==> exists a :: a in w.server.sessions && a.session == s
  {
    ReachableOk(w);
    forall s, c | Known(w.handler, s, c)
      ensures exists a ::
        a in w.server.sessions && a.session == s && a.raw in w.server.data && c in w.server.data[a.raw].wrappers
    {
      var a :| a in w.server.sessions && a.session == s;
      assert w.server.data[a.raw].session == s;
    }
  }

  /** No channel is ever refused as belonging to an unknown session. */
  lemma OpenIsNeverRefused(w: World, raw: Ptr, chan: Ptr, node: Ptr)
    requires Reachable(w) && Possible(w, ChannelOpened(raw, chan, node))
    ensures OnChannelOpen(w.handler, w.server.data[raw].session, chan, node).1
  {
    ReachableOk(w);
    OpenKeeps(w, raw, chan, node);
  }

  /** The counters say how many sessions are open. */
  lemma SessionsAreCounted(w: World)
    requires Reachable(w)
    ensures w.handler.opens - w.handler.closes == |w.handler.sessions|
  {
    ReachableOk(w);
  }

  // ---- session ids ----

  ghost predicate IdsKept(h: Handler, g: Handler) {
    && h.nextId <= g.nextId
    && forall s :: s in g.sessions ==>
      g.sessions[s].id >= h.nextId || (s in h.sessions && h.sessions[s].id == g.sessions[s].id)
  }

  lemma {:induction false} CloseAllIds(w: World, conns: seq<Conn>, closed: set<Ptr>)
    ensures IdsKept(w.handler, CloseAll(w, conns, closed).handler)
    decreases |conns|
  {
    if conns != [] {
      CloseAllIds(if conns[0].raw in closed then CloseOne(w, conns[0]) else w, conns[1..], closed);
    }
  }

  lemma EventKeepsIds(w: World, e: Event)
    requires Possible(w, e)
    ensures IdsKept(w.handler, Apply(w, e).handler)
  {
    if e.Closed? {
      CloseAllIds(w, w.server.sessions, e.raws);
    }
  }

  /** Whatever happens, a session found later either already had its id or got one never given before. */
  lemma {:induction false} IdsOnward(w: World, events: seq<Event>, to: World)
    requires Runs(w, events, to)
    ensures IdsKept(w.handler, to.handler)
    decreases |events|
  {
    if events != [] {
      EventKeepsIds(w, events[0]);
      IdsOnward(Apply(w, events[0]), events[1..], to);
    }
  }

  ghost predicate InUse(h: Handler, id: nat) { exists s :: s in h.sessions && h.sessions[s].id == id }

  lemma UsedEarlier(h: Handler, g: Handler, id: nat)
    requires IdsKept(h, g) && id < h.nextId && InUse(g, id)
    ensures InUse(h, id)
  {
    var s :| s in g.sessions && g.sessions[s].id == id;
    assert s in h.sessions && h.sessions[s].id == id;
  }

  /** An id names one session: no other session has it, and once it is out of use no run brings it back. */
  lemma IdsAreNeverReused(w: World, id: nat, events: seq<Event>, to: World)
    requires Reachable(w) && id < w.handler.nextId && Runs(w, events, to)
    ensures InUse(to.handler, id) ==> InUse(w.handler, id)
    ensures forall s, t :: s in to.handler.sessions && t in to.handler.sessions ==>
      to.handler.sessions[s].id == to.handler.sessions[t].id ==> s == t
  {
    ReachableOk(w);
    RunKeepsInv(w, events, to);
    IdsOnward(w, events, to);
    if InUse(to.handler, id) {
      UsedEarlier(w.handler, to.handler, id);
    }
  }
}

/** The two classes that carry this state. */
module SshServers {
  import opened SshState

  class BasicSshServerHandler {
    var sessions: map<Ptr, SessionState>
    var channelIndex: map<Ptr, Ptr>
    var nextSessionId: nat
    var sessionsOpened: nat
    var sessionsClosed: nat
    var channelsOpened: nat

    ghost function State(): Handler
      reads this
    {
      Handler(sessions, channelIndex, nextSessionId, sessionsOpened, sessionsClosed, channelsOpened)
    }

    constructor ()
      ensures State() == START.handler
    {
      sessions, channelIndex, nextSessionId := map[], map[], 1;
      sessionsOpened, sessionsClosed, channelsOpened := 0, 0, 0;
    }

    method OnSessionOpened(session: Ptr)
      modifies this
      ensures State() == SshState.OnSessionOpened(old(State()), session)
    {
      var state := SessionState(nextSessionId, map[]);
      nextSessionId := nextSessionId + 1;
      sessions := sessions[session := state];
      sessionsOpened := sessionsOpened + 1;
    }

    method OnSessionClosed(session: Ptr)
      modifies this
      ensures State() == SshState.OnSessionClosed(old(State()), session)
    {
      if session in sessions {
        var channels := sessions[session].channels;
        var left := channels.Keys;
        while left != {}
          invariant left <= channels.Keys && channelIndex == old(channelIndex) - (channels.Keys - left)
          invariant State() == old(State()).(index := channelIndex)
          decreases left
        {
          var channel :| channel in left;
          channelIndex := channelIndex - {channel};
          left := left - {channel};
        }
        sessions := sessions - {session};
      }
      sessionsClosed := sessionsClosed + 1;
    }

    method OnChannelOpen(session: Ptr, channel: Ptr, node: Ptr) returns (allowed: bool)
      modifies this
      ensures (State(), allowed) == SshState.OnChannelOpen(old(State()), session, channel, node)
    {
      if session !in sessions {
        return false;
      }
      var channels := sessions[session].channels;
      var at := if channel in channels then channels[channel].node else node;
      sessions := sessions[session :=
        sessions[session].(channels := channels[channel := ChannelState(at, false, false)])];
      channelIndex := channelIndex[channel := at];
      channelsOpened := channelsOpened + 1;
      return true;
    }

    method OnChannelRequestPty(session: Ptr, channel: Ptr) returns (allowed: bool)
      modifies this
      ensures (State(), allowed) == OnRequestPty(old(State()), session, channel)
    {
      if session !in sessions || channel !in sessions[session].channels {
        return false;
      }
      SetState(session, channel, sessions[session].channels[channel].(hasPty := true));
      return true;
    }

    method SetState(session: Ptr, channel: Ptr, state: ChannelState)
      requires session in sessions
      modifies this
      ensures State() == Place(old(State()), session, channel, state)
    {
      sessions := sessions[session := sessions[session].(channels := sessions[session].channels[channel := state])];
    }

    /** Shell, exec and subsystem requests alike. */
    method OnChannelRequestHandler(session: Ptr, channel: Ptr, given: bool, started: bool) returns (allowed: bool)
      modifies this
      ensures (State(), allowed) == OnRequestHandler(old(State()), session, channel, given, started)
    {
      if session !in sessions || channel !in sessions[session].channels || !given {
        return false;
      }
      SetState(session, channel, sessions[session].channels[channel].(hasHandler := started));
      return started;
    }

    /** One session's turn in on_poll: collect what has finished, then forget it. */
    method PollSession(session: Ptr, finished: set<Ptr>)
      requires session in sessions
      modifies this
      ensures State() == SshState.PollSession(old(State()), session, finished)
    {
      var channels := sessions[session].channels;
      var left, cleanup := channels.Keys, {};
      while left != {}
        invariant left <= channels.Keys && State() == old(State())
        invariant cleanup == DoneIn(channels, finished) - left
        decreases left
      {
        var channel :| channel in left;
        if channels[channel].hasHandler && channel in finished {
          cleanup := cleanup + {channel};
        }
        left := left - {channel};
      }
      assert cleanup == DoneIn(channels, finished);
      channelIndex := channelIndex - cleanup;
      sessions := sessions[session := sessions[session].(channels := channels - cleanup)];
    }

    /** Whatever order the sessions are visited in. */
    method OnPoll(finished: set<Ptr>)
      modifies this
      ensures State() == SshState.OnPoll(old(State()), finished)
    {
      ghost var was := State();
      var left := sessions.Keys;
      PollNone(was, finished);
      while left != {}
        invariant left <= was.sessions.Keys
        invariant State() == PolledSome(was, was.sessions.Keys - left, finished)
        decreases left
      {
        var session :| session in left;
        PollOneMore(was, was.sessions.Keys - left, session, finished);
        PollSession(session, finished);
        left := left - {session};
        assert was.sessions.Keys - left == was.sessions.Keys - (left + {session}) + {session};
      }
      PollAll(was, finished);
    }

    /** Following the index reaches the state of an open channel. */
    method ChannelBypassesDataCallback(channel: Ptr, managesIo: bool) returns (bypasses: bool)
      requires IndexExact(State()) && NodesApart(State())
      ensures bypasses <==>
        managesIo && exists s :: Known(State(), s, channel) && sessions[s].channels[channel].hasHandler
    {
      if channel !in channelIndex {
        return false;
      }
      assert exists s :: Known(State(), s, channel);
      var s :| s in sessions && channel in sessions[s].channels &&
        sessions[s].channels[channel].node == channelIndex[channel];
      assert Known(State(), s, channel);
      return managesIo && sessions[s].channels[channel].hasHandler;
    }
  }

  function PolledSome(h: Handler, some: set<Ptr>, finished: set<Ptr>): Handler {
    var gone := set s, c | s in h.sessions && s in some && c in DoneIn(h.sessions[s].channels, finished) :: c;
    h.(sessions := map s | s in h.sessions ::
         if s in some then h.sessions[s].(channels := h.sessions[s].channels - DoneIn(h.sessions[s].channels, finished))
         else h.sessions[s],
       index := h.index - gone)
  }

  lemma PollNone(h: Handler, finished: set<Ptr>)
    ensures PolledSome(h, {}, finished) == h
  {
  }

  lemma PollAll(h: Handler, finished: set<Ptr>)
    ensures PolledSome(h, h.sessions.Keys, finished) == SshState.OnPoll(h, finished)
  {
  }

  lemma PollOneMore(h: Handler, some: set<Ptr>, s: Ptr, finished: set<Ptr>)
    requires s in h.sessions && s !in some
    ensures SshState.PollSession(PolledSome(h, some, finished), s, finished) == PolledSome(h, some + {s}, finished)
  {
    var a, b := SshState.PollSession(PolledSome(h, some, finished), s, finished), PolledSome(h, some + {s}, finished);
    assert a.sessions == b.sessions;
    assert a.index == b.index;
  }

  class SshServer {
    var sessions: seq<Conn>
    var data: map<Ptr, Data>
    const handler: BasicSshServerHandler

    ghost function State(): World
      reads this, handler
    {
      World(Server(sessions, data), handler.State())
    }

    constructor (handler: BasicSshServerHandler)
      requires handler.State() == START.handler
      ensures this.handler == handler && State() == START
    {
      this.handler, sessions, data := handler, [], map[];
    }

    method AcceptSession(conn: Conn, keyExchange: bool) returns (accepted: bool)
      requires conn.raw !in data
      modifies this, handler
      ensures State() == Accept(old(State()), conn, keyExchange) && accepted == keyExchange
    {
      data := data[conn.raw := Data(conn.session, [])];
      if !keyExchange {
        data := data - {conn.raw};
        return false;
      }
      handler.OnSessionOpened(conn.session);
      sessions := sessions + [conn];
      return true;
    }

    method CallbackChannelOpen(raw: Ptr, chan: Ptr, node: Ptr) returns (allowed: bool)
      requires raw in data
      modifies this, handler
      ensures State() == OpenChannel(old(State()), raw, chan, node)
      ensures allowed == SshState.OnChannelOpen(old(handler.State()), old(data[raw].session), chan, node).1
    {
      allowed := handler.OnChannelOpen(data[raw].session, chan, node);
      if allowed {
        data := data[raw := data[raw].(wrappers := data[raw].wrappers + [chan])];
      }
    }

    method CleanupSession(raw: Ptr)
      modifies this
      ensures Server(sessions, data) == SshState.CleanupSession(old(Server(sessions, data)), raw)
    {
      data := data - {raw};
      var kept := [];
      assert sessions[0..] == sessions;
      for i := 0 to |sessions|
        invariant sessions == old(sessions) && data == old(data) - {raw}
        invariant kept + Without(sessions[i..], raw) == Without(sessions, raw)
      {
        assert sessions[i..][1..] == sessions[i + 1..];
        if sessions[i].raw != raw {
          kept := kept + [sessions[i]];
        }
      }
      sessions := kept;
    }

    method CleanupClosedSessions(closed: set<Ptr>)
      modifies this, handler
      ensures State() == CloseAll(old(State()), old(sessions), closed)
    {
      ghost var was := State();
      var remove := NotifyClosed(closed);
      assert remove[0..] == remove;
      for i := 0 to |remove|
        invariant handler.State() == Notified(was.handler, was.server.sessions, closed)
        invariant Removed(was.server, remove) == Removed(Server(sessions, data), remove[i..])
      {
        assert remove[i..][1..] == remove[i + 1..];
        CleanupSession(remove[i]);
      }
      CloseAllParts(was, was.server.sessions, closed);
    }

    /** The first loop: the handler hears of every closed session, in order. */
    method NotifyClosed(closed: set<Ptr>) returns (remove: seq<Ptr>)
      modifies handler
      ensures handler.State() == Notified(old(handler.State()), sessions, closed)
      ensures remove == ClosedRaws(sessions, closed)
    {
      remove := [];
      assert sessions[0..] == sessions;
      for i := 0 to |sessions|
        invariant Notified(old(handler.State()), sessions, closed) == Notified(handler.State(), sessions[i..], closed)
        invariant remove + ClosedRaws(sessions[i..], closed) == ClosedRaws(sessions, closed)
      {
        assert sessions[i..][1..] == sessions[i + 1..];
        if sessions[i].raw in closed {
          remove := remove + [sessions[i].raw];
          handler.OnSessionClosed(sessions[i].session);
        }
      }
    }
  }

  function Notified(h: Handler, conns: seq<Conn>, closed: set<Ptr>): Handler
    decreases |conns|
  {
    if conns == [] then h
    else
      var h' := if conns[0].raw in closed then SshState.OnSessionClosed(h, conns[0].session) else h;
      Notified(h', conns[1..], closed)
  }

  function ClosedRaws(conns: seq<Conn>, closed: set<Ptr>): seq<Ptr> {
    if conns == [] then [] else (if conns[0].raw in closed then [conns[0].raw] else []) + ClosedRaws(conns[1..], closed)
  }

  function Removed(v: Server, raws: seq<Ptr>): Server
    decreases |raws|
  {
    if raws == [] then v else Removed(SshState.CleanupSession(v, raws[0]), raws[1..])
  }

  /** Telling the handler about every closed session first and cleaning up afterwards comes to the same
      as doing both for one session after the other. */
  lemma {:induction false} CloseAllParts(w: World, conns: seq<Conn>, closed: set<Ptr>)
    ensures CloseAll(w, conns, closed)
      == World(Removed(w.server, ClosedRaws(conns, closed)), Notified(w.handler, conns, closed))
    decreases |conns|
  {
    if conns != [] {
      var rest := ClosedRaws(conns[1..], closed);
      assert ([conns[0].raw] + rest)[1..] == rest && [] + rest == rest;
      CloseAllParts(if conns[0].raw in closed then CloseOne(w, conns[0]) else w, conns[1..], closed);
    }
  }
}
