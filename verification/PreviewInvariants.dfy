/** What holds in every reachable state of the preview protocol. */
module PreviewInvariants {
  import opened CircularList
  import opened SessionRegistry
  import opened PreviewModel

  // ----- Clients -----

  /** A client is closed at most once, and its writes exclude each other: while its preview response
      is pending no frame is, so a late response cannot reopen a closed client that still has
      frame writes whose failure would close it again. */
  ghost predicate ClientOk(k: Client) {
    && k.closes <= 1
    && (k.status == OnStop ==> k.closes == 1)
    && (k.closes == 1 ==> k.session.None?)
    && (k.session.Some? ==> k.previewed)
    && (k.status == OnInit ==> !k.resPending && k.pending == {})
    && (k.status == OnSendPreviewRes ==> k.resPending)
    && (k.status == OnSendFrames ==> !k.resPending)
    && (k.resPending ==> k.pending == {} && !k.errPending)
    && (k.errPending ==> k.session.None? && (k.status == OnInit || k.status == OnStop))
    && (k.closes == 1 && k.status != OnStop ==> k.pending == {} && !k.errPending)
    && (!k.previewed ==> (k.status == OnInit || k.status == OnStop) && !k.resPending && !k.errPending)
  }

  ghost predicate ClientsOk(clients: map<ClientId, Client>) {
    forall c :: c in clients ==> ClientOk(clients[c])
  }

  // ----- Sessions -----

  /** A client points to a session exactly when that session lists it, and client_size is the
      length of the list; so no client is in two sessions. */
  ghost predicate Membership(clients: map<ClientId, Client>, sessions: map<SessionId, MediaSession>) {
    && (forall c :: c in clients && clients[c].session.Some? ==>
          clients[c].session.value in sessions && c in sessions[clients[c].session.value].clients)
    && (forall s, c :: s in sessions && c in sessions[s].clients ==>
          c in clients && clients[c].session == Some(s))
    && (forall s :: s in sessions ==>
          Distinct(sessions[s].clients) && sessions[s].clientSize == |sessions[s].clients|)
  }

  /** Sessions that may still call delete_session have distinct keys, so that such a call finds no
      other session under its key.  An idle session has its exit timer armed or its connection closing; a closing session has no
      client, no timer, no reading, and is not registered; an unregistered one has no client. */
  ghost predicate SessionOk(sess: MediaSession, registered: bool) {
    && (sess.clients == [] ==> sess.timer || sess.closing)
    && (sess.closing ==> sess.clients == [] && !sess.timer && !sess.reading && !registered)
    && (!registered ==> sess.clients == [])
  }

  ghost predicate SessionsOk(sessions: map<SessionId, MediaSession>, registry: seq<SessionId>) {
    && (forall s :: s in sessions ==> SessionOk(sessions[s], s in registry))
    && (forall s, t :: s in sessions && t in sessions && s != t && !Quiet(sessions[s]) && !Quiet(sessions[t]) ==>
          sessions[s].key != sessions[t].key)
    && (forall s :: s in registry ==> s in sessions)
    && Distinct(registry)
  }

  // ----- Frames -----

  /** The clients to which a write of frame `f` is pending. */
  ghost function Waiters(clients: map<ClientId, Client>, f: FrameId): set<ClientId> {
    set c | c in clients && f in clients[c].pending
  }

  /** Between steps the reference count of a frame is the number of its pending writes. */
  ghost predicate FramesOk(clients: map<ClientId, Client>, refs: map<FrameId, nat>) {
    && (forall c, f :: c in clients && f in clients[c].pending ==> f in refs)
    && (forall f :: f in refs ==> refs[f] == |Waiters(clients, f)| && refs[f] > 0)
  }

  // ----- Memory -----

  ghost predicate Needed(o: Object, clients: set<ClientId>, sessions: set<SessionId>, frames: set<FrameId>) {
    match o
    case ClientObj(c) => c in clients
    case SessionObj(s) => s in sessions
    case Header(f) => f in frames
    case Payload(f) => f in frames
    case Record(f) => f in frames
  }

  /** What is allocated is what is needed, and nothing is freed twice. */
  ghost predicate MemoryOk(live: set<Object>, freed: multiset<Object>,
                     clients: set<ClientId>, sessions: set<SessionId>, frames: set<FrameId>) {
    && (forall o :: o in live <==> Needed(o, clients, sessions, frames))
    && (forall o :: freed[o] <= 1)
    && (forall o :: o in live ==> freed[o] == 0)
  }

  /** Whatever was allocated is still live or has been freed exactly once. */
  ghost predicate Settled(live: set<Object>, freed: multiset<Object>, o: Object) {
    o in live || freed[o] == 1
  }

  ghost predicate AccountOk(live: set<Object>, freed: multiset<Object>,
                      received: map<SessionId, seq<FrameId>>, traces: map<ClientId, Trace>) {
    && (forall c :: c in traces ==> Settled(live, freed, ClientObj(c)))
    && (forall s :: s in received ==> Settled(live, freed, SessionObj(s)))
    && (forall s, f :: s in received && f in received[s] ==>
          Settled(live, freed, Payload(f)) && Settled(live, freed, Record(f)))
    && (forall s :: s in received ==> Distinct(received[s]))
  }

  // ----- History -----

  /** The frames accepted for a client are a block of those its session received, beginning with
      the first one after the preview response was sent. */
  ghost predicate Block(t: Trace, received: map<SessionId, seq<FrameId>>) {
    && (t.home.Some? ==> t.home.value in received)
    && (!t.responded || t.home.None? ==> t.accepted == [])
    && (t.responded && t.home.Some? ==>
          && t.start + |t.accepted| <= |received[t.home.value]|
          && received[t.home.value][t.start..t.start + |t.accepted|] == t.accepted)
  }

  /** A client's state agrees with its history; one that is ready for frames has missed none. */
  ghost predicate Follows(k: Client, t: Trace, received: map<SessionId, seq<FrameId>>) {
    && (k.session.Some? ==> t.home == k.session)
    && (!k.previewed ==> t.home.None?)
    && (k.resPending ==> t.home.Some?)
    && (t.responded ==> !k.resPending && (k.status == OnSendFrames || k.status == OnStop))
    && (k.status == OnSendFrames ==> t.responded)
    && (forall f :: f in k.pending ==> f in t.accepted)
    && (k.status == OnSendFrames && k.session.Some? ==>
          k.session.value in received && t.start + |t.accepted| == |received[k.session.value]|)
  }

  ghost predicate HistoryOk(clients: map<ClientId, Client>, traces: map<ClientId, Trace>,
                      received: map<SessionId, seq<FrameId>>) {
    && (forall c :: c in traces ==> Block(traces[c], received))
    && (forall c :: c in clients ==> c in traces && Follows(clients[c], traces[c], received))
  }

  ghost predicate Inv(st: State) {
    && ClientsOk(st.clients)
    && Membership(st.clients, st.sessions)
    && SessionsOk(st.sessions, st.registry)
    && FramesOk(st.clients, st.refs)
    && MemoryOk(st.live, st.freed, st.clients.Keys, st.sessions.Keys, st.refs.Keys)
    && AccountOk(st.live, st.freed, st.received, st.traces)
    && HistoryOk(st.clients, st.traces, st.received)
    && (forall s :: s in st.sessions ==> s in st.received)
  }

  lemma InvIsLinked(st: State)
    requires Inv(st)
    ensures Linked(st)
  {
  }

  lemma InitialInv()
    ensures Inv(INITIAL)
  {
  }

  // ----- Clients leave -----

  /** How a client may change when its session is stopped, or when it is answered or stopped. */
  ghost predicate Stays(k: Client, k': Client) {
    k'.session == k.session && k'.pending == k.pending
  }

  ghost predicate Leaves(k: Client, k': Client) {
    k'.session.None? && k'.pending == k.pending
  }

  ghost predicate SomeLeave(clients: map<ClientId, Client>, clients': map<ClientId, Client>, left: set<ClientId>) {
    && clients'.Keys == clients.Keys
    && left <= clients.Keys
    && (forall c :: c in clients ==> if c in left then Leaves(clients[c], clients'[c]) else Stays(clients[c], clients'[c]))
  }

  /** Removing the leaving clients from their session's list keeps lists and pointers in agreement. */
  lemma LeaveKeepsMembership(clients: map<ClientId, Client>, clients': map<ClientId, Client>,
                             sessions: map<SessionId, MediaSession>, s: SessionId, sess': MediaSession, left: set<ClientId>)
    requires Membership(clients, sessions) && s in sessions
    requires SomeLeave(clients, clients', left)
    requires forall c :: c in left ==> clients[c].session == Some(s)
    requires sess'.clients == Keep(sessions[s].clients, left) && sess'.clientSize == |sess'.clients|
    ensures Membership(clients', sessions[s := sess'])
  {
    hide Keep, Distinct;
    KeepMembers(sessions[s].clients, left);
  }

  lemma SameWaiters(clients: map<ClientId, Client>, clients': map<ClientId, Client>, refs: map<FrameId, nat>)
    requires FramesOk(clients, refs)
    requires clients'.Keys == clients.Keys
    requires forall c :: c in clients ==> clients'[c].pending == clients[c].pending
    ensures FramesOk(clients', refs)
  {
    forall f | f in refs
      ensures Waiters(clients', f) == Waiters(clients, f)
    {
    }
  }

  /** Every client is in order and in step with its history. */
  ghost predicate EachOk(clients: map<ClientId, Client>, st: State) {
    forall c :: c in clients ==>
      c in st.traces && ClientOk(clients[c]) && Follows(clients[c], st.traces[c], st.received)
  }

  lemma EachOkIsOk(clients: map<ClientId, Client>, st: State)
    requires EachOk(clients, st) && HistoryOk(st.clients, st.traces, st.received)
    ensures ClientsOk(clients) && HistoryOk(clients, st.traces, st.received)
  {
    hide ClientOk, Follows, Block;
  }

  lemma InvEachOk(st: State)
    requires Inv(st)
    ensures EachOk(st.clients, st)
  {
    hide ClientOk, Follows, Block, Membership, SessionsOk, FramesOk, MemoryOk, AccountOk;
  }

  /** Clients change without joining, leaving or writing frames. */
  lemma ClientsChange(st: State, clients': map<ClientId, Client>)
    requires Inv(st)
    requires SomeLeave(st.clients, clients', {})
    requires EachOk(clients', st)
    ensures Inv(st.(clients := clients'))
  {
    hide ClientOk, Follows, Block, SessionsOk, MemoryOk, AccountOk, Distinct;
    EachOkIsOk(clients', st);
    SameWaiters(st.clients, clients', st.refs);
  }

  /** A session keeps its shape when some of its clients leave it. */
  lemma LeaveKeepsSessions(sessions: map<SessionId, MediaSession>, registry: seq<SessionId>,
                           s: SessionId, sess': MediaSession, left: set<ClientId>)
    requires SessionsOk(sessions, registry) && s in sessions
    requires sess'.clients == Keep(sessions[s].clients, left)
    requires sess'.key == sessions[s].key && sess'.closing == sessions[s].closing && sess'.reading == sessions[s].reading
    requires Quiet(sess') == Quiet(sessions[s])
    requires sess'.timer == (sessions[s].timer || (sess'.clients == [] && sessions[s].clients != []))
    ensures SessionsOk(sessions[s := sess'], registry)
  {
    hide Distinct;
  }

  /** Some clients of a session leave it. */
  lemma Departure(st: State, clients': map<ClientId, Client>, s: SessionId, left: set<ClientId>)
    requires Inv(st) && s in st.sessions
    requires SomeLeave(st.clients, clients', left)
    requires forall c :: c in left ==> st.clients[c].session == Some(s)
    requires EachOk(clients', st)
    ensures Inv(st.(clients := clients', sessions := st.sessions[s := Detach(st.sessions[s], left)]))
  {
    hide ClientOk, Follows, Block, MemoryOk, AccountOk, Distinct, Keep, Membership, SessionsOk, SessionOk, FramesOk;
    EachOkIsOk(clients', st);
    SameWaiters(st.clients, clients', st.refs);
    var sess' := Detach(st.sessions[s], left);
    LeaveKeepsMembership(st.clients, clients', st.sessions, s, sess', left);
    LeaveKeepsSessions(st.sessions, st.registry, s, sess', left);
    assert st.sessions[s := sess'].Keys == st.sessions.Keys;
  }

  lemma StoppedIsOk(k: Client, t: Trace, received: map<SessionId, seq<FrameId>>)
    requires ClientOk(k) && Follows(k, t, received)
    requires k.closes == 0 || k.session.Some?
    ensures ClientOk(Stopped(k)) && Follows(Stopped(k), t, received)
    ensures k.session.Some? ==> forall ok :: ClientOk(StopMember(k, ok)) && Follows(StopMember(k, ok), t, received)
  {
  }

  lemma RespondIsOk(k: Client, t: Trace, received: map<SessionId, seq<FrameId>>, ok: bool)
    requires ClientOk(k) && Follows(k, t, received)
    requires k.session.Some?
    ensures ClientOk(Respond(k, ok)) && Follows(Respond(k, ok), t, received)
    ensures if k.status == OnInit && !ok then Leaves(k, Respond(k, ok)) else Stays(k, Respond(k, ok))
  {
  }

  lemma StopOneInv(st: State, c: ClientId)
    requires Inv(st)
    requires c in st.clients && (st.clients[c].closes == 0 || st.clients[c].status == OnStop)
    ensures Inv(StopOne(st, c))
  {
    hide ClientOk, Follows, Block, MemoryOk, AccountOk, Distinct, Keep, SessionsOk, SessionOk, FramesOk;
    InvEachOk(st);
    var k := st.clients[c];
    if k.status != OnStop {
      StoppedIsOk(k, st.traces[c], st.received);
      var clients' := st.clients[c := Stopped(k)];
      assert clients'.Keys == st.clients.Keys;
      if k.session.None? {
        ClientsChange(st, clients');
      } else {
        Departure(st, clients', k.session.value, {c});
      }
    }
  }

  /** An unregistered session may be unregistered again; one without clients, for the first time. */
  lemma UnregisterInv(st: State, s: SessionId)
    requires Inv(st) && s in st.sessions && st.sessions[s].clients == []
    ensures Inv(st.(registry := Keep(st.registry, {s})))
  {
    hide ClientOk, Follows, Block, MemoryOk, AccountOk, Distinct, Keep, Membership, FramesOk, ClientsOk, HistoryOk;
    KeepMembers(st.registry, {s});
  }

  ghost function MembersOf(st: State, s: SessionId): set<ClientId>
    requires s in st.sessions
  {
    set c | c in st.clients && c in st.sessions[s].clients
  }

  lemma StopSessionInv(st: State, s: SessionId, resOk: set<ClientId>)
    requires Inv(st) && s in st.sessions
    ensures Inv(StopSession(st, s, resOk))
  {
    hide ClientOk, Follows, Block, MemoryOk, AccountOk, Distinct, Keep, SessionsOk, SessionOk, FramesOk;
    InvEachOk(st);
    var left := MembersOf(st, s);
    var clients' := StopSession(st, s, resOk).clients;
    forall c | c in left
      ensures ClientOk(clients'[c]) && Follows(clients'[c], st.traces[c], st.received)
    {
      StoppedIsOk(st.clients[c], st.traces[c], st.received);
    }
    Departure(st, clients', s, left);
    KeepNone(st.sessions[s].clients, left);
    UnregisterInv(st.(clients := clients', sessions := st.sessions[s := Detach(st.sessions[s], left)]), s);
  }

  lemma RespondAllInv(st: State, s: SessionId, resOk: set<ClientId>)
    requires Inv(st) && s in st.sessions
    ensures Inv(RespondAll(st, s, resOk))
  {
    hide ClientOk, Follows, Block, MemoryOk, AccountOk, Distinct, Keep, SessionsOk, SessionOk, FramesOk;
    InvEachOk(st);
    var clients' := RespondAll(st, s, resOk).clients;
    forall c | c in MembersOf(st, s)
      ensures ClientOk(clients'[c]) && Follows(clients'[c], st.traces[c], st.received)
    {
      RespondIsOk(st.clients[c], st.traces[c], st.received, c in resOk);
    }
    Departure(st, clients', s, Refused(st, s, resOk));
  }

  /** The flags of a DVR connection may change; a closing one must not read. */
  lemma FlagsInv(st: State, s: SessionId, sess: MediaSession)
    requires Inv(st) && s in st.sessions
    requires sess == st.sessions[s].(running := sess.running, connectPending := sess.connectPending,
                                     previewPending := sess.previewPending, reading := sess.reading)
    requires sess.closing ==> !sess.reading
    requires Quiet(st.sessions[s]) ==> Quiet(sess)
    ensures Inv(st.(sessions := st.sessions[s := sess]))
  {
    hide ClientOk, Follows, Block, MemoryOk, AccountOk, Distinct, FramesOk, ClientsOk, HistoryOk;
    assert st.sessions[s := sess].Keys == st.sessions.Keys;
  }

  // ----- Memory steps -----

  lemma AllocInv(live: set<Object>, freed: multiset<Object>, objs: set<Object>,
                 received: map<SessionId, seq<FrameId>>, traces: map<ClientId, Trace>)
    requires AccountOk(live, freed, received, traces)
    ensures AccountOk(live + objs, freed, received, traces)
  {
    hide Distinct;
  }

  lemma FreeInv(live: set<Object>, freed: multiset<Object>, objs: set<Object>,
                received: map<SessionId, seq<FrameId>>, traces: map<ClientId, Trace>)
    requires AccountOk(live, freed, received, traces)
    requires forall o :: o in objs ==> o in live && freed[o] == 0
    requires forall o :: freed[o] <= 1
    ensures AccountOk(live - objs, freed + multiset(objs), received, traces)
  {
    hide Distinct;
    forall o | Settled(live, freed, o)
      ensures Settled(live - objs, freed + multiset(objs), o)
    {
      assert o in objs ==> freed[o] == 0;
    }
  }

  // ----- The steps of one client -----

  lemma Pack(st: State)
    requires ClientsOk(st.clients) && Membership(st.clients, st.sessions) && SessionsOk(st.sessions, st.registry)
    requires FramesOk(st.clients, st.refs)
    requires MemoryOk(st.live, st.freed, st.clients.Keys, st.sessions.Keys, st.refs.Keys)
    requires AccountOk(st.live, st.freed, st.received, st.traces)
    requires HistoryOk(st.clients, st.traces, st.received)
    requires forall s :: s in st.sessions ==> s in st.received
    ensures Inv(st)
  {
  }

  /** One client, new or not, and its history change. */
  lemma SetClient(st: State, c: ClientId, k: Client, t: Trace)
    requires ClientsOk(st.clients) && HistoryOk(st.clients, st.traces, st.received)
    requires ClientOk(k) && Block(t, st.received) && Follows(k, t, st.received)
    ensures ClientsOk(st.clients[c := k])
    ensures HistoryOk(st.clients[c := k], st.traces[c := t], st.received)
  {
    hide ClientOk, Block, Follows;
  }

  /** A client in no session and with no frame pending comes or goes. */
  lemma LooseClient(clients: map<ClientId, Client>, sessions: map<SessionId, MediaSession>,
                    refs: map<FrameId, nat>, c: ClientId, k: Client)
    requires Membership(clients, sessions) && FramesOk(clients, refs)
    requires k.session.None? && k.pending == {}
    requires c in clients ==> clients[c] == k
    ensures Membership(clients[c := k], sessions) && FramesOk(clients[c := k], refs)
    ensures Membership(clients - {c}, sessions) && FramesOk(clients - {c}, refs)
  {
    hide Distinct;
    assert Membership(clients[c := k], sessions) && Membership(clients - {c}, sessions) by {
      hide FramesOk;
      assert forall s :: s in sessions ==> c !in sessions[s].clients;
    }
    hide Membership;
    forall f | f in refs
      ensures Waiters(clients[c := k], f) == Waiters(clients, f) == Waiters(clients - {c}, f)
    {
    }
  }

  lemma ConnectInv(st: State, c: ClientId, readOk: bool)
    requires Inv(st) && c !in st.clients && c !in st.traces && Unused(st, ClientObj(c))
    ensures Inv(Connected(st, c, readOk))
  {
    hide ClientsOk, HistoryOk, Membership, SessionsOk, FramesOk, ClientOk, Block, Follows;
    var st' := Connected(st, c, readOk);
    assert st'.clients.Keys == st.clients.Keys + {c};
    NewClientIsOk(st.received, readOk);
    SetClient(st, c, st'.clients[c], st'.traces[c]);
    LooseClient(st.clients, st.sessions, st.refs, c, st'.clients[c]);
    AllocInv(st.live, st.freed, {ClientObj(c)}, st.received, st.traces);
    Pack(st');
  }

  lemma NewClientIsOk(received: map<SessionId, seq<FrameId>>, readOk: bool)
    ensures ClientOk(NewClient(readOk))
    ensures Block(NO_TRACE, received) && Follows(NewClient(readOk), NO_TRACE, received)
  {
  }

  lemma ResponseIsOk(st: State, k: Client, t: Trace)
    requires ClientOk(k) && Block(t, st.received) && Follows(k, t, st.received)
    requires k.resPending
    ensures ClientOk(k.(status := OnSendFrames, resPending := false))
    ensures Block(Responded(st, t), st.received)
    ensures Follows(k.(status := OnSendFrames, resPending := false), Responded(st, t), st.received)
  {
  }

  lemma ResponseDoneInv(st: State, c: ClientId)
    requires Inv(st) && c in st.clients && c in st.traces && st.clients[c].resPending
    ensures Inv(ResponseSent(st, c))
  {
    hide SessionsOk, FramesOk, MemoryOk, ClientOk, Block, Follows, Distinct;
    var st' := ResponseSent(st, c);
    ResponseIsOk(st, st.clients[c], st.traces[c]);
    SetClient(st, c, st'.clients[c], st'.traces[c]);
    hide ClientsOk, HistoryOk;
    assert st'.clients.Keys == st.clients.Keys;
    SameWaiters(st.clients, st'.clients, st.refs);
    Pack(st');
  }

  lemma ErrorResponseDoneInv(st: State, c: ClientId)
    requires Inv(st) && c in st.clients && st.clients[c].errPending
    ensures Inv(ErrorResponseSent(st, c))
  {
    hide Distinct, SessionsOk, SessionOk, MemoryOk, AccountOk, Block, FramesOk;
    InvEachOk(st);
    var clients' := st.clients[c := st.clients[c].(errPending := false)];
    assert clients'.Keys == st.clients.Keys;
    ClientsChange(st, clients');
    StopOneInv(st.(clients := clients'), c);
  }

  lemma ClientClosedInv(st: State, c: ClientId)
    requires Inv(st) && c in st.clients && st.clients[c].closes > 0
    requires !st.clients[c].resPending && !st.clients[c].errPending && st.clients[c].pending == {}
    ensures Inv(ClientGone(st, c))
  {
    hide Membership, SessionsOk, FramesOk, AccountOk, Block, Follows;
    var st' := ClientGone(st, c);
    assert st'.clients.Keys == st.clients.Keys - {c};
    LooseClient(st.clients, st.sessions, st.refs, c, st.clients[c]);
    FreeInv(st.live, st.freed, {ClientObj(c)}, st.received, st.traces);
    Pack(st');
  }

  // ----- The steps of one session -----

  lemma TimerKeepsSessions(sessions: map<SessionId, MediaSession>, registry: seq<SessionId>, s: SessionId)
    requires SessionsOk(sessions, registry) && s in sessions
    ensures sessions[s].clients != [] ==> SessionsOk(sessions[s := sessions[s].(timer := false)], registry)
    ensures sessions[s].clients == [] ==>
      SessionsOk(sessions[s := sessions[s].(timer := false, closing := true, reading := false)], Keep(registry, {s}))
  {
    hide Keep, Distinct;
    KeepMembers(registry, {s});
  }

  lemma SameMembership(clients: map<ClientId, Client>, sessions: map<SessionId, MediaSession>,
                       s: SessionId, sess: MediaSession)
    requires Membership(clients, sessions) && s in sessions
    requires sess.clients == sessions[s].clients && sess.clientSize == sessions[s].clientSize
    ensures Membership(clients, sessions[s := sess])
    ensures sessions[s := sess].Keys == sessions.Keys
    ensures sess.clientSize == |sess.clients|
  {
    hide Distinct;
  }

  lemma ExitTimerInv(st: State, s: SessionId)
    requires Inv(st) && s in st.sessions && st.sessions[s].timer
    ensures Inv(TimerFired(st, s))
  {
    hide ClientsOk, Membership, SessionsOk, FramesOk, MemoryOk, AccountOk, HistoryOk;
    var st' := TimerFired(st, s);
    SameMembership(st.clients, st.sessions, s, st'.sessions[s]);
    TimerKeepsSessions(st.sessions, st.registry, s);
    Pack(st');
  }

  lemma RemoveSession(clients: map<ClientId, Client>, sessions: map<SessionId, MediaSession>,
                      registry: seq<SessionId>, s: SessionId)
    requires Membership(clients, sessions) && SessionsOk(sessions, registry)
    requires s in sessions && sessions[s].closing
    ensures Membership(clients, sessions - {s}) && SessionsOk(sessions - {s}, registry)
  {
    hide Distinct;
  }

  lemma DvrClosedInv(st: State, s: SessionId)
    requires Inv(st) && s in st.sessions && st.sessions[s].closing
    ensures Inv(SessionGone(st, s))
  {
    hide ClientsOk, Membership, SessionsOk, FramesOk, AccountOk, HistoryOk;
    var st' := SessionGone(st, s);
    FreeInv(st.live, st.freed, {SessionObj(s)}, st.received, st.traces);
    assert st'.sessions.Keys == st.sessions.Keys - {s};
    RemoveSession(st.clients, st.sessions, st.registry, s);
    Pack(st');
  }

  // ----- A frame write is over -----

  lemma SamePointers(clients: map<ClientId, Client>, clients': map<ClientId, Client>,
                     sessions: map<SessionId, MediaSession>)
    requires Membership(clients, sessions)
    requires clients'.Keys == clients.Keys
    requires forall c :: c in clients ==> clients'[c].session == clients[c].session
    ensures Membership(clients', sessions)
  {
    hide Distinct;
  }

  function OneLess(refs: map<FrameId, nat>, f: FrameId): map<FrameId, nat>
    requires f in refs && refs[f] > 0
  {
    if refs[f] == 1 then refs - {f} else refs[f := refs[f] - 1]
  }

  lemma WriteOver(clients: map<ClientId, Client>, refs: map<FrameId, nat>, c: ClientId, f: FrameId)
    requires FramesOk(clients, refs)
    requires c in clients && f in clients[c].pending
    ensures FramesOk(clients[c := clients[c].(pending := clients[c].pending - {f})], OneLess(refs, f))
  {
    var clients' := clients[c := clients[c].(pending := clients[c].pending - {f})];
    assert Waiters(clients', f) == Waiters(clients, f) - {c};
    forall g | g in refs && g != f
      ensures Waiters(clients', g) == Waiters(clients, g)
    {
    }
    forall d | d in clients' && f in clients'[d].pending
      ensures refs[f] > 1
    {
      assert d in Waiters(clients', f);
      assert Waiters(clients, f) == Waiters(clients', f) + {c};
    }
  }

  lemma LessPendingIsOk(k: Client, t: Trace, received: map<SessionId, seq<FrameId>>, f: FrameId)
    requires ClientOk(k) && Follows(k, t, received)
    ensures ClientOk(k.(pending := k.pending - {f})) && Follows(k.(pending := k.pending - {f}), t, received)
  {
  }

  lemma ReleaseFrame(st: State, f: FrameId)
    requires MemoryOk(st.live, st.freed, st.clients.Keys, st.sessions.Keys, st.refs.Keys)
    requires AccountOk(st.live, st.freed, st.received, st.traces)
    requires f in st.refs
    ensures MemoryOk(st.live - FrameObjects(f), st.freed + multiset(FrameObjects(f)),
                     st.clients.Keys, st.sessions.Keys, st.refs.Keys - {f})
    ensures AccountOk(st.live - FrameObjects(f), st.freed + multiset(FrameObjects(f)), st.received, st.traces)
  {
    hide AccountOk;
    FreeInv(st.live, st.freed, FrameObjects(f), st.received, st.traces);
  }

  lemma FrameWrittenInv(st: State, c: ClientId, f: FrameId)
    requires Inv(st) && c in st.clients && f in st.clients[c].pending
    requires f in st.refs && st.refs[f] > 0
    ensures Inv(FrameWritten(st, c, f))
  {
    hide SessionsOk, Membership, MemoryOk, AccountOk, FramesOk, ClientOk, Block, Follows;
    var st' := FrameWritten(st, c, f);
    var k := st.clients[c].(pending := st.clients[c].pending - {f});
    var clients' := st.clients[c := k];
    assert clients'.Keys == st.clients.Keys;
    assert ClientsOk(clients') && HistoryOk(clients', st.traces, st.received) by {
      LessPendingIsOk(st.clients[c], st.traces[c], st.received, f);
      SetClient(st, c, k, st.traces[c]);
      assert st.traces[c := st.traces[c]] == st.traces;
    }
    hide ClientsOk, HistoryOk;
    SamePointers(st.clients, clients', st.sessions);
    WriteOver(st.clients, st.refs, c, f);
    ReleaseFrame(st, f);
    assert OneLess(st.refs, f).Keys == if st.refs[f] == 1 then st.refs.Keys - {f} else st.refs.Keys;
    Pack(st');
  }

  // ----- A frame is received -----

  /** A longer history of one session leaves every block a block. */
  lemma BlockExtends(t: Trace, received: map<SessionId, seq<FrameId>>, s: SessionId, f: FrameId)
    requires Block(t, received) && s in received
    ensures Block(t, received[s := received[s] + [f]])
  {
    if t.responded && t.home == Some(s) {
      var l, n := received[s], |t.accepted|;
      assert (l + [f])[t.start..t.start + n] == l[t.start..t.start + n];
    }
  }

  /** A client that is not waiting for the frames of a session does not miss them. */
  lemma FollowsElsewhere(k: Client, t: Trace, received: map<SessionId, seq<FrameId>>, s: SessionId, f: FrameId)
    requires Follows(k, t, received) && s in received
    requires k.status != OnSendFrames || k.session != Some(s)
    ensures Follows(k, t, received[s := received[s] + [f]])
  {
  }

  /** A client that accepts a frame has the longer block. */
  lemma TakerIsOk(k: Client, t: Trace, received: map<SessionId, seq<FrameId>>, s: SessionId, f: FrameId)
    requires ClientOk(k) && Block(t, received) && Follows(k, t, received) && s in received
    requires k.status == OnSendFrames && k.session == Some(s)
    ensures ClientOk(k.(pending := k.pending + {f}))
    ensures Block(t.(accepted := t.accepted + [f]), received[s := received[s] + [f]])
    ensures Follows(k.(pending := k.pending + {f}), t.(accepted := t.accepted + [f]), received[s := received[s] + [f]])
  {
    var l, n := received[s], |t.accepted|;
    assert (l + [f])[t.start..t.start + n + 1] == l[t.start..t.start + n] + [f];
  }

  /** A frame with a new identity is handed to `takers`. */
  lemma NewFrameCounts(clients: map<ClientId, Client>, clients': map<ClientId, Client>, refs: map<FrameId, nat>,
                       takers: set<ClientId>, f: FrameId)
    requires FramesOk(clients, refs) && f !in refs
    requires clients'.Keys == clients.Keys && takers <= clients.Keys
    requires forall c :: c in clients ==>
      clients'[c].pending == if c in takers then clients[c].pending + {f} else clients[c].pending
    ensures FramesOk(clients', if takers == {} then refs else refs[f := |takers|])
  {
    forall g | g in refs
      ensures Waiters(clients', g) == Waiters(clients, g)
    {
    }
    assert Waiters(clients', f) == takers;
  }

  lemma FanOutClients(st: State, s: SessionId, f: FrameId, sendOk: set<ClientId>)
    requires Linked(st) && ClientsOk(st.clients) && Membership(st.clients, st.sessions) && s in st.sessions
    requires HistoryOk(st.clients, st.traces, st.received)
    ensures ClientsOk(FanOut(st, s, f, sendOk).clients)
    ensures HistoryOk(FanOut(st, s, f, sendOk).clients, FanOut(st, s, f, sendOk).traces,
                      FanOut(st, s, f, sendOk).received)
  {
    hide Block, ClientOk, Follows, Distinct, Keep, Detach;
    var st' := FanOut(st, s, f, sendOk);
    assert st'.received == st.received[s := st.received[s] + [f]];
    forall c | c in st.traces
      ensures Block(st'.traces[c], st'.received)
    {
      if c in Takers(st, s, sendOk, true) {
        TakerIsOk(st.clients[c], st.traces[c], st.received, s, f);
      } else {
        BlockExtends(st.traces[c], st.received, s, f);
      }
    }
    forall c | c in st.clients
      ensures ClientOk(st'.clients[c]) && Follows(st'.clients[c], st'.traces[c], st'.received)
    {
      if c in Takers(st, s, sendOk, true) {
        TakerIsOk(st.clients[c], st.traces[c], st.received, s, f);
      } else if c in Takers(st, s, sendOk, false) {
        StoppedIsOk(st.clients[c], st.traces[c], st.received);
        FollowsElsewhere(Stopped(st.clients[c]), st.traces[c], st.received, s, f);
      } else {
        FollowsElsewhere(st.clients[c], st.traces[c], st.received, s, f);
      }
    }
  }

  lemma FanOutSessions(st: State, s: SessionId, f: FrameId, sendOk: set<ClientId>)
    requires Linked(st) && Membership(st.clients, st.sessions) && SessionsOk(st.sessions, st.registry)
    requires s in st.sessions
    ensures Membership(FanOut(st, s, f, sendOk).clients, FanOut(st, s, f, sendOk).sessions)
    ensures SessionsOk(FanOut(st, s, f, sendOk).sessions, st.registry)
  {
    hide Distinct, Keep, SessionsOk, SessionOk;
    var failed := Takers(st, s, sendOk, false);
    var stopped := map c | c in st.clients :: if c in failed then Stopped(st.clients[c]) else st.clients[c];
    var sess' := Detach(st.sessions[s], failed);
    LeaveKeepsMembership(st.clients, stopped, st.sessions, s, sess', failed);
    LeaveKeepsSessions(st.sessions, st.registry, s, sess', failed);
    hide Membership;
    SamePointers(stopped, FanOut(st, s, f, sendOk).clients, st.sessions[s := sess']);
  }

  lemma ReceiveAccount(live: set<Object>, freed: multiset<Object>, received: map<SessionId, seq<FrameId>>,
                       traces: map<ClientId, Trace>, s: SessionId, f: FrameId)
    requires AccountOk(live, freed, received, traces) && s in received && f !in received[s]
    requires Payload(f) in live && Record(f) in live
    ensures AccountOk(live, freed, received[s := received[s] + [f]], traces)
  {
    var l := received[s] + [f];
    assert Distinct(l);
    hide Distinct;
  }

  /** A frame that is kept. */
  lemma AdoptFrame(st: State, s: SessionId, f: FrameId)
    requires MemoryOk(st.live, st.freed, st.clients.Keys, st.sessions.Keys, st.refs.Keys)
    requires AccountOk(st.live, st.freed, st.received, st.traces)
    requires s in st.received && f !in st.received[s]
    requires forall o :: o in FrameObjects(f) ==> Unused(st, o)
    ensures MemoryOk(st.live + FrameObjects(f), st.freed, st.clients.Keys, st.sessions.Keys, st.refs.Keys + {f})
    ensures AccountOk(st.live + FrameObjects(f), st.freed, st.received[s := st.received[s] + [f]], st.traces)
  {
    hide AccountOk;
    AllocInv(st.live, st.freed, FrameObjects(f), st.received, st.traces);
    ReceiveAccount(st.live + FrameObjects(f), st.freed, st.received, st.traces, s, f);
  }

  /** A frame that is released at once, with or without a header. */
  lemma DropFrame(st: State, s: SessionId, f: FrameId, objs: set<Object>)
    requires MemoryOk(st.live, st.freed, st.clients.Keys, st.sessions.Keys, st.refs.Keys)
    requires AccountOk(st.live, st.freed, st.received, st.traces)
    requires s in st.received && f !in st.received[s]
    requires {Payload(f), Record(f)} <= objs && forall o :: o in objs ==> Unused(st, o)
    ensures MemoryOk(st.live + objs - objs, st.freed + multiset(objs),
                     st.clients.Keys, st.sessions.Keys, st.refs.Keys)
    ensures AccountOk(st.live + objs - objs, st.freed + multiset(objs), st.received[s := st.received[s] + [f]], st.traces)
  {
    hide AccountOk;
    AllocInv(st.live, st.freed, objs, st.received, st.traces);
    ReceiveAccount(st.live + objs, st.freed, st.received, st.traces, s, f);
    FreeInv(st.live + objs, st.freed, objs, st.received[s := st.received[s] + [f]], st.traces);
  }

  lemma FrameIsNew(st: State, s: SessionId, f: FrameId)
    requires MemoryOk(st.live, st.freed, st.clients.Keys, st.sessions.Keys, st.refs.Keys)
    requires AccountOk(st.live, st.freed, st.received, st.traces)
    requires s in st.received && Unused(st, Header(f)) && Unused(st, Payload(f))
    ensures f !in st.received[s] && f !in st.refs
  {
  }

  lemma SameAccount(live: set<Object>, freed: multiset<Object>, received: map<SessionId, seq<FrameId>>,
                    traces: map<ClientId, Trace>, traces': map<ClientId, Trace>)
    requires AccountOk(live, freed, received, traces) && traces'.Keys == traces.Keys
    ensures AccountOk(live, freed, received, traces')
  {
    hide Distinct, Settled;
  }

  lemma FanOutMemory(st: State, s: SessionId, f: FrameId, sendOk: set<ClientId>)
    requires Linked(st) && s in st.sessions && f !in st.refs && f !in st.received[s]
    requires forall o :: o in FrameObjects(f) ==> Unused(st, o)
    requires MemoryOk(st.live, st.freed, st.clients.Keys, st.sessions.Keys, st.refs.Keys)
    requires AccountOk(st.live, st.freed, st.received, st.traces)
    ensures MemoryOk(FanOut(st, s, f, sendOk).live, FanOut(st, s, f, sendOk).freed,
                     st.clients.Keys, st.sessions.Keys, FanOut(st, s, f, sendOk).refs.Keys)
    ensures AccountOk(FanOut(st, s, f, sendOk).live, FanOut(st, s, f, sendOk).freed,
                      FanOut(st, s, f, sendOk).received, st.traces)
  {
    hide MemoryOk, AccountOk, Detach;
    if Takers(st, s, sendOk, true) != {} {
      AdoptFrame(st, s, f);
      assert FanOut(st, s, f, sendOk).refs.Keys == st.refs.Keys + {f};
    } else {
      DropFrame(st, s, f, if st.sessions[s].clients != [] then FrameObjects(f) else {Payload(f), Record(f)});
    }
  }

  /** A new frame: either it is kept and counts its takers, or it is gone when the step ends. */
  lemma FanOutInv(st: State, s: SessionId, f: FrameId, sendOk: set<ClientId>)
    requires Inv(st) && Linked(st) && s in st.sessions
    requires Unused(st, Header(f)) && Unused(st, Payload(f)) && Unused(st, Record(f))
    ensures Inv(FanOut(st, s, f, sendOk))
  {
    hide ClientsOk, Membership, SessionsOk, FramesOk, MemoryOk, AccountOk, HistoryOk, Detach, Keep;
    var st' := FanOut(st, s, f, sendOk);
    FrameIsNew(st, s, f);
    FanOutClients(st, s, f, sendOk);
    FanOutSessions(st, s, f, sendOk);
    NewFrameCounts(st.clients, st'.clients, st.refs, Takers(st, s, sendOk, true), f);
    FanOutMemory(st, s, f, sendOk);
    SameAccount(st'.live, st'.freed, st'.received, st.traces, st'.traces);
    assert st'.clients.Keys == st.clients.Keys && st'.sessions.Keys == st.sessions.Keys;
    Pack(st');
  }

  // ----- A preview command -----

  lemma PreviewedIsOk(k: Client, t: Trace, received: map<SessionId, seq<FrameId>>, s: SessionId)
    requires ClientOk(k) && Block(t, received) && Follows(k, t, received)
    requires k.closes == 0 && !k.previewed && s in received
    ensures k.status == OnInit && k.session.None? && k.pending == {}
    ensures ClientOk(k.(previewed := true, session := Some(s)))
    ensures Block(t.(home := Some(s)), received)
    ensures Follows(k.(previewed := true, session := Some(s)), t.(home := Some(s)), received)
  {
  }

  lemma RefusedIsOk(k: Client, t: Trace, received: map<SessionId, seq<FrameId>>, ok: bool)
    requires ClientOk(k) && Follows(k, t, received)
    requires k.closes == 0 && !k.previewed
    ensures ClientOk(k.(previewed := true, errPending := ok))
    ensures Follows(k.(previewed := true, errPending := ok), t, received)
  {
  }

  lemma NewHistory(st: State, s: SessionId)
    requires HistoryOk(st.clients, st.traces, st.received) && s !in st.received
    ensures HistoryOk(st.clients, st.traces, st.received[s := []])
  {
  }

  lemma JoinSessions(clients: map<ClientId, Client>, sessions: map<SessionId, MediaSession>,
                     registry: seq<SessionId>, c: ClientId, k: Client, s: SessionId)
    requires Membership(clients, sessions) && SessionsOk(sessions, registry)
    requires c in clients && clients[c].session.None? && k.session == Some(s) && s in registry && s in sessions
    ensures Membership(clients[c := k], sessions[s := Joined(sessions[s], c)])
    ensures SessionsOk(sessions[s := Joined(sessions[s], c)], registry)
  {
    assert Distinct([c] + sessions[s].clients) by {
      hide SessionsOk;
      assert c !in sessions[s].clients;
    }
    hide Distinct;
    assert Membership(clients[c := k], sessions[s := Joined(sessions[s], c)]) by {
      hide SessionsOk, SessionOk;
    }
    hide Membership;
  }

  /** A client joins a registered session; it has not been answered yet. */
  lemma JoinInv(st: State, c: ClientId, s: SessionId)
    requires Inv(st) && c in st.clients && c in st.traces && s in st.registry && s in st.sessions
    requires st.clients[c].closes == 0 && !st.clients[c].previewed
    ensures Inv(Join(st, c, s))
  {
    hide Membership, SessionsOk, FramesOk, MemoryOk, AccountOk, ClientOk, Block, Follows;
    var st' := Join(st, c, s);
    var k, t := st.clients[c], st.traces[c];
    PreviewedIsOk(k, t, st.received, s);
    SetClient(st, c, st'.clients[c], st'.traces[c]);
    hide ClientsOk, HistoryOk;
    SameWaiters(st.clients, st'.clients, st.refs);
    JoinSessions(st.clients, st.sessions, st.registry, c, st'.clients[c], s);
    assert st'.clients.Keys == st.clients.Keys && st'.sessions.Keys == st.sessions.Keys;
    SameAccount(st.live, st.freed, st.received, st.traces, st'.traces);
    Pack(st');
  }

  lemma AnswerInv(st: State, c: ClientId, s: SessionId, ok: bool)
    requires Inv(st) && c in st.clients && s in st.sessions && st.clients[c].session == Some(s)
    ensures Inv(Answer(st, c, s, ok))
  {
    hide ClientOk, Follows, Block, MemoryOk, AccountOk, Distinct, Keep, SessionsOk, SessionOk, FramesOk, Membership;
    InvEachOk(st);
    var k := st.clients[c];
    RespondIsOk(k, st.traces[c], st.received, ok);
    var clients' := st.clients[c := Respond(k, ok)];
    assert clients'.Keys == st.clients.Keys;
    if k.status == OnInit && !ok {
      Departure(st, clients', s, {c});
    } else {
      ClientsChange(st, clients');
    }
  }

  lemma PreviewJoinInv(st: State, c: ClientId, s: SessionId, ok: bool)
    requires Inv(st) && c in st.clients && c in st.traces && s in st.registry && s in st.sessions
    requires st.clients[c].closes == 0 && !st.clients[c].previewed
    ensures Inv(PreviewJoin(st, c, s, ok))
  {
    hide Inv;
    JoinInv(st, c, s);
    AnswerInv(Join(st, c, s), c, s, ok);
  }

  /** A new session with its first client. */
  lemma CreateSessions(clients: map<ClientId, Client>, sessions: map<SessionId, MediaSession>,
                       registry: seq<SessionId>, c: ClientId, k: Client, s: SessionId, key: SessionKey)
    requires Membership(clients, sessions) && SessionsOk(sessions, registry)
    requires c in clients && clients[c].session.None? && k.session == Some(s) && s !in sessions
    requires forall t :: t in sessions && sessions[t].key == key ==> Quiet(sessions[t])
    ensures Membership(clients[c := k], sessions[s := NewSession(key, c)])
    ensures SessionsOk(sessions[s := NewSession(key, c)], [s] + registry)
  {
    assert Distinct([s] + registry);
    assert Distinct([c]);
    hide Distinct;
    assert Membership(clients[c := k], sessions[s := NewSession(key, c)]) by {
      hide SessionsOk, SessionOk;
    }
    hide Membership;
  }

  lemma CreateInv(st: State, c: ClientId, key: SessionKey, s: SessionId)
    requires Inv(st) && c in st.clients && c in st.traces && s !in st.sessions && s !in st.received
    requires st.clients[c].closes == 0 && !st.clients[c].previewed && Unused(st, SessionObj(s))
    requires forall t :: t in st.sessions && st.sessions[t].key == key ==> Quiet(st.sessions[t])
    ensures Inv(PreviewNew(st, c, key, s, true, false))
  {
    hide Membership, SessionsOk, FramesOk, AccountOk, ClientOk, Block, Follows;
    var st' := PreviewNew(st, c, key, s, true, false);
    var k, t := st.clients[c], st.traces[c];
    SetTwice(st.clients, c, k.(previewed := true), st'.clients[c]);
    NewHistory(st, s);
    PreviewedIsOk(k, t, st'.received, s);
    SetClient(st.(received := st'.received), c, st'.clients[c], st'.traces[c]);
    hide ClientsOk, HistoryOk;
    SameWaiters(st.clients, st'.clients, st.refs);
    CreateSessions(st.clients, st.sessions, st.registry, c, st'.clients[c], s, key);
    assert st'.clients.Keys == st.clients.Keys && st'.sessions.Keys == st.sessions.Keys + {s};
    NewAccount(st, s);
    SameAccount(st'.live, st'.freed, st'.received, st.traces, st'.traces);
    Pack(st');
  }

  lemma NewAccount(st: State, s: SessionId)
    requires AccountOk(st.live, st.freed, st.received, st.traces)
    ensures AccountOk(st.live + {SessionObj(s)}, st.freed, st.received[s := []], st.traces)
  {
  }

  /** What is allocated and freed in one step changes no account but its own. */
  lemma GoneAtOnce(st: State, o: Object)
    requires MemoryOk(st.live, st.freed, st.clients.Keys, st.sessions.Keys, st.refs.Keys)
    requires AccountOk(st.live, st.freed, st.received, st.traces) && Unused(st, o)
    ensures MemoryOk(st.live + {o} - {o}, st.freed + multiset({o}), st.clients.Keys, st.sessions.Keys, st.refs.Keys)
    ensures AccountOk(st.live + {o} - {o}, st.freed + multiset({o}), st.received, st.traces)
  {
    hide AccountOk;
    AllocInv(st.live, st.freed, {o}, st.received, st.traces);
    FreeInv(st.live + {o}, st.freed, {o}, st.received, st.traces);
  }

  lemma FreedInv(st: State, o: Object)
    requires Inv(st) && Unused(st, o)
    ensures Inv(Free(Alloc(st, {o}), {o}))
  {
    hide ClientsOk, Membership, SessionsOk, FramesOk, MemoryOk, AccountOk, HistoryOk;
    GoneAtOnce(st, o);
    Pack(Free(Alloc(st, {o}), {o}));
  }

  /** No DVR could be reached: the new session is gone again. */
  lemma CreateFailedInv(st: State, c: ClientId, key: SessionKey, s: SessionId, ok: bool)
    requires Inv(st) && c in st.clients && c in st.traces && s !in st.received
    requires st.clients[c].closes == 0 && !st.clients[c].previewed && Unused(st, SessionObj(s))
    ensures Inv(PreviewNew(st, c, key, s, false, ok))
  {
    hide Membership, SessionsOk, FramesOk, MemoryOk, AccountOk, ClientOk, Block, Follows, EachOk;
    InvEachOk(st);
    RefusedEachOk(st, c, ok);
    var clients' := st.clients[c := st.clients[c].(previewed := true, errPending := ok)];
    assert clients'.Keys == st.clients.Keys;
    ClientsChange(st, clients');
    SetTwice(st.clients, c, st.clients[c].(previewed := true), clients'[c]);
    hide Inv;
    FreedInv(st.(clients := clients'), SessionObj(s));
  }

  lemma RefusedEachOk(st: State, c: ClientId, ok: bool)
    requires EachOk(st.clients, st) && c in st.clients
    requires st.clients[c].closes == 0 && !st.clients[c].previewed
    ensures EachOk(st.clients[c := st.clients[c].(previewed := true, errPending := ok)], st)
  {
    hide ClientOk, Follows;
    RefusedIsOk(st.clients[c], st.traces[c], st.received, ok);
  }

  // ----- Every step -----

  lemma ClosingReadsNoMore(st: State, s: SessionId)
    requires Inv(st) && s in st.sessions
    ensures st.sessions[s].closing ==> !st.sessions[s].reading
  {
  }

  lemma DvrReachedInv(st: State, s: SessionId, ok: bool, resOk: set<ClientId>)
    requires Inv(st) && s in st.sessions && (ok ==> !st.sessions[s].closing)
    ensures Inv(DvrReached(st, s, ok, resOk))
  {
    hide Inv, StopSession;
    ClosingReadsNoMore(st, s);
    var sess := st.sessions[s].(connectPending := false, previewPending := ok || st.sessions[s].previewPending);
    FlagsInv(st, s, sess);
    if !ok {
      StopSessionInv(SetSession(st, s, sess), s, resOk);
    }
  }

  /** Reading starts, or the session is stopped. */
  lemma ReadStartsInv(st: State, s: SessionId, readOk: bool, resOk: set<ClientId>)
    requires Inv(st) && s in st.sessions && (readOk ==> !st.sessions[s].closing)
    ensures var st1 := SetSession(st, s, st.sessions[s].(running := true, reading := readOk));
      Inv(if readOk then st1 else StopSession(st1, s, resOk))
  {
    hide Inv, StopSession;
    var sess := st.sessions[s].(running := true, reading := readOk);
    FlagsInv(st, s, sess);
    if !readOk {
      StopSessionInv(SetSession(st, s, sess), s, resOk);
    }
  }

  lemma DvrAskedInv(st: State, s: SessionId, ok: bool, readOk: bool, resOk: set<ClientId>)
    requires Inv(st) && s in st.sessions && (ok && readOk ==> !st.sessions[s].closing)
    ensures Inv(DvrAsked(st, s, ok, readOk, resOk))
  {
    hide Inv, StopSession;
    ClosingReadsNoMore(st, s);
    FlagsInv(st, s, st.sessions[s].(previewPending := false));
    var st1 := SetSession(st, s, st.sessions[s].(previewPending := false));
    if !ok {
      StopSessionInv(st1, s, resOk);
    } else {
      RespondAllInv(st1, s, resOk);
      ReadStartsInv(RespondAll(st1, s, resOk), s, readOk, resOk);
    }
  }

  lemma DvrReadErrorInv(st: State, s: SessionId, resOk: set<ClientId>)
    requires Inv(st) && s in st.sessions
    ensures Inv(StopSession(SetSession(st, s, st.sessions[s].(reading := false)), s, resOk))
  {
    hide Inv;
    FlagsInv(st, s, st.sessions[s].(reading := false));
    StopSessionInv(SetSession(st, s, st.sessions[s].(reading := false)), s, resOk);
  }

  lemma PendingIsOpen(st: State, c: ClientId)
    requires Inv(st) && c in st.clients && st.clients[c].pending != {}
    ensures st.clients[c].closes == 0 || st.clients[c].status == OnStop
  {
    assert ClientOk(st.clients[c]);
  }

  lemma FrameEndedInv(st: State, c: ClientId, f: FrameId, ok: bool)
    requires Inv(st) && Linked(st) && c in st.clients && f in st.clients[c].pending
    ensures Inv(FrameEnded(st, c, f, ok))
  {
    hide Inv, StopOne;
    PendingIsOpen(st, c);
    FrameWrittenInv(st, c, f);
    if !ok {
      StopOneInv(FrameWritten(st, c, f), c);
    }
  }

  lemma PreviewInv(st: State, c: ClientId, key: SessionKey, s: SessionId, initOk: bool, connectOk: bool, ok: bool)
    requires Inv(st) && Linked(st) && Enabled(st, Preview(c, key, s, initOk, connectOk, ok))
    ensures Inv(Step(st, Preview(c, key, s, initOk, connectOk, ok)))
  {
    hide Inv;
    if s in st.sessions {
      PreviewJoinInv(st, c, s, ok);
    } else if initOk && connectOk {
      CreateInv(st, c, key, s);
    } else {
      CreateFailedInv(st, c, key, s, ok);
    }
  }

  lemma ClientStepInv(st: State, e: Event)
    requires Inv(st) && Linked(st) && Enabled(st, e)
    requires e.Connect? || e.Preview? || e.ReadError? || e.ResponseDone? || e.ErrorResponseDone? || e.FrameDone? || e.ClientClosed?
    ensures Inv(Step(st, e))
  {
    hide Inv;
    match e
    case Connect(c, readOk) => ConnectInv(st, c, readOk);
    case Preview(c, key, s, initOk, connectOk, answered) => PreviewInv(st, c, key, s, initOk, connectOk, answered);
    case ReadError(c) => StopOneInv(st, c);
    case ResponseDone(c) => ResponseDoneInv(st, c);
    case ErrorResponseDone(c) => ErrorResponseDoneInv(st, c);
    case FrameDone(c, f, ok) => FrameEndedInv(st, c, f, ok);
    case ClientClosed(c) => ClientClosedInv(st, c);
  }

  lemma DvrStepInv(st: State, e: Event)
    requires Inv(st) && Linked(st) && Enabled(st, e)
    requires e.DvrConnected? || e.DvrPreviewSent? || e.DvrFrame? || e.DvrReadError? || e.ExitTimer? || e.DvrClosed?
    ensures Inv(Step(st, e))
  {
    hide Inv;
    match e
    case DvrConnected(s, ok, written, resOk) => DvrReachedInv(st, s, ok && written, resOk);
    case DvrPreviewSent(s, ok, readOk, resOk) => DvrAskedInv(st, s, ok, readOk, resOk);
    case DvrFrame(s, f, sendOk) => FanOutInv(st, s, f, sendOk);
    case DvrReadError(s, resOk) => DvrReadErrorInv(st, s, resOk);
    case ExitTimer(s) => ExitTimerInv(st, s);
    case DvrClosed(s) => DvrClosedInv(st, s);
  }

  /** Main result: every step keeps the invariant. */
  lemma StepInv(st: State, e: Event)
    requires Inv(st) && Enabled(st, e)
    ensures Linked(st) && Inv(Step(st, e))
  {
    hide Inv, Step;
    InvIsLinked(st);
    match e
    case Connect(_, _) => ClientStepInv(st, e);
    case Preview(_, _, _, _, _, _) => ClientStepInv(st, e);
    case ReadError(_) => ClientStepInv(st, e);
    case ResponseDone(_) => ClientStepInv(st, e);
    case ErrorResponseDone(_) => ClientStepInv(st, e);
    case FrameDone(_, _, _) => ClientStepInv(st, e);
    case ClientClosed(_) => ClientStepInv(st, e);
    case _ => DvrStepInv(st, e);
  }
}
