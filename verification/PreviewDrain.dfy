/** From every reachable state the server can come to rest: every client can be closed and freed,
    every session can leave, and then no memory is in use.  No client and no session is stranded. */
module PreviewDrain {
  import opened CircularList
  import opened SessionRegistry
  import opened PreviewModel
  import opened PreviewInvariants
  import opened PreviewRuns
  import opened PreviewSafety

  /** `es` leads from `st` to a state in which just the given clients and sessions are left. */
  ghost predicate Leads(st: State, es: seq<Event>, clients: set<ClientId>, sessions: set<SessionId>) {
    Runs(st, es) && Inv(After(st, es)) && After(st, es).clients.Keys == clients && After(st, es).sessions.Keys == sessions
  }

  lemma LeadsOn(st: State, e: Event, es: seq<Event>, clients: set<ClientId>, sessions: set<SessionId>)
    requires Linked(st) && Enabled(st, e) && Leads(Step(st, e), es, clients, sessions)
    ensures Leads(st, [e] + es, clients, sessions)
  {
    hide Step, Enabled, Linked, Inv;
    assert ([e] + es)[1..] == es;
  }

  lemma LeadsThen(st: State, es: seq<Event>, fs: seq<Event>, clients: set<ClientId>, sessions: set<SessionId>)
    requires Runs(st, es) && Leads(After(st, es), fs, clients, sessions)
    ensures Leads(st, es + fs, clients, sessions)
  {
    hide Step, Enabled, Linked, Inv, Runs, After;
    RunsConcat(st, es, fs);
  }

  /** Nothing happens to other clients and to other sessions. */
  ghost predicate Apart(st: State, st': State, cs: set<ClientId>, ss: set<SessionId>) {
    && (forall d :: d in st.clients && d !in cs ==> d in st'.clients && st'.clients[d] == st.clients[d])
    && (forall s :: s in st.sessions && s !in ss ==> s in st'.sessions && st'.sessions[s] == st.sessions[s])
  }

  lemma ApartThen(st: State, st1: State, st2: State, cs: set<ClientId>, ss: set<SessionId>, ss1: set<SessionId>)
    requires Apart(st, st1, cs, ss) && Apart(st1, st2, cs, ss1) && ss1 <= ss
    ensures Apart(st, st2, cs, ss)
  {
  }

  /** The session a client belongs to. */
  ghost function OwnSession(st: State, c: ClientId): set<SessionId>
    requires c in st.clients
  {
    if st.clients[c].session.Some? then {st.clients[c].session.value} else {}
  }

  // ----- Clients -----

  /** What has to happen to a client before it is freed. */
  function Todo(k: Client): nat {
    (if k.closes == 0 then 1 else 0) + (if k.resPending then 1 else 0) + (if k.errPending then 1 else 0) + |k.pending|
  }

  /** The next callback of a client that is on its way out. */
  ghost function NextOf(st: State, c: ClientId): Event
    requires c in st.clients
  {
    var k := st.clients[c];
    if k.closes == 0 then ReadError(c)
    else if k.resPending then ResponseDone(c)
    else if k.errPending then ErrorResponseDone(c)
    else if k.pending != {} then var f :| f in k.pending; FrameDone(c, f, true)
    else ClientClosed(c)
  }

  lemma NextIsEnabled(st: State, c: ClientId)
    requires Inv(st) && c in st.clients && Todo(st.clients[c]) > 0
    ensures Enabled(st, NextOf(st, c))
    ensures st.clients[c].errPending && st.clients[c].closes > 0 ==> st.clients[c].status == OnStop
    ensures st.clients[c].closes == 0 ==> st.clients[c].status != OnStop
  {
    hide Membership, SessionsOk, FramesOk, MemoryOk, AccountOk, HistoryOk;
    assert ClientOk(st.clients[c]);
  }

  lemma StopOneApart(st: State, c: ClientId)
    requires Linked(st) && c in st.clients
    ensures var st' := StopOne(st, c);
      && st'.clients.Keys == st.clients.Keys && st'.sessions.Keys == st.sessions.Keys
      && Apart(st, st', {c}, OwnSession(st, c)) && OwnSession(st', c) <= OwnSession(st, c)
      && (st.clients[c].status != OnStop ==> st'.clients[c] == Stopped(st.clients[c]))
      && (st.clients[c].status == OnStop ==> st' == st)
  {
    hide Detach;
  }

  /** The client is nearer to its end, and nothing else happened but in its own session. */
  ghost predicate Nearer(st: State, st': State, c: ClientId)
    requires c in st.clients
  {
    && st'.clients.Keys == st.clients.Keys && st'.sessions.Keys == st.sessions.Keys
    && Todo(st'.clients[c]) < Todo(st.clients[c])
    && Apart(st, st', {c}, OwnSession(st, c)) && OwnSession(st', c) <= OwnSession(st, c)
  }

  lemma StopIsNearer(st: State, c: ClientId)
    requires Linked(st) && c in st.clients && st.clients[c].closes == 0 && st.clients[c].status != OnStop
    ensures Nearer(st, StopOne(st, c), c)
  {
    hide StopOne, Linked;
    StopOneApart(st, c);
  }

  lemma ResponseIsNearer(st: State, c: ClientId)
    requires c in st.clients && c in st.traces && st.clients[c].resPending
    ensures Nearer(st, ResponseSent(st, c), c)
  {
  }

  lemma ErrorResponseIsNearer(st: State, c: ClientId)
    requires Linked(st) && c in st.clients && st.clients[c].errPending && st.clients[c].status == OnStop
    ensures Nearer(st, ErrorResponseSent(st, c), c)
  {
    hide Detach;
  }

  lemma FrameIsNearer(st: State, c: ClientId, f: FrameId)
    requires Linked(st) && c in st.clients && f in st.clients[c].pending
    ensures Nearer(st, FrameEnded(st, c, f, true), c)
  {
  }

  lemma NextStep(st: State, c: ClientId)
    requires Inv(st) && Linked(st) && c in st.clients && Todo(st.clients[c]) > 0
    ensures Enabled(st, NextOf(st, c))
    ensures Nearer(st, Step(st, NextOf(st, c)), c)
  {
    NextIsEnabled(st, c);
    hide Inv, Nearer, StopOne, ResponseSent, ErrorResponseSent, FrameEnded;
    match NextOf(st, c)
    case ReadError(_) => StopIsNearer(st, c);
    case ResponseDone(_) => ResponseIsNearer(st, c);
    case ErrorResponseDone(_) => ErrorResponseIsNearer(st, c);
    case FrameDone(_, f, _) => FrameIsNearer(st, c, f);
    case _ =>
  }

  /** The close callback of a client that has nothing left to do. */
  lemma LastOfClient(st: State, c: ClientId)
    requires Inv(st) && Linked(st) && c in st.clients && Todo(st.clients[c]) == 0
    ensures Leads(st, [ClientClosed(c)], st.clients.Keys - {c}, st.sessions.Keys)
    ensures Apart(st, After(st, [ClientClosed(c)]), {c}, OwnSession(st, c))
  {
    hide Inv, Linked;
    StepInv(st, ClientClosed(c));
    OneEvent(st, ClientClosed(c));
    hide Runs, After;
  }

  /** A client can be closed and freed; nothing happens to other clients, and of the sessions only its
      own one changes. */
  lemma {:induction false} DrainClient(st: State, c: ClientId) returns (es: seq<Event>)
    requires Inv(st) && c in st.clients
    ensures Leads(st, es, st.clients.Keys - {c}, st.sessions.Keys)
    ensures Apart(st, After(st, es), {c}, OwnSession(st, c))
    decreases Todo(st.clients[c])
  {
    hide Inv, Step, Enabled, Linked, Todo, NextOf, Apart, OwnSession, Runs, After;
    InvIsLinked(st);
    if Todo(st.clients[c]) == 0 {
      es := [ClientClosed(c)];
      LastOfClient(st, c);
    } else {
      NextStep(st, c);
      var e := NextOf(st, c);
      StepInv(st, e);
      var rest := DrainClient(Step(st, e), c);
      LeadsOn(st, e, rest, st.clients.Keys - {c}, st.sessions.Keys);
      es := [e] + rest;
      AfterCons(st, e, rest);
      ApartThen(st, Step(st, e), After(st, es), {c}, OwnSession(st, c), OwnSession(Step(st, e), c));
    }
  }

  lemma AfterCons(st: State, e: Event, es: seq<Event>)
    requires Linked(st) && Enabled(st, e) && Runs(Step(st, e), es)
    ensures Runs(st, [e] + es) && After(st, [e] + es) == After(Step(st, e), es)
  {
    hide Step, Enabled, Linked;
    assert ([e] + es)[1..] == es;
  }

  lemma {:induction false} DrainClients(st: State) returns (es: seq<Event>)
    requires Inv(st)
    ensures Leads(st, es, {}, st.sessions.Keys)
    decreases |st.clients.Keys|
  {
    hide Inv;
    if st.clients.Keys == {} {
      es := [];
    } else {
      var c :| c in st.clients.Keys;
      var first := DrainClient(st, c);
      var rest := DrainClients(After(st, first));
      LeadsThen(st, first, rest, {}, st.sessions.Keys);
      es := first + rest;
    }
  }

  // ----- Sessions -----

  function SessionTodo(sess: MediaSession): nat {
    (if sess.closing then 0 else 1) + (if sess.connectPending then 1 else 0) + (if sess.previewPending then 1 else 0)
  }

  function NextOfSession(st: State, s: SessionId): Event
    requires s in st.sessions
  {
    var sess := st.sessions[s];
    if !sess.closing then ExitTimer(s)
    else if sess.connectPending then DvrConnected(s, false, false, {})
    else if sess.previewPending then DvrPreviewSent(s, false, false, {})
    else DvrClosed(s)
  }

  lemma NextSessionStep(st: State, s: SessionId)
    requires Inv(st) && Linked(st) && s in st.sessions && st.sessions[s].clients == []
    requires SessionTodo(st.sessions[s]) > 0
    ensures Enabled(st, NextOfSession(st, s))
    ensures var st' := Step(st, NextOfSession(st, s));
      && st'.clients.Keys == st.clients.Keys && st'.sessions.Keys == st.sessions.Keys
      && st'.sessions[s].clients == [] && SessionTodo(st'.sessions[s]) < SessionTodo(st.sessions[s])
      && Apart(st, st', {}, {s})
  {
    hide ClientsOk, FramesOk, MemoryOk, AccountOk, HistoryOk, Distinct, Keep;
    assert SessionOk(st.sessions[s], s in st.registry);
    assert st.sessions[s].clientSize == 0;
  }

  /** The close callback of a session that has nothing left to do. */
  lemma LastOfSession(st: State, s: SessionId)
    requires Inv(st) && Linked(st) && s in st.sessions && SessionTodo(st.sessions[s]) == 0
    ensures Leads(st, [DvrClosed(s)], st.clients.Keys, st.sessions.Keys - {s})
    ensures Apart(st, After(st, [DvrClosed(s)]), {}, {s})
  {
    hide Inv, Linked;
    StepInv(st, DvrClosed(s));
    OneEvent(st, DvrClosed(s));
    hide Runs, After;
  }

  /** Main result: an idle session can leave, whatever is pending on its DVR connection, and nothing
      happens to any client or to any other session. */
  lemma {:induction false} DrainSession(st: State, s: SessionId) returns (es: seq<Event>)
    requires Inv(st) && s in st.sessions && st.sessions[s].clients == []
    ensures Leads(st, es, st.clients.Keys, st.sessions.Keys - {s})
    ensures Apart(st, After(st, es), {}, {s})
    decreases SessionTodo(st.sessions[s])
  {
    hide Inv, Step, Enabled, Linked, SessionTodo, NextOfSession, Apart, Runs, After;
    InvIsLinked(st);
    if SessionTodo(st.sessions[s]) == 0 {
      es := [DvrClosed(s)];
      LastOfSession(st, s);
    } else {
      NextSessionStep(st, s);
      var e := NextOfSession(st, s);
      StepInv(st, e);
      var rest := DrainSession(Step(st, e), s);
      LeadsOn(st, e, rest, st.clients.Keys, st.sessions.Keys - {s});
      es := [e] + rest;
      AfterCons(st, e, rest);
      ApartThen(st, Step(st, e), After(st, es), {}, {s}, {s});
    }
  }

  lemma NoClientNoMember(st: State, s: SessionId)
    requires Inv(st) && st.clients.Keys == {} && s in st.sessions
    ensures st.sessions[s].clients == []
  {
    hide ClientsOk, SessionsOk, FramesOk, MemoryOk, AccountOk, HistoryOk, Distinct, Keep;
    KeepNone(st.sessions[s].clients, st.clients.Keys);
    KeepMembers(st.sessions[s].clients, st.clients.Keys);
  }

  lemma {:induction false} DrainSessions(st: State) returns (es: seq<Event>)
    requires Inv(st) && st.clients.Keys == {}
    ensures Leads(st, es, {}, {})
    decreases |st.sessions.Keys|
  {
    if st.sessions.Keys == {} {
      es := [];
    } else {
      var s :| s in st.sessions.Keys;
      NoClientNoMember(st, s);
      hide Inv;
      var first := DrainSession(st, s);
      var rest := DrainSessions(After(st, first));
      LeadsThen(st, first, rest, {}, {});
      es := first + rest;
    }
  }

  /** Main result: after any run there is a way to go on that ends with no memory in use. */
  lemma CanComeToRest(es: seq<Event>) returns (fs: seq<Event>)
    requires Runs(INITIAL, es)
    ensures Runs(INITIAL, es + fs) && After(INITIAL, es + fs).live == {}
  {
    hide Inv, Step, Enabled, Linked;
    InitialInv();
    EveryRun(INITIAL, es);
    var st := After(INITIAL, es);
    hide Runs, After;
    var gs := DrainClients(st);
    var hs := DrainSessions(After(st, gs));
    LeadsThen(st, gs, hs, {}, {});
    fs := gs + hs;
    RunsConcat(INITIAL, es, fs);
    var end := After(INITIAL, es + fs);
    assert end.clients == map[] && end.sessions == map[];
    NothingLeaks(end);
  }
}
