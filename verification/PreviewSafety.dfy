/** Memory safety, closing and lifetimes in the reachable states of the preview protocol. */
module PreviewSafety {
  import opened CircularList
  import opened SessionRegistry
  import opened PreviewModel
  import opened PreviewInvariants
  import opened PreviewRuns

  // ----- Memory -----

  function MemberObjects(st: State, s: SessionId): (objs: set<Object>)
    requires s in st.sessions
    ensures forall c :: c in st.sessions[s].clients ==> ClientObj(c) in objs
  {
    set c | c in st.sessions[s].clients :: ClientObj(c)
  }

  /** What leaving its session touches: the session, and its clients, to which the client is linked. */
  function SessionOf(st: State, c: ClientId): set<Object>
    requires c in st.clients
  {
    var session := st.clients[c].session;
    if session.None? then {}
    else {SessionObj(session.value)} + if session.value in st.sessions then MemberObjects(st, session.value) else {}
  }

  /** The structures that exist before a callback and that it reads, writes or frees. */
  function Touched(st: State, e: Event): set<Object>
    requires Enabled(st, e)
  {
    match e
    case Connect(_, _) => {}
    case Preview(c, _, s, _, _, _) =>
      {ClientObj(c)} + (set t | t in st.registry :: SessionObj(t)) +
      (if s in st.sessions then MemberObjects(st, s) + {SessionObj(s)} else {})
    case ReadError(c) => {ClientObj(c)} + SessionOf(st, c)
    case ResponseDone(c) => {ClientObj(c)}
    case ErrorResponseDone(c) => {ClientObj(c)} + SessionOf(st, c)
    case FrameDone(c, f, _) => {ClientObj(c)} + SessionOf(st, c) + FrameObjects(f)
    case ClientClosed(c) => {ClientObj(c)}
    case DvrConnected(s, _, _, _) => {SessionObj(s)} + MemberObjects(st, s) + (set t | t in st.registry :: SessionObj(t))
    case DvrPreviewSent(s, _, _, _) => {SessionObj(s)} + MemberObjects(st, s) + (set t | t in st.registry :: SessionObj(t))
    case DvrFrame(s, _, _) => {SessionObj(s)} + MemberObjects(st, s)
    case DvrReadError(s, _) => {SessionObj(s)} + MemberObjects(st, s) + (set t | t in st.registry :: SessionObj(t))
    case ExitTimer(s) => {SessionObj(s)} + (set t | t in st.registry :: SessionObj(t))
    case DvrClosed(s) => {SessionObj(s)}
  }

  /** Main result: every callback touches only structures that are allocated. */
  lemma OnlyLiveIsTouched(st: State, e: Event)
    requires Inv(st) && Enabled(st, e)
    ensures Touched(st, e) <= st.live
  {
    hide ClientsOk, AccountOk, HistoryOk, Distinct;
  }

  lemma FreedByFrame(st: State, s: SessionId, f: FrameId, sendOk: set<ClientId>, o: Object)
    requires Linked(st) && s in st.sessions
    ensures FanOut(st, s, f, sendOk).freed[o] >= st.freed[o]
  {
    hide Takers, Detach, Keep, FrameObjects;
  }

  lemma FreedStep(st: State, e: Event, o: Object)
    requires Linked(st) && Enabled(st, e)
    ensures Step(st, e).freed[o] >= st.freed[o]
  {
    hide StopOne, StopSession, Answer, ErrorResponseSent, DvrReached, DvrAsked, TimerFired, FanOut, FrameObjects;
    if e.DvrFrame? {
      FreedByFrame(st, e.s, e.f, e.sendOk, o);
    }
  }

  lemma {:induction false} FreedRun(st: State, es: seq<Event>, o: Object)
    requires Inv(st) && Runs(st, es)
    ensures After(st, es).freed[o] >= st.freed[o]
    decreases |es|
  {
    hide Inv, Step, Enabled, Linked;
    if es != [] {
      FreedStep(st, es[0], o);
      StepInv(st, es[0]);
      FreedRun(Step(st, es[0]), es[1..], o);
    }
  }

  /** Main result: what has been freed is never touched and never freed again. */
  lemma FreedIsFinal(st: State, es: seq<Event>, e: Event, o: Object)
    requires Inv(st) && st.freed[o] > 0 && Runs(st, es) && Enabled(After(st, es), e)
    ensures o !in Touched(After(st, es), e)
    ensures Linked(After(st, es)) && Step(After(st, es), e).freed[o] == 1
  {
    hide Step, Enabled, Linked, Runs, After;
    var st1 := After(st, es);
    FreedRun(st, es, o);
    EveryRun(st, es);
    OnlyLiveIsTouched(st1, e);
    StepInv(st1, e);
    FreedStep(st1, e, o);
  }

  /** Main result: nothing leaks.  Without clients and sessions no memory is in use, and the payload
      and the record of every frame received, every client and every session were freed once. */
  lemma NothingLeaks(st: State)
    requires Inv(st) && st.clients == map[] && st.sessions == map[]
    ensures st.live == {}
    ensures forall s, f :: s in st.received && f in st.received[s] ==> st.freed[Payload(f)] == 1 && st.freed[Record(f)] == 1
    ensures forall c :: c in st.traces ==> st.freed[ClientObj(c)] == 1
    ensures forall s :: s in st.received ==> st.freed[SessionObj(s)] == 1
  {
    forall o
      ensures o !in st.live
    {
      match o
      case ClientObj(_) =>
      case SessionObj(_) =>
      case Header(f) => assert Waiters(st.clients, f) == {};
      case Payload(f) => assert Waiters(st.clients, f) == {};
      case Record(f) => assert Waiters(st.clients, f) == {};
    }
  }

  lemma WrittenMemory(st: State, c: ClientId, f: FrameId, ok: bool, o: Object)
    requires Linked(st) && Enabled(st, FrameDone(c, f, ok)) && o in FrameObjects(f)
    requires o in st.live && st.freed[o] == 0
    ensures var st' := Step(st, FrameDone(c, f, ok));
      if st.refs[f] == 1 then st'.freed[o] == 1 && o !in st'.live else st'.freed[o] == 0 && o in st'.live
  {
    hide StopOne;
  }

  lemma CountedFrame(st: State, c: ClientId, f: FrameId, o: Object)
    requires Inv(st) && c in st.clients && f in st.clients[c].pending && o in FrameObjects(f)
    ensures f in st.refs && st.refs[f] == |Waiters(st.clients, f)| && c in Waiters(st.clients, f)
    ensures o in st.live && st.freed[o] == 0
  {
    hide ClientsOk, Membership, SessionsOk, AccountOk, HistoryOk;
  }

  /** Main result: between callbacks the reference count of a frame is the number of its pending
      writes, and the callback of the last of them releases its three parts, no earlier one any. */
  lemma LastWriteReleases(st: State, c: ClientId, f: FrameId, ok: bool, o: Object)
    requires Inv(st) && Linked(st) && Enabled(st, FrameDone(c, f, ok)) && o in FrameObjects(f)
    ensures st.refs[f] == |Waiters(st.clients, f)|
    ensures var st' := Step(st, FrameDone(c, f, ok));
      if Waiters(st.clients, f) == {c} then st'.freed[o] == 1 && o !in st'.live else st'.freed[o] == 0 && o in st'.live
  {
    CountedFrame(st, c, f, o);
    hide Inv, Step, Waiters, Linked, FrameObjects;
    var w := Waiters(st.clients, f);
    if |w| == 1 {
      OnlyMember(w, c);
    }
    WrittenMemory(st, c, f, ok, o);
  }

  lemma OnlyMember<T>(s: set<T>, x: T)
    requires x in s && |s| == 1
    ensures s == {x}
  {
    assert |s - {x}| == 0;
    assert s - {x} == {};
  }

  // ----- Closing -----

  /** Main result: a client is closed at most once... */
  lemma ClosedAtMostOnce(st: State, e: Event, c: ClientId)
    requires Inv(st) && Enabled(st, e)
    ensures Linked(st) && (c in Step(st, e).clients ==> Step(st, e).clients[c].closes <= 1)
  {
    StepInv(st, e);
    hide Enabled, Linked, Step, Membership, SessionsOk, FramesOk, MemoryOk, AccountOk, HistoryOk;
  }

  lemma TakersAreMembers(st: State, s: SessionId, f: FrameId, sendOk: set<ClientId>, c: ClientId)
    requires Linked(st) && s in st.sessions && c in st.clients && f !in st.clients[c].pending
    requires f in FanOut(st, s, f, sendOk).clients[c].pending
    ensures c in st.sessions[s].clients
  {
    hide Keep, Detach;
  }

  lemma MembersAreOpen(st: State, s: SessionId, c: ClientId)
    requires Inv(st) && s in st.sessions && c in st.sessions[s].clients
    ensures c in st.clients && st.clients[c].closes == 0
  {
    hide SessionsOk, FramesOk, MemoryOk, AccountOk, HistoryOk, Distinct;
    assert ClientOk(st.clients[c]);
  }

  /** ...and no callback hands a frame to a closed one. */
  lemma ClosedIsSilent(st: State, e: Event, c: ClientId)
    requires Inv(st) && Linked(st) && Enabled(st, e)
    requires c in st.clients && st.clients[c].closes > 0
    ensures SentNow(st, e, c) == []
  {
    hide Inv, FanOut, Linked;
    if SentNow(st, e, c) != [] {
      FrameIsUnsent(st, e.s, e.f, e.sendOk, c);
      TakersAreMembers(st, e.s, e.f, e.sendOk, c);
      MembersAreOpen(st, e.s, c);
      assert false;
    }
  }

  /** A late preview response moves a stopped client off its stopped status; it is closed all the
      same, has no write pending, and no callback will close it again. */
  lemma LateResponse(st: State, c: ClientId)
    requires Inv(st) && Linked(st) && Enabled(st, ResponseDone(c)) && st.clients[c].closes == 1
    ensures var k := Step(st, ResponseDone(c)).clients[c];
      k.status == OnSendFrames && k.closes == 1 && k.session.None? && !k.resPending && !k.errPending && k.pending == {}
  {
    hide Membership, SessionsOk, FramesOk, MemoryOk, AccountOk, HistoryOk;
  }

  // ----- Sessions -----

  /** Main result: stop_media_session leaves the session unregistered, empty and, if it had
      clients, with its exit timer armed... */
  lemma StopSessionEmpties(st: State, s: SessionId, resOk: set<ClientId>)
    requires Inv(st) && s in st.sessions
    ensures var st' := StopSession(st, s, resOk);
      && s !in st'.registry
      && st'.sessions[s].clients == [] && st'.sessions[s].clientSize == 0
      && (st.sessions[s].clients != [] ==> st'.sessions[s].timer)
      && (st'.sessions[s].timer || st'.sessions[s].closing)
  {
    hide ClientsOk, Membership, FramesOk, MemoryOk, AccountOk, HistoryOk, Distinct, Keep;
    KeepMembers(st.registry, {s});
    assert SessionOk(st.sessions[s], s in st.registry);
  }

  /** ...and closes each of its clients, for the first time, and no other. */
  lemma StopSessionCloses(st: State, s: SessionId, resOk: set<ClientId>, c: ClientId)
    requires Inv(st) && s in st.sessions && c in st.clients
    ensures var k, k' := st.clients[c], StopSession(st, s, resOk).clients[c];
      if k.session == Some(s) then k.closes == 0 && k'.closes == 1 && k'.session.None? else k' == k
  {
    hide SessionsOk, FramesOk, MemoryOk, AccountOk, HistoryOk, Distinct, Keep;
    assert ClientOk(st.clients[c]);
  }

  lemma KeepTwice<T>(s: seq<T>, drop: set<T>)
    ensures Keep(Keep(s, drop), drop) == Keep(s, drop)
  {
    KeepMembers(s, drop);
    KeepMembers(Keep(s, drop), drop);
  }

  /** Stopping a session twice, as when the preview command cannot be sent, is stopping it once. */
  lemma StopSessionTwice(st: State, s: SessionId, resOk: set<ClientId>, resOk': set<ClientId>)
    requires s in st.sessions
    ensures StopSession(StopSession(st, s, resOk), s, resOk') == StopSession(st, s, resOk)
  {
    hide Keep, StopMember;
    var st1 := StopSession(st, s, resOk);
    KeepTwice(st.registry, {s});
    assert StopSession(st1, s, resOk').clients == st1.clients;
    assert StopSession(st1, s, resOk').sessions == st1.sessions;
  }

  /** Main result: a session is freed only when no client points to it, its timer is not armed and
      it is not registered; and then for the first time. */
  lemma SessionFreedSafely(st: State, s: SessionId)
    requires Inv(st) && Linked(st) && Enabled(st, DvrClosed(s))
    ensures st.sessions[s].clients == [] && !st.sessions[s].timer && s !in st.registry
    ensures forall c :: c in st.clients ==> st.clients[c].session != Some(s)
    ensures st.freed[SessionObj(s)] == 0 && Step(st, DvrClosed(s)).freed[SessionObj(s)] == 1
  {
    hide ClientsOk, FramesOk, AccountOk, HistoryOk, Distinct;
    assert SessionOk(st.sessions[s], s in st.registry);
  }
}
