/** No client waits in vain: an attached client that has not been answered belongs to a session that
    is still connecting to its DVR, or whose preview command is still being written. */
module PreviewAnswers {
  import opened CircularList
  import opened SessionRegistry
  import opened PreviewModel
  import opened PreviewInvariants
  import opened PreviewRuns

  /** A client in the list of a session that has been sent no preview response. */
  ghost predicate Waits(st: State, s: SessionId, c: ClientId) {
    && s in st.sessions && c in st.sessions[s].clients
    && c in st.clients && st.clients[c].status == OnInit
  }

  ghost predicate OnItsWay(sess: MediaSession) {
    sess.connectPending || sess.previewPending
  }

  ghost predicate AllExpected(st: State) {
    forall s, c :: Waits(st, s, c) ==> OnItsWay(st.sessions[s])
  }

  // ----- Single operations -----

  lemma StopOneWaits(st: State, c: ClientId, s: SessionId, d: ClientId)
    requires c in st.clients && (st.clients[c].session.Some? ==> st.clients[c].session.value in st.sessions)
    requires Waits(StopOne(st, c), s, d)
    ensures Waits(st, s, d) && OnItsWay(StopOne(st, c).sessions[s]) == OnItsWay(st.sessions[s])
  {
    hide Keep;
    if st.clients[c].session.Some? {
      KeepMembers(st.sessions[st.clients[c].session.value].clients, {c});
    }
  }

  lemma StopSessionWaits(st: State, t: SessionId, resOk: set<ClientId>, s: SessionId, d: ClientId)
    requires t in st.sessions
    requires Waits(StopSession(st, t, resOk), s, d)
    ensures s != t && Waits(st, s, d) && StopSession(st, t, resOk).sessions[s] == st.sessions[s]
  {
    hide Keep;
  }

  lemma RespondAllWaits(st: State, t: SessionId, resOk: set<ClientId>, s: SessionId, d: ClientId)
    requires t in st.sessions
    requires Waits(RespondAll(st, t, resOk), s, d)
    ensures s != t && Waits(st, s, d) && RespondAll(st, t, resOk).sessions[s] == st.sessions[s]
  {
    hide Keep;
    KeepMembers(st.sessions[t].clients, Refused(st, t, resOk));
  }

  lemma FanOutKeepsWaiting(st: State, t: SessionId, f: FrameId, sendOk: set<ClientId>, d: ClientId)
    requires Linked(st) && t in st.sessions
    ensures FanOut(st, t, f, sendOk).clients.Keys == st.clients.Keys
    ensures d in st.clients && FanOut(st, t, f, sendOk).clients[d].status == OnInit ==> st.clients[d].status == OnInit
  {
    hide Detach, Takers;
  }

  lemma FanOutDetaches(st: State, t: SessionId, f: FrameId, sendOk: set<ClientId>)
    requires Linked(st) && t in st.sessions
    ensures FanOut(st, t, f, sendOk).sessions == st.sessions[t := Detach(st.sessions[t], Takers(st, t, sendOk, false))]
  {
    hide Detach, Takers;
  }

  lemma FanOutWaits(st: State, t: SessionId, f: FrameId, sendOk: set<ClientId>, s: SessionId, d: ClientId)
    requires Linked(st) && t in st.sessions
    requires Waits(FanOut(st, t, f, sendOk), s, d)
    ensures Waits(st, s, d) && OnItsWay(FanOut(st, t, f, sendOk).sessions[s]) == OnItsWay(st.sessions[s])
  {
    hide Keep, FanOut, Linked, Takers;
    FanOutKeepsWaiting(st, t, f, sendOk, d);
    FanOutDetaches(st, t, f, sendOk);
    KeepMembers(st.sessions[t].clients, Takers(st, t, sendOk, false));
  }

  lemma JoinWaits(st: State, c: ClientId, t: SessionId, ok: bool, s: SessionId, d: ClientId)
    requires c in st.clients && c in st.traces && t in st.sessions
    requires Waits(PreviewJoin(st, c, t, ok), s, d)
    ensures d != c && Waits(st, s, d) && OnItsWay(PreviewJoin(st, c, t, ok).sessions[s]) == OnItsWay(st.sessions[s])
  {
    hide Keep;
    KeepMembers([c] + st.sessions[t].clients, {c});
  }

  // ----- Callbacks -----

  lemma DvrReachedWaits(st: State, t: SessionId, ok: bool, resOk: set<ClientId>, s: SessionId, d: ClientId)
    requires t in st.sessions && Waits(DvrReached(st, t, ok, resOk), s, d)
    ensures Waits(st, s, d)
    ensures s == t ==> OnItsWay(DvrReached(st, t, ok, resOk).sessions[s])
    ensures s != t ==> DvrReached(st, t, ok, resOk).sessions[s] == st.sessions[s]
  {
    hide StopSession;
    if !ok {
      StopSessionWaits(SetSession(st, t, st.sessions[t].(connectPending := false)), t, resOk, s, d);
    }
  }

  lemma DvrAskedWaits(st: State, t: SessionId, ok: bool, readOk: bool, resOk: set<ClientId>, s: SessionId, d: ClientId)
    requires t in st.sessions && Waits(DvrAsked(st, t, ok, readOk, resOk), s, d)
    ensures s != t && Waits(st, s, d) && DvrAsked(st, t, ok, readOk, resOk).sessions[s] == st.sessions[s]
  {
    hide StopSession, Detach, Respond, Refused;
    var st1 := SetSession(st, t, st.sessions[t].(previewPending := false));
    if !ok {
      StopSessionWaits(st1, t, resOk, s, d);
    } else {
      var st2 := RespondAll(st1, t, resOk);
      var st3 := SetSession(st2, t, st2.sessions[t].(running := true, reading := readOk));
      if !readOk {
        StopSessionWaits(st3, t, resOk, s, d);
      }
      assert Waits(st2, s, d);
      RespondAllWaits(st1, t, resOk, s, d);
    }
  }

  lemma FrameEndedWaits(st: State, c: ClientId, f: FrameId, ok: bool, s: SessionId, d: ClientId)
    requires Linked(st) && c in st.clients && f in st.clients[c].pending
    requires Waits(FrameEnded(st, c, f, ok), s, d)
    ensures Waits(st, s, d) && OnItsWay(FrameEnded(st, c, f, ok).sessions[s]) == OnItsWay(st.sessions[s])
  {
    hide StopOne;
    if !ok {
      StopOneWaits(FrameWritten(st, c, f), c, s, d);
    }
  }

  lemma ErrorResponseWaits(st: State, c: ClientId, s: SessionId, d: ClientId)
    requires Linked(st) && c in st.clients && Waits(ErrorResponseSent(st, c), s, d)
    ensures Waits(st, s, d) && OnItsWay(ErrorResponseSent(st, c).sessions[s]) == OnItsWay(st.sessions[s])
  {
    hide StopOne;
    StopOneWaits(st.(clients := st.clients[c := st.clients[c].(errPending := false)]), c, s, d);
  }

  lemma PreviewWaits(st: State, e: Event, s: SessionId, d: ClientId)
    requires Inv(st) && Linked(st) && Enabled(st, e) && e.Preview? && AllExpected(st)
    requires Waits(Step(st, e), s, d)
    ensures OnItsWay(Step(st, e).sessions[s])
  {
    NotListedYet(st, e);
    hide Inv, PreviewJoin;
    if e.s in st.sessions {
      JoinWaits(st, e.c, e.s, e.answered, s, d);
    } else if s != e.s && d != e.c {
      assert Waits(st, s, d);
    }
  }

  /** The client of a preview command is in no list yet. */
  lemma NotListedYet(st: State, e: Event)
    requires Inv(st) && Enabled(st, e) && e.Preview?
    ensures forall s :: s in st.sessions ==> e.c !in st.sessions[s].clients
  {
    hide SessionsOk, FramesOk, MemoryOk, AccountOk, HistoryOk, Distinct;
    assert ClientOk(st.clients[e.c]);
  }

  lemma MemberIsClient(st: State, s: SessionId, d: ClientId)
    requires Inv(st) && s in st.sessions && d in st.sessions[s].clients
    ensures d in st.clients
  {
  }

  lemma ClientWaits(st: State, e: Event, s: SessionId, d: ClientId)
    requires Inv(st) && Linked(st) && Enabled(st, e) && AllExpected(st)
    requires e.Connect? || e.ReadError? || e.ResponseDone? || e.ErrorResponseDone? || e.FrameDone? || e.ClientClosed?
    requires Waits(Step(st, e), s, d)
    ensures OnItsWay(Step(st, e).sessions[s])
  {
    hide Inv, StopOne, FrameEnded, ErrorResponseSent, OnItsWay;
    match e
    case Connect(c, _) =>
      MemberIsClient(st, s, d);
      assert Waits(st, s, d);
    case ReadError(c) => StopOneWaits(st, c, s, d);
    case ResponseDone(c) => assert Waits(st, s, d);
    case ErrorResponseDone(c) => ErrorResponseWaits(st, c, s, d);
    case FrameDone(c, f, ok) => FrameEndedWaits(st, c, f, ok, s, d);
    case ClientClosed(c) => assert Waits(st, s, d);
  }

  lemma DvrWaits(st: State, e: Event, s: SessionId, d: ClientId)
    requires Linked(st) && Enabled(st, e) && AllExpected(st)
    requires e.DvrConnected? || e.DvrPreviewSent? || e.DvrFrame? || e.DvrReadError? || e.ExitTimer? || e.DvrClosed?
    requires Waits(Step(st, e), s, d)
    ensures OnItsWay(Step(st, e).sessions[s])
  {
    hide StopSession, DvrReached, DvrAsked, FanOut;
    match e
    case DvrConnected(t, ok, written, resOk) => DvrReachedWaits(st, t, ok && written, resOk, s, d);
    case DvrPreviewSent(t, ok, readOk, resOk) => DvrAskedWaits(st, t, ok, readOk, resOk, s, d);
    case DvrFrame(t, f, sendOk) => FanOutWaits(st, t, f, sendOk, s, d);
    case DvrReadError(t, resOk) =>
      StopSessionWaits(SetSession(st, t, st.sessions[t].(reading := false)), t, resOk, s, d);
      assert Waits(st, s, d);
    case ExitTimer(t) => assert Waits(st, s, d);
    case DvrClosed(t) => assert Waits(st, s, d);
  }

  lemma ExpectedStep(st: State, e: Event)
    requires Inv(st) && Linked(st) && Enabled(st, e) && AllExpected(st)
    ensures AllExpected(Step(st, e))
  {
    hide Inv, Step, Enabled, Linked, OnItsWay;
    forall s, c | Waits(Step(st, e), s, c)
      ensures OnItsWay(Step(st, e).sessions[s])
    {
      match e
      case Preview(_, _, _, _, _, _) => PreviewWaits(st, e, s, c);
      case DvrConnected(_, _, _, _) => DvrWaits(st, e, s, c);
      case DvrPreviewSent(_, _, _, _) => DvrWaits(st, e, s, c);
      case DvrFrame(_, _, _) => DvrWaits(st, e, s, c);
      case DvrReadError(_, _) => DvrWaits(st, e, s, c);
      case ExitTimer(_) => DvrWaits(st, e, s, c);
      case DvrClosed(_) => DvrWaits(st, e, s, c);
      case _ => ClientWaits(st, e, s, c);
    }
  }

  lemma {:induction false} ExpectedRun(st: State, es: seq<Event>)
    requires Inv(st) && AllExpected(st) && Runs(st, es)
    ensures AllExpected(After(st, es))
    decreases |es|
  {
    hide Inv, Step, Enabled, Linked, AllExpected;
    if es != [] {
      StepInv(st, es[0]);
      ExpectedStep(st, es[0]);
      ExpectedRun(Step(st, es[0]), es[1..]);
    }
  }

  /** Main result: in every run, a client that belongs to a session and has been sent no response
      can expect one: the session is still connecting, or its preview command is being written. */
  lemma NobodyWaitsInVain(es: seq<Event>, s: SessionId, c: ClientId)
    requires Runs(INITIAL, es) && Waits(After(INITIAL, es), s, c)
    ensures OnItsWay(After(INITIAL, es).sessions[s])
  {
    InitialInv();
    hide Runs, After, Inv;
    assert AllExpected(INITIAL);
    ExpectedRun(INITIAL, es);
  }

  /** And the callback it waits for answers it, or closes it. */
  lemma TheCallbackAnswers(st: State, s: SessionId, ok: bool, readOk: bool, resOk: set<ClientId>, c: ClientId)
    requires Linked(st) && Enabled(st, DvrPreviewSent(s, ok, readOk, resOk))
    ensures !Waits(Step(st, DvrPreviewSent(s, ok, readOk, resOk)), s, c)
  {
    hide DvrAsked, Linked;
    if Waits(Step(st, DvrPreviewSent(s, ok, readOk, resOk)), s, c) {
      DvrAskedWaits(st, s, ok, readOk, resOk, s, c);
      assert false;
    }
  }
}
