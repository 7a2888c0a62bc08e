/** How far the stopped status of a client lasts: the response callback, which sets the ready status
    without looking, ends it, and nothing else does.  What lasts in any case is that the client is closed. */
module PreviewStops {
  import opened CircularList
  import opened SessionRegistry
  import opened PreviewModel
  import opened PreviewInvariants
  import opened PreviewRuns
  import opened PreviewSafety
  import opened PreviewLoops
  import opened PreviewKeys

  // ----- A client without a session -----

  /** The callbacks of a client itself. */
  predicate Concerns(e: Event, c: ClientId) {
    match e
    case Connect(d, _) => d == c
    case Preview(d, _, _, _, _, _) => d == c
    case ReadError(d) => d == c
    case ResponseDone(d) => d == c
    case ErrorResponseDone(d) => d == c
    case FrameDone(d, _, _) => d == c
    case ClientClosed(d) => d == c
    case _ => false
  }

  ghost predicate Detached(st: State, c: ClientId) {
    c in st.clients && forall s :: s in st.sessions ==> c !in st.sessions[s].clients
  }

  ghost predicate Same(st: State, st': State, c: ClientId) {
    c in st.clients && c in st'.clients && st'.clients[c] == st.clients[c]
  }

  lemma StopOneSame(st: State, d: ClientId, c: ClientId)
    requires d in st.clients && (st.clients[d].session.Some? ==> st.clients[d].session.value in st.sessions)
    requires c in st.clients && c != d
    ensures Same(st, StopOne(st, d), c)
  {
    hide Detach;
  }

  lemma StopSessionSame(st: State, s: SessionId, resOk: set<ClientId>, c: ClientId)
    requires s in st.sessions && c in st.clients && c !in st.sessions[s].clients
    ensures Same(st, StopSession(st, s, resOk), c)
  {
    hide StopMember;
  }

  lemma RespondAllSame(st: State, s: SessionId, resOk: set<ClientId>, c: ClientId)
    requires s in st.sessions && c in st.clients && c !in st.sessions[s].clients
    ensures Same(st, RespondAll(st, s, resOk), c)
    ensures s in RespondAll(st, s, resOk).sessions && c !in RespondAll(st, s, resOk).sessions[s].clients
  {
    hide Respond, Keep;
    KeepMembers(st.sessions[s].clients, Refused(st, s, resOk));
  }

  lemma FanOutSame(st: State, s: SessionId, f: FrameId, sendOk: set<ClientId>, c: ClientId)
    requires Linked(st) && s in st.sessions && c in st.clients && c !in st.sessions[s].clients
    ensures Same(st, FanOut(st, s, f, sendOk), c)
  {
    hide Detach, Stopped;
  }

  lemma FrameEndedSame(st: State, d: ClientId, f: FrameId, ok: bool, c: ClientId)
    requires Linked(st) && Enabled(st, FrameDone(d, f, ok)) && c in st.clients && c != d
    ensures Same(st, FrameEnded(st, d, f, ok), c)
  {
    hide StopOne;
    StopOneSame(FrameWritten(st, d, f), d, c);
  }

  lemma DvrSame(st: State, e: Event, c: ClientId)
    requires Linked(st) && Enabled(st, e) && Detached(st, c)
    requires e.DvrConnected? || e.DvrPreviewSent? || e.DvrReadError? || e.DvrFrame?
    ensures Same(st, Step(st, e), c)
  {
    hide StopSession, RespondAll, FanOut;
    match e
    case DvrConnected(s, ok, written, resOk) =>
      var sess := st.sessions[s].(connectPending := false, previewPending := (ok && written) || st.sessions[s].previewPending);
      StopSessionSame(SetSession(st, s, sess), s, resOk, c);
    case DvrPreviewSent(s, ok, readOk, resOk) =>
      var st1 := SetSession(st, s, st.sessions[s].(previewPending := false));
      StopSessionSame(st1, s, resOk, c);
      RespondAllSame(st1, s, resOk, c);
      var st2 := RespondAll(st1, s, resOk);
      StopSessionSame(SetSession(st2, s, st2.sessions[s].(running := true, reading := readOk)), s, resOk, c);
    case DvrReadError(s, resOk) =>
      StopSessionSame(SetSession(st, s, st.sessions[s].(reading := false)), s, resOk, c);
    case DvrFrame(s, f, sendOk) => FanOutSame(st, s, f, sendOk, c);
  }

  /** A client that is in no session is changed by no callback but its own. */
  lemma OnlyItsOwn(st: State, e: Event, c: ClientId)
    requires Linked(st) && Enabled(st, e) && Detached(st, c) && !Concerns(e, c)
    ensures Same(st, Step(st, e), c)
  {
    hide StopOne, StopSession, RespondAll, FanOut, FrameEnded, DvrReached, DvrAsked, Keep;
    match e
    case DvrConnected(_, _, _, _) => DvrSame(st, e, c);
    case DvrPreviewSent(_, _, _, _) => DvrSame(st, e, c);
    case DvrReadError(_, _) => DvrSame(st, e, c);
    case DvrFrame(_, _, _) => DvrSame(st, e, c);
    case ReadError(d) => StopOneSame(st, d, c);
    case ErrorResponseDone(d) => StopOneSame(st.(clients := st.clients[d := st.clients[d].(errPending := false)]), d, c);
    case FrameDone(d, f, ok) => FrameEndedSame(st, d, f, ok, c);
    case _ =>
  }

  lemma ClosedIsDetached(st: State, c: ClientId)
    requires Inv(st) && c in st.clients && st.clients[c].closes > 0
    ensures Detached(st, c)
  {
    hide SessionsOk, FramesOk, MemoryOk, AccountOk, HistoryOk, Distinct;
    assert ClientOk(st.clients[c]);
  }

  // ----- Its own callbacks -----

  /** What the callbacks of a closed client still change: flags, and the status by a late response. */
  lemma OwnCallback(st: State, e: Event, c: ClientId)
    requires Linked(st) && Enabled(st, e) && Concerns(e, c)
    requires c in st.clients && c in st.traces && ClientOk(st.clients[c]) && st.clients[c].closes > 0
    ensures c in Step(st, e).clients ==>
      var k, k' := st.clients[c], Step(st, e).clients[c];
      && k'.closes == k.closes && (k'.resPending ==> k.resPending)
      && k'.status == if e == ResponseDone(c) then OnSendFrames else k.status
  {
  }

  /** Main result: a closed client stays closed, and its status changes by its response callback only;
      so a stopped client is stopped after a callback if and only if that was not the one. */
  lemma ClosedStep(st: State, e: Event, c: ClientId)
    requires Inv(st) && Linked(st) && Enabled(st, e) && c in st.clients && st.clients[c].closes > 0
    ensures c in Step(st, e).clients ==>
      var k, k' := st.clients[c], Step(st, e).clients[c];
      && k'.closes == k.closes && (k'.resPending ==> k.resPending)
      && k'.status == if e == ResponseDone(c) then OnSendFrames else k.status
  {
    assert ClientOk(st.clients[c]) && c in st.traces;
    if Concerns(e, c) {
      hide Inv, Enabled, Linked, Step, ClientOk;
      OwnCallback(st, e, c);
    } else {
      assert e != ResponseDone(c);
      hide Inv, Enabled, Linked, Step, ClientOk, Detached, Concerns;
      ClosedIsDetached(st, c);
      OnlyItsOwn(st, e, c);
    }
  }

  lemma StoppedIsClosed(st: State, c: ClientId)
    requires Inv(st) && c in st.clients && st.clients[c].status == OnStop
    ensures st.clients[c].closes == 1
  {
    assert ClientOk(st.clients[c]);
  }

  // ----- Over runs -----

  /** A closed client or the memory of one. */
  ghost predicate Over(st: State, c: ClientId) {
    c in st.traces && (c in st.clients ==> st.clients[c].closes > 0)
  }

  ghost predicate StopLasts(st: State, c: ClientId) {
    Over(st, c) && (c in st.clients ==> st.clients[c].status == OnStop && !st.clients[c].resPending)
  }

  lemma StopKeys(st: State, c: ClientId, s: SessionId, resOk: set<ClientId>)
    ensures c in st.clients && (st.clients[c].session.Some? ==> st.clients[c].session.value in st.sessions) ==>
      StopOne(st, c).clients.Keys == st.clients.Keys
    ensures s in st.sessions ==>
      && StopSession(st, s, resOk).clients.Keys == st.clients.Keys
      && RespondAll(st, s, resOk).clients.Keys == st.clients.Keys
      && s in RespondAll(st, s, resOk).sessions
  {
    hide Detach, StopMember, Respond, Refused, Keep;
  }

  lemma FanOutKeys(st: State, s: SessionId, f: FrameId, sendOk: set<ClientId>)
    requires Linked(st) && s in st.sessions
    ensures FanOut(st, s, f, sendOk).clients.Keys == st.clients.Keys
  {
    hide Detach, Takers;
  }

  lemma DvrKeys(st: State, e: Event)
    requires Linked(st) && Enabled(st, e)
    requires e.DvrConnected? || e.DvrPreviewSent? || e.DvrReadError? || e.DvrFrame?
    ensures Step(st, e).clients.Keys == st.clients.Keys
  {
    hide StopSession, RespondAll, FanOut, StopOne;
    match e
    case DvrConnected(s, ok, written, resOk) =>
      var sess := st.sessions[s].(connectPending := false, previewPending := (ok && written) || st.sessions[s].previewPending);
      StopKeys(SetSession(st, s, sess), 0, s, resOk);
    case DvrPreviewSent(s, ok, readOk, resOk) =>
      var st1 := SetSession(st, s, st.sessions[s].(previewPending := false));
      StopKeys(st1, 0, s, resOk);
      var st2 := RespondAll(st1, s, resOk);
      StopKeys(SetSession(st2, s, st2.sessions[s].(running := true, reading := readOk)), 0, s, resOk);
    case DvrReadError(s, resOk) =>
      StopKeys(SetSession(st, s, st.sessions[s].(reading := false)), 0, s, resOk);
    case DvrFrame(s, f, sendOk) => FanOutKeys(st, s, f, sendOk);
  }

  /** An identifier that was given out is not given out again. */
  lemma GoneForGood(st: State, e: Event, c: ClientId)
    requires Linked(st) && Enabled(st, e) && c in st.traces && c !in st.clients
    ensures c !in Step(st, e).clients
  {
    hide StopOne, StopSession, RespondAll, FanOut, Detach;
    match e
    case DvrConnected(_, _, _, _) => DvrKeys(st, e);
    case DvrPreviewSent(_, _, _, _) => DvrKeys(st, e);
    case DvrReadError(_, _) => DvrKeys(st, e);
    case DvrFrame(_, _, _) => DvrKeys(st, e);
    case ReadError(d) => StopKeys(st, d, 0, {});
    case ErrorResponseDone(d) => StopKeys(st.(clients := st.clients[d := st.clients[d].(errPending := false)]), d, 0, {});
    case FrameDone(d, f, ok) => StopKeys(FrameWritten(st, d, f), d, 0, {});
    case _ =>
  }

  lemma TraceStays(st: State, e: Event, c: ClientId)
    requires Inv(st) && Linked(st) && Enabled(st, e) && c in st.traces
    ensures c in Step(st, e).traces
  {
    assert c in st.clients ==> ClientOk(st.clients[c]) && Follows(st.clients[c], st.traces[c], st.received);
    hide Inv, Enabled, Linked, Step, ClientOk, Follows;
    StartStep(st, e, c);
  }

  lemma OverStep(st: State, e: Event, c: ClientId)
    requires Inv(st) && Linked(st) && Enabled(st, e) && Over(st, c)
    ensures Over(Step(st, e), c)
    ensures StopLasts(st, c) ==> StopLasts(Step(st, e), c)
  {
    TraceStays(st, e, c);
    assert e == ResponseDone(c) ==> c in st.clients && st.clients[c].resPending;
    hide Inv, Enabled, Linked, Step;
    if c in st.clients {
      ClosedStep(st, e, c);
    } else {
      GoneForGood(st, e, c);
    }
  }

  lemma {:induction false} OverRun(st: State, es: seq<Event>, c: ClientId)
    requires Inv(st) && Runs(st, es) && Over(st, c)
    ensures Over(After(st, es), c)
    ensures StopLasts(st, c) ==> StopLasts(After(st, es), c)
    decreases |es|
  {
    hide Inv, Enabled, Linked, Step, Over, StopLasts;
    if es != [] {
      OverStep(st, es[0], c);
      StepInv(st, es[0]);
      OverRun(Step(st, es[0]), es[1..], c);
    }
  }

  /** The client is stopped whenever it is still there. */
  ghost predicate StoppedAfter(st: State, es: seq<Event>, c: ClientId)
    requires Runs(st, es)
  {
    c in After(st, es).clients ==> After(st, es).clients[c].status == OnStop
  }

  /** Main result: the stop of a client is final, whatever happens, if and only if no preview response
      to it is pending. */
  lemma StopIsFinal(st: State, c: ClientId)
    requires Inv(st) && Linked(st) && c in st.clients && st.clients[c].status == OnStop
    ensures (forall es :: Runs(st, es) ==> StoppedAfter(st, es, c)) <==> !st.clients[c].resPending
  {
    StoppedIsClosed(st, c);
    assert Over(st, c);
    hide Inv, Linked, Step, Runs, After, Over;
    if st.clients[c].resPending {
      OneEvent(st, ResponseDone(c));
      LateResponse(st, c);
      StillThere(st, c);
      assert !StoppedAfter(st, [ResponseDone(c)], c);
    } else {
      forall es | Runs(st, es)
        ensures StoppedAfter(st, es, c)
      {
        OverRun(st, es, c);
      }
    }
  }

  lemma StillThere(st: State, c: ClientId)
    requires Linked(st) && Enabled(st, ResponseDone(c))
    ensures c in Step(st, ResponseDone(c)).clients
  {
  }

  // ----- Silence -----

  lemma NothingToTheGone(st: State, e: Event, c: ClientId)
    requires Linked(st) && Enabled(st, e) && c !in st.clients
    ensures SentNow(st, e, c) == []
  {
    hide FanOut;
    if e.DvrFrame? {
      FanOutKeys(st, e.s, e.f, e.sendOk);
    }
  }

  /** Main result: no frame is handed to the socket of a client in any run after it was closed. */
  lemma {:induction false} ClosedIsSilentForGood(st: State, es: seq<Event>, c: ClientId)
    requires Inv(st) && Runs(st, es) && Over(st, c)
    ensures Sent(st, es, c) == []
    decreases |es|
  {
    hide Inv, Enabled, Linked, Step, SentNow;
    if es != [] {
      if c in st.clients {
        ClosedIsSilent(st, es[0], c);
      } else {
        NothingToTheGone(st, es[0], c);
      }
      OverStep(st, es[0], c);
      StepInv(st, es[0]);
      hide Over;
      ClosedIsSilentForGood(Step(st, es[0]), es[1..], c);
    }
  }

  // ----- A run in which a stop is undone -----

  /** A client is answered and its connection breaks before the answer has been written. */
  predicate IsLateRun(es: seq<Event>) {
    && |es| == 5 && es[0] == Connect(1, true) && es[1] == Preview(1, KEY, 1, true, true, true)
    && es[2] == DvrConnected(1, true, true, {}) && es[3] == DvrPreviewSent(1, true, true, {1})
    && es[4] == ReadError(1)
  }

  const ANSWERED := Client(OnSendPreviewRes, Some(1), 0, true, true, false, {})
  const RUNNING := MediaSession(KEY, [1], 1, true, false, false, false, true, false)
  const LATE := Client(OnStop, None, 1, true, true, false, {})

  lemma FirstClient()
    ensures S2().clients == map[1 := Client(OnInit, Some(1), 0, true, false, false, {})]
  {
  }

  function T3(): (st: State)
    ensures st.sessions == map[1 := NewSession(KEY, 1).(connectPending := false, previewPending := true)]
    ensures st.clients == S2().clients && st.traces == S2().traces && st.registry == [1] && st.live == S2().live
  {
    DvrReached(S2(), 1, true, {})
  }

  lemma AllAnswered(st: State, k: Client)
    requires st.clients == map[1 := k] && k.status == OnInit
    requires 1 in st.sessions && st.sessions[1].clients == [1] && st.sessions[1].clientSize == 1
    ensures RespondAll(st, 1, {1}).clients == map[1 := Respond(k, true)]
    ensures RespondAll(st, 1, {1}).sessions == st.sessions
  {
    hide Respond, Refused, Keep, Detach;
    NobodyRefused(st);
    DetachNone(st.sessions[1]);
  }

  lemma NobodyRefused(st: State)
    requires 1 in st.sessions && st.sessions[1].clients == [1]
    ensures Refused(st, 1, {1}) == {}
  {
  }

  function T4(): (st: State)
    ensures st.sessions == map[1 := RUNNING] && st.clients == map[1 := ANSWERED]
    ensures st.traces == S2().traces && st.registry == [1]
  {
    FirstClient();
    AllAnswered(SetSession(T3(), 1, T3().sessions[1].(previewPending := false)), T3().clients[1]);
    DvrAsked(T3(), 1, true, true, {1})
  }

  function T5(): (st: State)
    ensures st.clients == map[1 := LATE] && st.traces == S2().traces
  {
    StopOne(T4(), 1)
  }

  lemma Late3()
    requires Inv(S2())
    ensures var e := DvrConnected(1, true, true, {});
      Linked(S2()) && Enabled(S2(), e) && Step(S2(), e) == T3() && Inv(T3())
  {
    hide Inv, S2;
    StepInv(S2(), DvrConnected(1, true, true, {}));
  }

  lemma Late4()
    requires Inv(T3())
    ensures var e := DvrPreviewSent(1, true, true, {1});
      Linked(T3()) && Enabled(T3(), e) && Step(T3(), e) == T4() && Inv(T4())
  {
    hide Inv, T3;
    StepInv(T3(), DvrPreviewSent(1, true, true, {1}));
  }

  lemma Late5()
    requires Inv(T4())
    ensures Linked(T4()) && Enabled(T4(), ReadError(1)) && Step(T4(), ReadError(1)) == T5() && Inv(T5())
  {
    hide Inv, T4;
    StepInv(T4(), ReadError(1));
  }

  /** Main result: such a run exists from the empty server, and ends with a client that is stopped and
      closed and whose next callback makes it ready for frames again. */
  lemma StopIsUndone(es: seq<Event>) returns (st: State)
    requires IsLateRun(es)
    ensures Runs(INITIAL, es) && After(INITIAL, es) == st && Inv(st)
    ensures st.clients == map[1 := LATE]
    ensures Linked(st) && Enabled(st, ResponseDone(1))
      && 1 in Step(st, ResponseDone(1)).clients && Step(st, ResponseDone(1)).clients[1].status == OnSendFrames
  {
    Step1();
    Step2();
    Late3();
    Late4();
    Late5();
    st := T5();
    FiveEvents(INITIAL, S1(), S2(), T3(), T4(), es);
    LateAnswer(st);
  }

  lemma LateAnswer(st: State)
    requires Inv(st) && st.clients == map[1 := LATE]
    ensures Linked(st) && Enabled(st, ResponseDone(1))
      && 1 in Step(st, ResponseDone(1)).clients && Step(st, ResponseDone(1)).clients[1].status == OnSendFrames
  {
    StepInv(st, ResponseDone(1));
  }
}
