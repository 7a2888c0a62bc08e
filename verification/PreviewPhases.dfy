/** The life of a session and of a client over whole runs: a registered session is connecting, asking or
    streaming, a failure ends it for good, and what ends a client ends it for good. */
module PreviewPhases {
  import opened CircularList
  import opened SessionRegistry
  import opened PreviewModel
  import opened PreviewInvariants
  import opened PreviewRuns
  import opened PreviewSafety
  import opened PreviewLoops
  import opened PreviewStops
  import opened PreviewEffects

  // ----- Phases of a session -----

  datatype Phase = Connecting | Asking | Streaming | Ended

  function PhaseOf(sess: MediaSession, registered: bool): Phase {
    if !registered then Ended
    else if sess.connectPending then Connecting
    else if sess.previewPending then Asking
    else Streaming
  }

  /** A registered session waits for its connect, or for its preview command to be written, or it reads;
      no other session reads, and what is pending for another session is about to be cancelled. */
  predicate PhaseOk(sess: MediaSession, registered: bool) {
    && (registered ==> !(sess.connectPending && sess.previewPending))
    && (!registered && (sess.connectPending || sess.previewPending) ==> sess.closing)
    && (sess.reading <==> PhaseOf(sess, registered) == Streaming)
  }

  ghost predicate Phases(st: State) {
    forall s :: s in st.sessions ==> PhaseOk(st.sessions[s], s in st.registry)
  }

  /** The phases as they follow each other; `idle` tells that the session has no client. */
  function NextPhase(p: Phase, s: SessionId, e: Event, idle: bool): Phase {
    match e
    case DvrConnected(t, ok, written, _) => if t != s || p == Ended then p else if ok && written then Asking else Ended
    case DvrPreviewSent(t, ok, readOk, _) => if t != s || p == Ended then p else if ok && readOk then Streaming else Ended
    case DvrReadError(t, _) => if t == s then Ended else p
    case ExitTimer(t) => if t == s && idle then Ended else p
    case _ => p
  }

  // ----- The registry -----

  predicate Starts(st: State, e: Event) {
    e.Preview? && e.s !in st.sessions && e.initOk && e.connectOk
  }

  lemma StopRegistry(st: State, c: ClientId, s: SessionId, resOk: set<ClientId>)
    ensures c in st.clients && (st.clients[c].session.Some? ==> st.clients[c].session.value in st.sessions) ==>
      StopOne(st, c).registry == st.registry
    ensures s in st.sessions ==> StopSession(st, s, resOk).registry == Keep(st.registry, {s})
    ensures s in st.sessions ==> s in RespondAll(st, s, resOk).sessions && RespondAll(st, s, resOk).registry == st.registry
  {
    hide Detach, StopMember, Respond, Refused, Keep;
  }

  lemma DvrRegistry(st: State, e: Event)
    requires Linked(st) && Enabled(st, e)
    requires e.DvrConnected? || e.DvrPreviewSent? || e.DvrReadError? || e.DvrFrame?
    ensures Step(st, e).registry == if EndsSession(e, e.s) then Keep(st.registry, {e.s}) else st.registry
  {
    hide StopSession, RespondAll, Keep, Detach, Takers;
    match e
    case DvrConnected(s, ok, written, resOk) =>
      var sess := st.sessions[s].(connectPending := false, previewPending := (ok && written) || st.sessions[s].previewPending);
      StopRegistry(SetSession(st, s, sess), 0, s, resOk);
    case DvrPreviewSent(s, ok, readOk, resOk) =>
      var st1 := SetSession(st, s, st.sessions[s].(previewPending := false));
      StopRegistry(st1, 0, s, resOk);
      var st2 := RespondAll(st1, s, resOk);
      StopRegistry(SetSession(st2, s, st2.sessions[s].(running := true, reading := readOk)), 0, s, resOk);
    case DvrReadError(s, resOk) =>
      StopRegistry(SetSession(st, s, st.sessions[s].(reading := false)), 0, s, resOk);
    case DvrFrame(_, _, _) =>
  }

  lemma ClientRegistry(st: State, e: Event)
    requires Linked(st) && Enabled(st, e)
    requires !(e.DvrConnected? || e.DvrPreviewSent? || e.DvrReadError? || e.DvrFrame?)
    ensures Step(st, e).registry ==
      if Starts(st, e) then [e.s] + st.registry
      else if e.ExitTimer? && st.sessions[e.s].clientSize == 0 then Keep(st.registry, {e.s})
      else st.registry
  {
    hide StopOne, Keep, Detach, FrameObjects, Dropped, Respond;
    match e
    case ReadError(d) => StopRegistry(st, d, 0, {});
    case ErrorResponseDone(d) => StopRegistry(st.(clients := st.clients[d := st.clients[d].(errPending := false)]), d, 0, {});
    case FrameDone(d, f, ok) =>
      WrittenRegistry(st, d, f);
      StopRegistry(FrameWritten(st, d, f), d, 0, {});
    case _ =>
  }

  lemma WrittenRegistry(st: State, d: ClientId, f: FrameId)
    requires Linked(st) && d in st.clients && f in st.clients[d].pending
    ensures FrameWritten(st, d, f).registry == st.registry && FrameWritten(st, d, f).sessions == st.sessions
    ensures d in FrameWritten(st, d, f).clients && FrameWritten(st, d, f).clients[d].session == st.clients[d].session
  {
    hide FrameObjects;
  }

  lemma DvrRegistryEffect(st: State, e: Event, s: SessionId)
    requires Linked(st) && Enabled(st, e)
    requires e.DvrConnected? || e.DvrPreviewSent? || e.DvrReadError? || e.DvrFrame?
    ensures s in Step(st, e).registry <==> s in st.registry && !EndsSession(e, s)
  {
    DvrRegistry(st, e);
    hide Linked, Step, Enabled;
    DvrMembers(st.registry, Step(st, e).registry, e, s);
    hide Keep;
  }

  lemma OwnRegistryEffect(st: State, e: Event, s: SessionId)
    requires Linked(st) && Enabled(st, e) && (e.ExitTimer? ==> ListKnown(st, e.s))
    requires !(e.DvrConnected? || e.DvrPreviewSent? || e.DvrReadError? || e.DvrFrame?)
    ensures s in Step(st, e).registry <==>
      (Starts(st, e) && s == e.s) || (s in st.registry && !(e == ExitTimer(s) && st.sessions[s].clients == []))
  {
    ClientRegistry(st, e);
    hide Linked, Step, Enabled;
    if e.ExitTimer? {
      TimerMembers(st.registry, Step(st, e).registry, st.sessions[e.s], e.s, s);
    }
    hide Keep;
  }

  ghost predicate RegistryKnown(st: State, e: Event) {
    (forall s :: s in st.registry ==> s in st.sessions) && (e.ExitTimer? ==> ListKnown(st, e.s))
  }

  lemma InvRegistryKnown(st: State, e: Event)
    requires Inv(st) && Enabled(st, e)
    ensures RegistryKnown(st, e)
  {
    if e.ExitTimer? {
      InvListKnown(st, e.s);
    }
    hide ListKnown;
  }

  lemma KnownRegistryEffect(st: State, e: Event, s: SessionId)
    requires Linked(st) && Enabled(st, e) && RegistryKnown(st, e)
    ensures s in Step(st, e).registry <==>
      (Starts(st, e) && s == e.s) || (s in st.registry && s in st.sessions && !Unregisters(st.sessions[s], s, e))
  {
    assert s in st.registry ==> s in st.sessions;
    hide Linked, Step, Enabled, ListKnown;
    if e.DvrConnected? || e.DvrPreviewSent? || e.DvrReadError? || e.DvrFrame? {
      DvrRegistryEffect(st, e, s);
    } else {
      OwnRegistryEffect(st, e, s);
    }
  }

  /** Main result: the registry loses exactly the session that fails or, being idle, times out, and gets
      exactly the one that starts. */
  lemma RegistryEffect(st: State, e: Event, s: SessionId)
    requires Inv(st) && Linked(st) && Enabled(st, e)
    ensures s in Step(st, e).registry <==>
      (Starts(st, e) && s == e.s) || (s in st.registry && s in st.sessions && !Unregisters(st.sessions[s], s, e))
  {
    InvRegistryKnown(st, e);
    hide *;
    KnownRegistryEffect(st, e, s);
  }

  lemma DvrMembers(registry: seq<SessionId>, registry': seq<SessionId>, e: Event, s: SessionId)
    requires e.DvrConnected? || e.DvrPreviewSent? || e.DvrReadError? || e.DvrFrame?
    requires registry' == if EndsSession(e, e.s) then Keep(registry, {e.s}) else registry
    ensures s in registry' <==> s in registry && !EndsSession(e, s)
  {
    KeepMembers(registry, {e.s});
    hide Keep;
  }

  lemma TimerMembers(registry: seq<SessionId>, registry': seq<SessionId>, sess: MediaSession, t: SessionId, s: SessionId)
    requires sess.clientSize == |sess.clients|
    requires registry' == if sess.clientSize == 0 then Keep(registry, {t}) else registry
    ensures s in registry' <==> s in registry && !(s == t && sess.clients == [])
  {
    KeepMembers(registry, {t});
    hide Keep;
  }

  /** A session that is new is the one that starts, with its first client. */
  lemma NewSessionIs(st: State, e: Event, s: SessionId)
    requires Linked(st) && Enabled(st, e) && s !in st.sessions && s in Step(st, e).sessions
    ensures Starts(st, e) && s == e.s && Step(st, e).sessions[s] == NewSession(e.key, e.c)
    ensures s !in st.received
  {
    if e.DvrConnected? || e.DvrPreviewSent? || e.DvrReadError? || e.DvrFrame? {
      SessionKeysDvr(st, e);
      hide Step, Linked, Enabled;
    } else if !e.Preview? {
      OwnSessionKeys(st, e);
      hide Step, Linked, Enabled;
    } else {
      hide Respond, Detach, Linked;
    }
  }

  lemma OwnSessionKeys(st: State, e: Event)
    requires Linked(st) && Enabled(st, e) && !e.Preview?
    requires !(e.DvrConnected? || e.DvrPreviewSent? || e.DvrReadError? || e.DvrFrame?)
    ensures Step(st, e).sessions.Keys <= st.sessions.Keys
  {
    hide StopOne, Keep, FrameObjects;
    match e
    case ReadError(d) => StopOneSessionKeys(st, d);
    case ErrorResponseDone(d) => StopOneSessionKeys(st.(clients := st.clients[d := st.clients[d].(errPending := false)]), d);
    case FrameDone(d, f, ok) =>
      WrittenRegistry(st, d, f);
      StopOneSessionKeys(FrameWritten(st, d, f), d);
    case _ =>
  }

  lemma StopOneSessionKeys(st: State, c: ClientId)
    requires c in st.clients && (st.clients[c].session.Some? ==> st.clients[c].session.value in st.sessions)
    ensures StopOne(st, c).sessions.Keys == st.sessions.Keys
  {
    hide Detach;
  }

  lemma SessionKeysDvr(st: State, e: Event)
    requires Linked(st) && Enabled(st, e)
    requires e.DvrConnected? || e.DvrPreviewSent? || e.DvrReadError? || e.DvrFrame?
    ensures Step(st, e).sessions.Keys == st.sessions.Keys
  {
    hide StopSession, RespondAll, FanOut;
    match e
    case DvrConnected(s, ok, written, resOk) =>
      StopSessionNext(st, s, st.sessions[s].(connectPending := false, previewPending := (ok && written) || st.sessions[s].previewPending), resOk, s);
    case DvrPreviewSent(s, ok, readOk, resOk) =>
      var sess := st.sessions[s].(previewPending := false);
      StopSessionNext(st, s, sess, resOk, s);
      RespondAllNext(st, s, sess, resOk, s);
      var st2 := RespondAll(SetSession(st, s, sess), s, resOk);
      StopSessionNext(st2, s, st2.sessions[s].(running := true, reading := readOk), resOk, s);
    case DvrReadError(s, resOk) => StopSessionNext(st, s, st.sessions[s].(reading := false), resOk, s);
    case DvrFrame(s, f, sendOk) => FanOutSessionsAre(st, s, f, sendOk);
  }

  // ----- Phases over steps and runs -----

  /** Main result: the phase of every session follows from its phase and the callback. */
  lemma PhaseStep(st: State, e: Event, s: SessionId)
    requires Inv(st) && Linked(st) && Enabled(st, e) && s in st.sessions && PhaseOk(st.sessions[s], s in st.registry)
    requires s in Step(st, e).sessions
    ensures PhaseOk(Step(st, e).sessions[s], s in Step(st, e).registry)
    ensures PhaseOf(Step(st, e).sessions[s], s in Step(st, e).registry)
         == NextPhase(PhaseOf(st.sessions[s], s in st.registry), s, e, st.sessions[s].clients == [])
  {
    SessionEffect(st, e, s);
    RegistryEffect(st, e, s);
    EnabledPhase(st, e, s);
    hide Inv, Linked, Enabled, Step, Leavers;
    NextRecord(st.sessions[s], s in st.registry, s, e, Leavers(st, e));
    hide SessionNext, PhaseOk, PhaseOf, NextPhase, Unregisters;
  }

  lemma NextRecord(sess: MediaSession, registered: bool, s: SessionId, e: Event, left: set<ClientId>)
    requires PhaseOk(sess, registered)
    requires e.DvrConnected? && e.s == s ==> sess.connectPending && (e.ok ==> !sess.closing)
    requires e.DvrPreviewSent? && e.s == s ==> sess.previewPending && (e.ok && e.readOk ==> !sess.closing)
    requires e.DvrReadError? && e.s == s ==> sess.reading
    ensures var sess', registered' := SessionNext(sess, s, e, left), registered && !Unregisters(sess, s, e);
      PhaseOk(sess', registered') && PhaseOf(sess', registered') == NextPhase(PhaseOf(sess, registered), s, e, sess.clients == [])
  {
    hide Keep;
  }

  /** What a callback of a session says about it. */
  lemma EnabledPhase(st: State, e: Event, s: SessionId)
    requires Inv(st) && Enabled(st, e) && s in st.sessions
    ensures e.DvrConnected? && e.s == s ==> st.sessions[s].connectPending
    ensures e.DvrPreviewSent? && e.s == s ==> st.sessions[s].previewPending
    ensures e.DvrReadError? && e.s == s ==> st.sessions[s].reading
    ensures e.DvrConnected? && e.s == s && e.ok ==> !st.sessions[s].closing
    ensures e.DvrPreviewSent? && e.s == s && e.ok && e.readOk ==> !st.sessions[s].closing
  {
    hide Inv;
  }

  /** Main result: in every run a session is registered exactly as long as it connects, asks or streams,
      one at a time, and it reads exactly while it streams. */
  lemma PhasesStep(st: State, e: Event)
    requires Inv(st) && Linked(st) && Enabled(st, e) && Phases(st)
    ensures Phases(Step(st, e))
  {
    hide Inv, Linked, Enabled, Step, PhaseOk;
    forall s | s in Step(st, e).sessions
      ensures PhaseOk(Step(st, e).sessions[s], s in Step(st, e).registry)
    {
      if s in st.sessions {
        PhaseStep(st, e, s);
      } else {
        NewSessionIs(st, e, s);
        RegistryEffect(st, e, s);
        NewIsConnecting(e.key, e.c);
      }
    }
  }

  lemma NewIsConnecting(key: SessionKey, c: ClientId)
    ensures PhaseOk(NewSession(key, c), true) && PhaseOf(NewSession(key, c), true) == Connecting
  {
  }

  lemma {:induction false} PhasesRun(st: State, es: seq<Event>)
    requires Inv(st) && Phases(st) && Runs(st, es)
    ensures Phases(After(st, es))
    decreases |es|
  {
    hide Inv, Linked, Enabled, Step, Phases;
    if es != [] {
      PhasesStep(st, es[0]);
      StepInv(st, es[0]);
      PhasesRun(Step(st, es[0]), es[1..]);
    }
  }

  /** Main result: in every run a registered session is connecting, or its preview command is being
      written, or it reads, and never two of these; no other session reads. */
  lemma EveryPhase(es: seq<Event>, s: SessionId)
    requires Runs(INITIAL, es) && s in After(INITIAL, es).sessions
    ensures var st := After(INITIAL, es);
      var sess, registered := st.sessions[s], s in st.registry;
      && (registered ==> sess.connectPending || sess.previewPending || sess.reading)
      && (registered ==> !(sess.connectPending && sess.previewPending))
      && (sess.reading ==> registered && !sess.connectPending && !sess.previewPending)
  {
    InitialInv();
    assert Phases(INITIAL);
    hide Runs, After, Inv;
    PhasesRun(INITIAL, es);
  }

  // ----- The end of a session is final -----

  /** A session that was registered once and is no longer. */
  ghost predicate Past(st: State, s: SessionId) {
    s in st.received && s !in st.registry
  }

  lemma ReceivedStays(st: State, e: Event, s: SessionId)
    requires Linked(st) && Enabled(st, e) && s in st.received
    ensures s in Step(st, e).received
  {
    hide StopOne, StopSession, Answer, ErrorResponseSent, FrameEnded, DvrReached, DvrAsked, TimerFired, Keep, Detach, Takers, FrameObjects;
  }

  lemma PastStep(st: State, e: Event, s: SessionId)
    requires Inv(st) && Linked(st) && Enabled(st, e) && Phases(st) && Past(st, s)
    ensures Past(Step(st, e), s) && !(e.DvrFrame? && e.s == s)
  {
    ReceivedStays(st, e, s);
    assert s in st.sessions ==> PhaseOk(st.sessions[s], false) && !st.sessions[s].reading;
    assert !(e.DvrFrame? && e.s == s);
    assert Starts(st, e) ==> e.s !in st.received;
    hide Inv, Linked, Enabled, Step, Phases;
    RegistryEffect(st, e, s);
  }

  lemma PastIsEmpty(st: State, s: SessionId)
    requires Inv(st) && s !in st.registry && s in st.sessions
    ensures st.sessions[s].clients == []
  {
    assert SessionOk(st.sessions[s], false);
  }

  /** Main result: a session that has left the registry never comes back; it has no client, and no frame
      is received for it. */
  lemma {:induction false} PastForGood(st: State, es: seq<Event>, s: SessionId)
    requires Inv(st) && Phases(st) && Runs(st, es) && Past(st, s)
    ensures Past(After(st, es), s) && Stream(es, s) == []
    ensures s in After(st, es).sessions ==> After(st, es).sessions[s].clients == []
    decreases |es|
  {
    assert s !in st.registry;
    hide Inv, Linked, Enabled, Step, Phases, Past;
    if es == [] {
      if s in st.sessions {
        PastIsEmpty(st, s);
      }
    } else {
      PastStep(st, es[0], s);
      PhasesStep(st, es[0]);
      StepInv(st, es[0]);
      PastForGood(Step(st, es[0]), es[1..], s);
    }
  }
}
