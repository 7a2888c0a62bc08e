/** Why no session is registered for a key while an earlier one with that key may still call
    delete_session: that call tests the key, and would find it registered for a session other than the
    one it then unlinks.  For this the condition is exact.  What such a call does to the size and to the
    list is `SessionRegistry.SessionManager.DeleteTwice`.
 */
module PreviewKeys {
  import opened CircularList
  import opened SessionRegistry
  import opened PreviewModel
  import opened PreviewInvariants
  import opened PreviewRuns
  import opened PreviewLoops

  /** The calls of delete_session that a callback makes, in order: `PreviewServer.Server.Handle` makes these
      and no other.  A preview command that cannot be written stops its session twice. */
  function DeleteCalls(st: State, e: Event): seq<SessionId> {
    match e
    case Preview(_, _, s, initOk, connectOk, _) => if s !in st.sessions && initOk && !connectOk then [s] else []
    case DvrConnected(s, ok, written, _) => if !ok then [s] else if !written then [s, s] else []
    case DvrPreviewSent(s, ok, readOk, _) => if ok && readOk then [] else [s]
    case DvrReadError(s, _) => [s]
    case ExitTimer(s) => if s in st.sessions && st.sessions[s].clientSize == 0 then [s] else []
    case _ => []
  }

  /** The callback calls delete_session for the session. */
  predicate Deletes(st: State, e: Event, t: SessionId) {
    t in DeleteCalls(st, e)
  }

  /** The key of a session; that of a new one is in the preview command. */
  function KeyAt(st: State, e: Event, t: SessionId): Option<SessionKey> {
    if t in st.sessions then Some(st.sessions[t].key) else if e.Preview? then Some(e.key) else None
  }

  /** Main result: in every state with the invariant, a callback that calls delete_session finds no
      other session under the key... */
  lemma DeletesOnlyItself(st: State, e: Event, t: SessionId)
    requires Inv(st) && Enabled(st, e) && Deletes(st, e, t)
    ensures forall u :: u in st.registry ==> u in st.sessions && (Some(st.sessions[u].key) == KeyAt(st, e, t) ==> u == t)
  {
    if t in st.sessions {
      OpenWhenTimed(st, t);
      InvOwnsKey(st, t);
    }
    hide ClientsOk, Membership, FramesOk, MemoryOk, AccountOk, HistoryOk, Distinct;
  }

  lemma OpenWhenTimed(st: State, t: SessionId)
    requires Inv(st) && t in st.sessions && (st.sessions[t].timer || st.sessions[t].reading
      || st.sessions[t].connectPending || st.sessions[t].previewPending)
    ensures !Quiet(st.sessions[t])
  {
    assert SessionOk(st.sessions[t], t in st.registry);
  }

  /** ...because a quiet session makes no such call until it is freed. */
  lemma QuietStaysQuiet(st: State, e: Event, t: SessionId)
    requires Inv(st) && Linked(st) && Enabled(st, e) && t in st.sessions && Quiet(st.sessions[t])
    ensures !Deletes(st, e, t)
    ensures t in Step(st, e).sessions ==> Quiet(Step(st, e).sessions[t])
  {
    QuietHasNoClient(st, t);
    hide Inv, StopOne, FanOut, Answer, ErrorResponseSent, FrameEnded, StopSession, DvrReached, DvrAsked, TimerFired;
    SessionFlags(st, e, t);
  }

  lemma QuietHasNoClient(st: State, t: SessionId)
    requires Inv(st) && t in st.sessions && Quiet(st.sessions[t])
    ensures st.sessions[t].clients == [] && !st.sessions[t].timer && !st.sessions[t].reading && t !in st.registry
  {
    assert SessionOk(st.sessions[t], t in st.registry);
  }

  /** What decides whether a session is quiet. */
  ghost predicate SameFlags(st: State, st': State, t: SessionId) {
    && t in st.sessions && t in st'.sessions
    && st'.sessions[t].closing == st.sessions[t].closing
    && st'.sessions[t].connectPending == st.sessions[t].connectPending
    && st'.sessions[t].previewPending == st.sessions[t].previewPending
  }

  lemma StopOneFlags(st: State, c: ClientId, t: SessionId)
    requires c in st.clients && (st.clients[c].session.Some? ==> st.clients[c].session.value in st.sessions)
    requires t in st.sessions
    ensures SameFlags(st, StopOne(st, c), t)
  {
    hide Keep;
  }

  lemma StopSessionFlags(st: State, s: SessionId, resOk: set<ClientId>, t: SessionId)
    requires s in st.sessions && t in st.sessions
    ensures SameFlags(st, StopSession(st, s, resOk), t)
  {
    hide Keep, StopMember;
  }

  lemma RespondAllFlags(st: State, s: SessionId, resOk: set<ClientId>, t: SessionId)
    requires s in st.sessions && t in st.sessions
    ensures SameFlags(st, RespondAll(st, s, resOk), t)
  {
    hide Keep, Respond;
  }

  lemma FanOutFlags(st: State, s: SessionId, f: FrameId, sendOk: set<ClientId>, t: SessionId)
    requires Linked(st) && s in st.sessions && t in st.sessions
    ensures SameFlags(st, FanOut(st, s, f, sendOk), t)
  {
    hide Keep, Stopped, Takers;
  }

  lemma JoinFlags(st: State, c: ClientId, s: SessionId, ok: bool, t: SessionId)
    requires c in st.clients && c in st.traces && s in st.sessions && t in st.sessions
    ensures SameFlags(st, PreviewJoin(st, c, s, ok), t)
  {
    hide Keep, Respond;
  }

  /** The callbacks of another session. */
  lemma DvrFlags(st: State, e: Event, t: SessionId)
    requires Linked(st) && Enabled(st, e) && t in st.sessions
    requires match e
      case DvrConnected(s, _, _, _) => s != t
      case DvrPreviewSent(s, _, _, _) => s != t
      case DvrReadError(s, _) => s != t
      case DvrFrame(_, _, _) => true
      case _ => false
    ensures SameFlags(st, Step(st, e), t)
  {
    hide StopSession, RespondAll, FanOut;
    match e
    case DvrConnected(s, ok, written, resOk) =>
      var sess := st.sessions[s].(connectPending := false, previewPending := (ok && written) || st.sessions[s].previewPending);
      StopSessionFlags(SetSession(st, s, sess), s, resOk, t);
    case DvrPreviewSent(s, ok, readOk, resOk) =>
      var st1 := SetSession(st, s, st.sessions[s].(previewPending := false));
      StopSessionFlags(st1, s, resOk, t);
      RespondAllFlags(st1, s, resOk, t);
      RespondAllFlags(st1, s, resOk, s);
      var st2 := RespondAll(st1, s, resOk);
      StopSessionFlags(SetSession(st2, s, st2.sessions[s].(running := true, reading := readOk)), s, resOk, t);
    case DvrReadError(s, resOk) =>
      StopSessionFlags(SetSession(st, s, st.sessions[s].(reading := false)), s, resOk, t);
    case DvrFrame(s, f, sendOk) => FanOutFlags(st, s, f, sendOk, t);
  }

  lemma ClientFlags(st: State, e: Event, t: SessionId)
    requires Linked(st) && Enabled(st, e) && t in st.sessions
    requires e.Connect? || e.Preview? || e.ReadError? || e.ResponseDone? || e.ErrorResponseDone? || e.FrameDone? || e.ClientClosed?
    ensures SameFlags(st, Step(st, e), t)
  {
    hide StopOne, PreviewJoin;
    match e
    case Preview(c, _, s, _, _, answered) =>
      if s in st.sessions {
        JoinFlags(st, c, s, answered, t);
      }
    case ReadError(c) => StopOneFlags(st, c, t);
    case ErrorResponseDone(c) => StopOneFlags(st.(clients := st.clients[c := st.clients[c].(errPending := false)]), c, t);
    case FrameDone(c, f, _) => StopOneFlags(FrameWritten(st, c, f), c, t);
    case _ =>
  }

  /** Only its own callbacks change the connection of a session. */
  lemma SessionFlags(st: State, e: Event, t: SessionId)
    requires Linked(st) && Enabled(st, e) && t in st.sessions && Quiet(st.sessions[t])
    requires !st.sessions[t].timer && !st.sessions[t].reading
    ensures t in Step(st, e).sessions ==> Quiet(Step(st, e).sessions[t])
  {
    hide StopOne, StopSession, RespondAll, FanOut, PreviewJoin, PreviewNew, Keep;
    match e
    case DvrConnected(_, _, _, _) => DvrFlags(st, e, t);
    case DvrPreviewSent(_, _, _, _) => DvrFlags(st, e, t);
    case DvrReadError(_, _) => DvrFlags(st, e, t);
    case DvrFrame(_, _, _) => DvrFlags(st, e, t);
    case ExitTimer(_) =>
    case DvrClosed(_) =>
    case _ => ClientFlags(st, e, t);
  }

  /** Main result: the condition is needed.  If a session `s` is registered for the key of a session
      `t` that is unregistered and not quiet, then at once some callback can come that calls
      delete_session for `t` while the key is registered for `s`: a stale delete. */
  lemma OtherwiseDeletesAnother(st: State, c: ClientId, key: SessionKey, s: SessionId, t: SessionId) returns (e: Event)
    requires Inv(st) && c in st.clients && c in st.traces && s !in st.sessions
    requires t in st.sessions && t !in st.registry && st.sessions[t].key == key && !Quiet(st.sessions[t])
    ensures DeletesAnother(PreviewNew(st, c, key, s, true, true), e, s, t, key)
  {
    IdleUnregistered(st, t);
    NewIsRegistered(st, c, key, s, t);
    hide Inv, PreviewNew, OwnsKey, Registered;
    e := NextDelete(PreviewNew(st, c, key, s, true, true), t);
  }

  /** The callback would call delete_session for `t` while the key is registered for `s`. */
  ghost predicate DeletesAnother(st: State, e: Event, s: SessionId, t: SessionId, key: SessionKey) {
    Enabled(st, e) && Deletes(st, e, t) && Registered(st, s, key) && t !in st.registry && !OwnsKey(st, t)
  }

  lemma NextDelete(st: State, t: SessionId) returns (e: Event)
    requires t in st.sessions && st.sessions[t].clientSize == 0 && !Quiet(st.sessions[t])
    requires st.sessions[t].timer || st.sessions[t].closing
    ensures Enabled(st, e) && Deletes(st, e, t)
  {
    var sess := st.sessions[t];
    e := if sess.timer then ExitTimer(t)
         else if sess.connectPending then DvrConnected(t, false, false, {})
         else DvrPreviewSent(t, false, false, {});
  }

  lemma IdleUnregistered(st: State, t: SessionId)
    requires Inv(st) && t in st.sessions && t !in st.registry
    ensures st.sessions[t].clientSize == 0 && (st.sessions[t].timer || st.sessions[t].closing)
  {
    assert SessionOk(st.sessions[t], false);
    SessionIsCounted(st, t);
  }

  lemma NewIsRegistered(st: State, c: ClientId, key: SessionKey, s: SessionId, t: SessionId)
    requires c in st.clients && c in st.traces && s !in st.sessions && t in st.sessions
    requires t !in st.registry && st.sessions[t].key == key
    ensures var st' := PreviewNew(st, c, key, s, true, true);
      && t in st'.sessions && st'.sessions[t] == st.sessions[t] && Registered(st', s, key)
      && t !in st'.registry && !OwnsKey(st', t)
  {
  }

  // ----- Such a run -----

  const KEY := SessionKey(1, 1, 0, 0)

  /** A client comes and goes before its DVR answers; the session goes to sleep and closes. */
  predicate IsStaleRun(es: seq<Event>) {
    && |es| == 5 && es[0] == Connect(1, true) && es[1] == Preview(1, KEY, 1, true, true, true)
    && es[2] == ReadError(1) && es[3] == ExitTimer(1) && es[4] == Connect(2, true)
  }

  /** Its first session at the end: closing, with the connect still to be cancelled. */
  const STALE := MediaSession(KEY, [], 0, false, false, true, false, false, true)

  function S1(): State {
    Connected(INITIAL, 1, true)
  }

  function S2(): (st: State)
    ensures 1 in st.clients && st.clients[1].session == Some(1) && 1 in st.sessions && st.clients.Keys == {1} == st.traces.Keys
    ensures st.clients[1].status == OnInit && st.clients[1].closes == 0
    ensures st.sessions == map[1 := NewSession(KEY, 1)] && st.registry == [1] && st.live == {ClientObj(1), SessionObj(1)}
  {
    PreviewNew(S1(), 1, KEY, 1, true, true)
  }

  function S3(): (st: State)
    ensures 1 in st.sessions && st.sessions.Keys == {1} && st.registry == [1] && st.traces.Keys == {1} == st.clients.Keys
    ensures st.sessions[1] == STALE.(timer := true, closing := false) && st.live == {ClientObj(1), SessionObj(1)}
  {
    KeepNone([1 as nat], {1});
    StopOne(S2(), 1)
  }

  function S4(): (st: State)
    ensures st.sessions == map[1 := STALE] && st.registry == []
    ensures st.traces.Keys == {1} == st.clients.Keys && st.live == {ClientObj(1), SessionObj(1)}
  {
    KeepNone([1 as nat], {1});
    TimerFired(S3(), 1)
  }

  lemma Step1()
    ensures Linked(INITIAL) && Enabled(INITIAL, Connect(1, true)) && Step(INITIAL, Connect(1, true)) == S1() && Inv(S1())
  {
    InitialInv();
    StepInv(INITIAL, Connect(1, true));
  }

  lemma Step2()
    requires Inv(S1())
    ensures var e := Preview(1, KEY, 1, true, true, true);
      Linked(S1()) && Enabled(S1(), e) && Step(S1(), e) == S2() && Inv(S2())
  {
    StepInv(S1(), Preview(1, KEY, 1, true, true, true));
    hide Inv;
  }

  lemma Step3()
    requires Inv(S2())
    ensures Linked(S2()) && Enabled(S2(), ReadError(1)) && Step(S2(), ReadError(1)) == S3() && Inv(S3())
  {
    hide Inv, S2;
    StepInv(S2(), ReadError(1));
  }

  lemma Step4()
    requires Inv(S3())
    ensures Linked(S3()) && Enabled(S3(), ExitTimer(1)) && Step(S3(), ExitTimer(1)) == S4() && Inv(S4())
  {
    hide Inv, S3;
    StepInv(S3(), ExitTimer(1));
  }

  lemma Step5()
    requires Inv(S4()) && S4().freed[ClientObj(2)] == 0
    ensures Linked(S4()) && Enabled(S4(), Connect(2, true)) && Inv(Step(S4(), Connect(2, true)))
    ensures Step(S4(), Connect(2, true)) == Connected(S4(), 2, true)
  {
    hide Inv, S4;
    StepInv(S4(), Connect(2, true));
  }

  lemma NothingFreed()
    ensures S4().freed == multiset{}
  {
  }

  /** Main result: a run leads to a session that is unregistered and closing with its connect still
      pending, and that was the only one, hence the first in the list; if a second client with the same
      key then starts a session, the cancelled connect of the first one makes a stale delete. */
  lemma StaleRunExists(es: seq<Event>) returns (st: State, e: Event)
    requires IsStaleRun(es)
    ensures Runs(INITIAL, es) && After(INITIAL, es) == st && Inv(st)
    ensures 2 in st.clients && 2 in st.traces && st.sessions == map[1 := STALE] && st.registry == []
    ensures DeletesAnother(PreviewNew(st, 2, KEY, 2, true, true), e, 2, 1, KEY)
  {
    st := StaleRunEnds(es);
    hide Inv, Runs, After, DeletesAnother, PreviewNew;
    e := OtherwiseDeletesAnother(st, 2, KEY, 2, 1);
  }

  lemma StaleRunEnds(es: seq<Event>) returns (st: State)
    requires IsStaleRun(es)
    ensures Runs(INITIAL, es) && After(INITIAL, es) == st && Inv(st)
    ensures 2 in st.clients && 2 in st.traces && st.sessions == map[1 := STALE] && st.registry == []
  {
    Step1();
    Step2();
    Step3();
    Step4();
    NothingFreed();
    Step5();
    hide Inv, Enabled, Linked, Step, S1, S2, S3, S4, Runs, After;
    st := Connected(S4(), 2, true);
    FiveEvents(INITIAL, S1(), S2(), S3(), S4(), es);
  }

  lemma FiveEvents(a: State, b: State, c: State, d: State, f: State, es: seq<Event>)
    requires |es| == 5
    requires Linked(a) && Enabled(a, es[0]) && b == Step(a, es[0])
    requires Linked(b) && Enabled(b, es[1]) && c == Step(b, es[1])
    requires Linked(c) && Enabled(c, es[2]) && d == Step(c, es[2])
    requires Linked(d) && Enabled(d, es[3]) && f == Step(d, es[3])
    requires Linked(f) && Enabled(f, es[4])
    ensures Runs(a, es) && After(a, es) == Step(f, es[4])
  {
    hide Enabled, Linked, Step;
    assert es == [es[0]] + ([es[1]] + ([es[2]] + ([es[3]] + [es[4]])));
    OneEvent(f, es[4]);
    Cons(d, es[3], [es[4]]);
    Cons(c, es[2], [es[3]] + [es[4]]);
    Cons(b, es[1], [es[2]] + ([es[3]] + [es[4]]));
    Cons(a, es[0], [es[1]] + ([es[2]] + ([es[3]] + [es[4]])));
  }

  lemma Cons(st: State, e: Event, es: seq<Event>)
    requires Linked(st) && Enabled(st, e) && Runs(Step(st, e), es)
    ensures Runs(st, [e] + es) && After(st, [e] + es) == After(Step(st, e), es)
  {
    hide Step, Enabled, Linked;
    assert ([e] + es)[1..] == es;
  }
}
