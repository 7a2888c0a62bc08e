/** What the failures of the preview protocol lead to, and when a client has come to its end. */
module PreviewEnds {
  import opened CircularList
  import opened SessionRegistry
  import opened PreviewModel
  import opened PreviewInvariants
  import opened PreviewRuns
  import opened PreviewSafety
  import opened PreviewLoops
  import opened PreviewStops
  import opened PreviewEffects
  import opened PreviewPhases

  /** The client is stopped, closed once, without a session and in no list. */
  ghost predicate HasEnded(st: State, c: ClientId) {
    && c in st.clients && st.clients[c].status == OnStop && st.clients[c].closes == 1 && st.clients[c].session.None?
    && forall s :: s in st.sessions ==> c !in st.sessions[s].clients
  }

  /** A client that a callback ends has ended after it. */
  lemma EndedAfter(st: State, e: Event, c: ClientId)
    requires Inv(st) && Linked(st) && Enabled(st, e) && c in st.clients && Ends(st.clients[c], c, e, Joins(st, e))
    ensures HasEnded(Step(st, e), c)
  {
    ClientEffect(st, e, c);
    StepInv(st, e);
    assert e != ClientClosed(c);
    hide Inv, Linked, Enabled, Step;
    ClosedIsDetached(Step(st, e), c);
  }

  // ----- Failing writes -----

  /** Main result: a frame write that fails ends the client... */
  lemma FailedWriteEnds(st: State, c: ClientId, f: FrameId)
    requires Inv(st) && Linked(st) && Enabled(st, FrameDone(c, f, false)) && st.clients[c].closes == 0
    ensures HasEnded(Step(st, FrameDone(c, f, false)), c)
  {
    EndedAfter(st, FrameDone(c, f, false), c);
    hide Inv, Linked, Enabled, Step, HasEnded;
  }

  /** ...and one that succeeds only is no longer pending. */
  lemma WriteOnlyEnds(st: State, c: ClientId, f: FrameId)
    requires Linked(st) && Enabled(st, FrameDone(c, f, true))
    ensures var st' := Step(st, FrameDone(c, f, true));
      && st'.clients == st.clients[c := st.clients[c].(pending := st.clients[c].pending - {f})]
      && st'.sessions == st.sessions && st'.registry == st.registry
  {
  }

  /** A client that was told of a failure, and one whose connection breaks. */
  lemma ToldOrBroken(st: State, e: Event, c: ClientId)
    requires Inv(st) && Linked(st) && Enabled(st, e) && (e == ErrorResponseDone(c) || e == ReadError(c))
    requires st.clients[c].closes == 0
    ensures HasEnded(Step(st, e), c)
  {
    EndedAfter(st, e, c);
    hide Inv, Linked, Enabled, Step, HasEnded;
  }

  /** A connection from which reading cannot start is closed at once. */
  lemma ConnectionStarts(st: State, c: ClientId, readOk: bool)
    requires Linked(st) && Enabled(st, Connect(c, readOk))
    ensures var st' := Step(st, Connect(c, readOk));
      c in st'.clients && st'.clients[c].closes == (if readOk then 0 else 1) && st'.clients[c].status == OnInit
      && st'.clients[c].session.None? && st'.sessions == st.sessions
  {
  }

  // ----- Failing sessions -----

  /** What a session that ends leaves: it is unregistered and empty, with its exit timer armed if it had
      clients... */
  predicate ListOver(st: State, st': State, s: SessionId) {
    && s !in st'.registry && s in st'.sessions && st'.sessions[s].clients == [] && !st'.sessions[s].reading
    && (s in st.sessions && st.sessions[s].clients != [] ==> st'.sessions[s].timer)
  }

  /** ...its clients have ended, and those that had no answer yet are being sent one if it could be written. */
  ghost predicate MembersOver(st: State, st': State, s: SessionId, resOk: set<ClientId>) {
    s in st.sessions && forall c :: c in st.sessions[s].clients ==> MemberOver(st, st', c, resOk)
  }

  ghost predicate MemberOver(st: State, st': State, c: ClientId, resOk: set<ClientId>) {
    && HasEnded(st', c) && c in st.clients
    && (st.clients[c].status == OnInit ==> (st'.clients[c].resPending <==> c in resOk))
  }

  ghost predicate SessionOver(st: State, st': State, s: SessionId, resOk: set<ClientId>) {
    ListOver(st, st', s) && MembersOver(st, st', s, resOk)
  }

  lemma MemberEnds(st: State, e: Event, s: SessionId, c: ClientId)
    requires Inv(st) && Linked(st) && Enabled(st, e) && EndsSession(e, s) && c in st.sessions[s].clients
    ensures MemberOver(st, Step(st, e), c, e.resOk)
  {
    MemberOf(st, s, c);
    assert ClientOk(st.clients[c]);
    ClientEffect(st, e, c);
    EndedAfter(st, e, c);
    assert e.DvrPreviewSent? || e.DvrConnected? || e.DvrReadError?;
    hide Inv, Linked, Step, Enabled;
  }

  lemma ListEnds(st: State, e: Event, s: SessionId)
    requires Inv(st) && Phases(st) && Linked(st) && Enabled(st, e) && EndsSession(e, s)
    ensures ListOver(st, Step(st, e), s)
  {
    SessionEffect(st, e, s);
    RegistryEffect(st, e, s);
    InvListKnown(st, s);
    AllLeave(st, e, s);
    EnabledPhase(st, e, s);
    NotStarting(st, s);
    hide Inv, Linked, Step, Enabled, Phases, Keep, Leavers, ListKnown;
  }

  lemma NotStarting(st: State, s: SessionId)
    requires Phases(st) && s in st.sessions
    ensures st.sessions[s].connectPending || st.sessions[s].previewPending ==> !st.sessions[s].reading
  {
    assert PhaseOk(st.sessions[s], s in st.registry);
  }

  lemma MembersEnd(st: State, e: Event, s: SessionId)
    requires Inv(st) && Linked(st) && Enabled(st, e) && EndsSession(e, s)
    ensures MembersOver(st, Step(st, e), s, e.resOk)
  {
    assert s in st.sessions;
    hide Inv, Linked, Step, Enabled, EndsSession, MemberOver;
    forall c | c in st.sessions[s].clients
      ensures MemberOver(st, Step(st, e), c, e.resOk)
    {
      MemberEnds(st, e, s, c);
    }
  }

  /** Main result: a connect that fails, a preview command that cannot be written, reading that cannot start
      and a read error end the session and all its clients. */
  lemma FailureEndsSession(st: State, e: Event, s: SessionId)
    requires Inv(st) && Phases(st) && Linked(st) && Enabled(st, e) && EndsSession(e, s)
    ensures SessionOver(st, Step(st, e), s, e.resOk)
  {
    ListEnds(st, e, s);
    MembersEnd(st, e, s);
    hide Inv, Linked, Step, Enabled, Phases, ListOver, MembersOver;
  }

  /** Main result: after the callback of the preview command the session is over, unless the command was
      written and reading began; then it reads, and of its clients each has been answered or closed. */
  lemma AskedEndsOrStreams(st: State, s: SessionId, ok: bool, readOk: bool, resOk: set<ClientId>)
    requires Inv(st) && Phases(st) && Linked(st) && Enabled(st, DvrPreviewSent(s, ok, readOk, resOk))
    ensures var st' := Step(st, DvrPreviewSent(s, ok, readOk, resOk));
      if ok && readOk then s in st'.sessions && st'.sessions[s].reading && st'.sessions[s].running
      else SessionOver(st, st', s, resOk)
    ensures ok && readOk ==> forall c :: c in st.sessions[s].clients ==> AnsweredOrEnded(st, Step(st, DvrPreviewSent(s, ok, readOk, resOk)), c, resOk)
  {
    var e := DvrPreviewSent(s, ok, readOk, resOk);
    if ok && readOk {
      StreamStarts(st, s, resOk);
      forall c | c in st.sessions[s].clients
        ensures AnsweredOrEnded(st, Step(st, e), c, resOk)
      {
        StreamAnswers(st, s, resOk, c);
      }
      hide *;
    } else {
      FailureEndsSession(st, e, s);
      hide *;
    }
  }

  lemma StreamStarts(st: State, s: SessionId, resOk: set<ClientId>)
    requires Inv(st) && Linked(st) && Enabled(st, DvrPreviewSent(s, true, true, resOk))
    ensures var st' := Step(st, DvrPreviewSent(s, true, true, resOk));
      s in st'.sessions && st'.sessions[s].reading && st'.sessions[s].running
  {
    SessionEffect(st, DvrPreviewSent(s, true, true, resOk), s);
    hide Inv, Linked, Step, Enabled;
  }

  /** A client without an answer is being sent one, or could not be and has ended; others are as before. */
  ghost predicate AnsweredOrEnded(st: State, st': State, c: ClientId, resOk: set<ClientId>) {
    && c in st.clients && c in st'.clients
    && if st.clients[c].status != OnInit then st'.clients[c] == st.clients[c]
       else if c in resOk then
         st'.clients[c] == st.clients[c].(status := OnSendPreviewRes, resPending := true)
       else HasEnded(st', c)
  }

  lemma StreamAnswers(st: State, s: SessionId, resOk: set<ClientId>, c: ClientId)
    requires Inv(st) && Linked(st) && Enabled(st, DvrPreviewSent(s, true, true, resOk)) && c in st.sessions[s].clients
    ensures AnsweredOrEnded(st, Step(st, DvrPreviewSent(s, true, true, resOk)), c, resOk)
  {
    var e := DvrPreviewSent(s, true, true, resOk);
    MemberOf(st, s, c);
    ClientEffect(st, e, c);
    if st.clients[c].status == OnInit && c !in resOk {
      EndedAfter(st, e, c);
    }
    hide Inv, Linked, Step, Enabled, HasEnded;
  }

  // ----- A preview that cannot be had -----

  /** A client whose session cannot be set up is told so, if it can be written to, and stays open until it
      has been told. */
  lemma PreviewFails(st: State, c: ClientId, key: SessionKey, s: SessionId, initOk: bool, connectOk: bool, answered: bool)
    requires Inv(st) && Linked(st) && Enabled(st, Preview(c, key, s, initOk, connectOk, answered))
    requires s !in st.sessions && !(initOk && connectOk)
    ensures var st' := Step(st, Preview(c, key, s, initOk, connectOk, answered));
      && c in st'.clients && st'.clients[c] == st.clients[c].(previewed := true, errPending := answered)
      && st'.sessions == st.sessions && st'.registry == st.registry
  {
    assert ClientOk(st.clients[c]);
  }

  // ----- Ends are final -----

  /** Main result: a client that a callback has ended is in no session in any later run, is closed as long
      as it exists, and is sent nothing. */
  lemma EndIsFinal(st: State, e: Event, c: ClientId, es: seq<Event>)
    requires Inv(st) && Linked(st) && Enabled(st, e) && c in st.clients && Ends(st.clients[c], c, e, Joins(st, e))
    requires Runs(Step(st, e), es)
    ensures Sent(Step(st, e), es, c) == []
    ensures var st' := After(Step(st, e), es);
      && (c in st'.clients ==> st'.clients[c].closes > 0)
      && forall s :: s in st'.sessions ==> c !in st'.sessions[s].clients
  {
    EndedAfter(st, e, c);
    StepInv(st, e);
    assert c in st.traces;
    TraceStays(st, e, c);
    hide Inv, Linked, Enabled, Step, Runs, After, Ends;
    assert Over(Step(st, e), c);
    OverRun(Step(st, e), es, c);
    ClosedIsSilentForGood(Step(st, e), es, c);
    EveryRun(Step(st, e), es);
    NoListHas(After(Step(st, e), es), c);
  }

  /** So after a frame write to an open client has failed, nothing more is sent to it. */
  lemma SilentAfterFailedWrite(st: State, c: ClientId, f: FrameId, es: seq<Event>)
    requires Inv(st) && Linked(st) && Enabled(st, FrameDone(c, f, false)) && st.clients[c].closes == 0
    requires Runs(Step(st, FrameDone(c, f, false)), es)
    ensures Sent(Step(st, FrameDone(c, f, false)), es, c) == []
    ensures forall s :: s in After(Step(st, FrameDone(c, f, false)), es).sessions ==>
      c !in After(Step(st, FrameDone(c, f, false)), es).sessions[s].clients
  {
    hide Inv, Linked, Step, Runs, After, Sent;
    EndIsFinal(st, FrameDone(c, f, false), c, es);
  }

  lemma NoListHas(st: State, c: ClientId)
    requires Inv(st) && Over(st, c)
    ensures forall s :: s in st.sessions ==> c !in st.sessions[s].clients
  {
    if c in st.clients {
      ClosedIsDetached(st, c);
    }
    hide SessionsOk, FramesOk, MemoryOk, AccountOk, HistoryOk, Distinct, ClientOk;
  }

  /** Some callback of a run ends the client. */
  ghost predicate EndedIn(st: State, es: seq<Event>, c: ClientId)
    requires Runs(st, es)
    decreases |es|
  {
    es != [] && ((c in st.clients && Ends(st.clients[c], c, es[0], Joins(st, es[0]))) || EndedIn(Step(st, es[0]), es[1..], c))
  }

  /** Main result: an open client is closed or gone after a run if and only if some callback of the run was
      one of those that end it. */
  lemma {:induction false} OverIffEnded(st: State, es: seq<Event>, c: ClientId)
    requires Inv(st) && Runs(st, es) && c in st.clients && st.clients[c].closes == 0
    ensures Over(After(st, es), c) <==> EndedIn(st, es, c)
    decreases |es|
  {
    hide Inv, Linked, Enabled, Step, Over, Ends, Joins;
    if es == [] {
      NotOver(st, c);
    } else {
      EndsOrStaysOpen(st, es[0], c);
      StepInv(st, es[0]);
      if Ends(st.clients[c], c, es[0], Joins(st, es[0])) {
        OverRun(Step(st, es[0]), es[1..], c);
      } else {
        OverIffEnded(Step(st, es[0]), es[1..], c);
      }
    }
  }

  lemma NotOver(st: State, c: ClientId)
    requires c in st.clients && st.clients[c].closes == 0
    ensures !Over(st, c)
  {
  }

  lemma EndsOrStaysOpen(st: State, e: Event, c: ClientId)
    requires Inv(st) && Linked(st) && Enabled(st, e) && c in st.clients && st.clients[c].closes == 0
    ensures c in Step(st, e).clients
    ensures if Ends(st.clients[c], c, e, Joins(st, e)) then Over(Step(st, e), c) else Step(st, e).clients[c].closes == 0
  {
    ClientEffect(st, e, c);
    assert e != ClientClosed(c) && c in st.traces;
    TraceStays(st, e, c);
    hide Inv, Linked, Enabled, Step, Ends;
  }
}
