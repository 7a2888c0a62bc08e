/** What the invariant means for whole runs of the preview protocol. */
module PreviewRuns {
  import opened CircularList
  import opened SessionRegistry
  import opened PreviewModel
  import opened PreviewInvariants

  // ----- Runs -----

  /** Each event is enabled when it happens. */
  ghost predicate Runs(st: State, es: seq<Event>)
    decreases |es|
  {
    es == [] || (Linked(st) && Enabled(st, es[0]) && Runs(Step(st, es[0]), es[1..]))
  }

  ghost function After(st: State, es: seq<Event>): State
    requires Runs(st, es)
    decreases |es|
  {
    if es == [] then st else After(Step(st, es[0]), es[1..])
  }

  /** Main result: every state that a run can reach satisfies the invariant. */
  lemma {:induction false} EveryRun(st: State, es: seq<Event>)
    requires Inv(st) && Runs(st, es)
    ensures Inv(After(st, es))
    decreases |es|
  {
    hide Inv, Enabled, Step, Linked;
    if es != [] {
      StepInv(st, es[0]);
      EveryRun(Step(st, es[0]), es[1..]);
    }
  }

  lemma {:induction false} RunsConcat(st: State, es: seq<Event>, fs: seq<Event>)
    ensures Runs(st, es + fs) <==> Runs(st, es) && Runs(After(st, es), fs)
    ensures Runs(st, es + fs) ==> After(st, es + fs) == After(After(st, es), fs)
    decreases |es|
  {
    hide Enabled, Step, Linked;
    if es == [] {
      assert [] + fs == fs;
    } else {
      assert (es + fs)[1..] == es[1..] + fs;
      if Linked(st) && Enabled(st, es[0]) {
        RunsConcat(Step(st, es[0]), es[1..], fs);
      }
    }
  }

  lemma OneEvent(st: State, e: Event)
    ensures Runs(st, [e]) <==> Linked(st) && Enabled(st, e)
    ensures Runs(st, [e]) ==> After(st, [e]) == Step(st, e)
  {
    hide Enabled, Step, Linked;
    assert [e][1..] == [];
    if Linked(st) && Enabled(st, e) {
      assert Runs(Step(st, e), []);
    }
  }

  // ----- The order of frames -----

  /** The frames a session receives in a run. */
  ghost function Stream(es: seq<Event>, s: SessionId): seq<FrameId> {
    if es == [] then []
    else (if es[0].DvrFrame? && es[0].s == s then [es[0].f] else []) + Stream(es[1..], s)
  }

  /** The frames handed to the socket of a client in a run: a write becomes pending. */
  ghost function Sent(st: State, es: seq<Event>, c: ClientId): seq<FrameId>
    requires Runs(st, es)
    decreases |es|
  {
    if es == [] then []
    else SentNow(st, es[0], c) + Sent(Step(st, es[0]), es[1..], c)
  }

  ghost function SentNow(st: State, e: Event, c: ClientId): seq<FrameId>
    requires Linked(st) && Enabled(st, e)
  {
    if e.DvrFrame? && c in Step(st, e).clients && e.f in Step(st, e).clients[c].pending then [e.f] else []
  }

  ghost function AcceptedBy(st: State, c: ClientId): seq<FrameId> {
    if c in st.traces then st.traces[c].accepted else []
  }

  ghost function ReceivedBy(st: State, s: SessionId): seq<FrameId> {
    if s in st.received then st.received[s] else []
  }

  lemma OtherStep(st: State, e: Event, c: ClientId, s: SessionId)
    requires Linked(st) && Enabled(st, e) && !e.DvrFrame?
    ensures AcceptedBy(Step(st, e), c) == AcceptedBy(st, c)
    ensures ReceivedBy(Step(st, e), s) == ReceivedBy(st, s)
  {
    hide StopOne, StopSession, FrameEnded, Answer, ErrorResponseSent, DvrReached, DvrAsked, TimerFired,
      ClientGone, SessionGone;
  }

  lemma FanOutSends(st: State, s: SessionId, f: FrameId, sendOk: set<ClientId>, c: ClientId)
    requires Linked(st) && s in st.sessions
    requires c in st.clients ==> f !in st.clients[c].pending
    ensures var st' := FanOut(st, s, f, sendOk);
      AcceptedBy(st', c) == AcceptedBy(st, c) + if c in st'.clients && f in st'.clients[c].pending then [f] else []
  {
    hide Keep, Detach;
  }

  lemma FanOutReceives(st: State, s: SessionId, f: FrameId, sendOk: set<ClientId>, u: SessionId)
    requires Linked(st) && s in st.sessions
    ensures ReceivedBy(FanOut(st, s, f, sendOk), u) == ReceivedBy(st, u) + if s == u then [f] else []
  {
    hide Keep, Detach, Takers;
  }

  lemma FrameIsUnsent(st: State, s: SessionId, f: FrameId, sendOk: set<ClientId>, c: ClientId)
    requires Inv(st) && Enabled(st, DvrFrame(s, f, sendOk))
    ensures c in st.clients ==> f !in st.clients[c].pending
  {
    hide ClientsOk, Membership, SessionsOk, HistoryOk;
    FrameIsNew(st, s, f);
  }

  lemma FrameStep(st: State, e: Event, c: ClientId, s: SessionId)
    requires Inv(st) && Linked(st) && Enabled(st, e) && e.DvrFrame?
    ensures AcceptedBy(Step(st, e), c) == AcceptedBy(st, c) + SentNow(st, e, c)
    ensures ReceivedBy(Step(st, e), s) == ReceivedBy(st, s) + if e.s == s then [e.f] else []
  {
    FrameIsUnsent(st, e.s, e.f, e.sendOk, c);
    hide Inv, AcceptedBy, ReceivedBy, FanOut;
    FanOutSends(st, e.s, e.f, e.sendOk, c);
    FanOutReceives(st, e.s, e.f, e.sendOk, s);
  }

  lemma StreamOfOne(e: Event, s: SessionId)
    ensures Stream([e], s) == if e.DvrFrame? && e.s == s then [e.f] else []
  {
  }

  /** The recorded history of one step is what is seen of it. */
  lemma HistoryStep(st: State, e: Event, c: ClientId, s: SessionId)
    requires Inv(st) && Linked(st) && Enabled(st, e)
    ensures AcceptedBy(Step(st, e), c) == AcceptedBy(st, c) + SentNow(st, e, c)
    ensures ReceivedBy(Step(st, e), s) == ReceivedBy(st, s) + Stream([e], s)
  {
    hide Inv, Step, Enabled, Linked, AcceptedBy, ReceivedBy;
    StreamOfOne(e, s);
    if e.DvrFrame? {
      FrameStep(st, e, c, s);
    } else {
      OtherStep(st, e, c, s);
    }
  }

  lemma {:induction false} HistoryRun(st: State, es: seq<Event>, c: ClientId, s: SessionId)
    requires Inv(st) && Runs(st, es)
    ensures AcceptedBy(After(st, es), c) == AcceptedBy(st, c) + Sent(st, es, c)
    ensures ReceivedBy(After(st, es), s) == ReceivedBy(st, s) + Stream(es, s)
    decreases |es|
  {
    hide Inv, Enabled, Step, Linked, AcceptedBy, ReceivedBy;
    if es != [] {
      HistoryStep(st, es[0], c, s);
      StepInv(st, es[0]);
      HistoryRun(Step(st, es[0]), es[1..], c, s);
      assert Stream(es, s) == Stream([es[0]], s) + Stream(es[1..], s);
    }
  }

  lemma FanOutStart(st: State, s: SessionId, f: FrameId, sendOk: set<ClientId>, c: ClientId)
    requires Linked(st) && s in st.sessions && c in st.traces
    ensures var st' := FanOut(st, s, f, sendOk);
      c in st'.traces && st'.traces[c] == st.traces[c].(accepted := st'.traces[c].accepted)
  {
    hide Keep, Detach, Takers;
  }

  /** Once the preview response was sent, where the block begins is settled. */
  lemma StartStep(st: State, e: Event, c: ClientId)
    requires Linked(st) && Enabled(st, e) && c in st.traces
    requires c in st.clients ==> ClientOk(st.clients[c]) && Follows(st.clients[c], st.traces[c], st.received)
    ensures c in Step(st, e).traces
    ensures st.traces[c].responded ==>
      Step(st, e).traces[c] == st.traces[c].(accepted := Step(st, e).traces[c].accepted)
    ensures !st.traces[c].responded && e != ResponseDone(c) ==> !Step(st, e).traces[c].responded
  {
    hide StopOne, StopSession, FrameEnded, Answer, ErrorResponseSent, DvrReached, DvrAsked, TimerFired,
      ClientGone, SessionGone, FanOut, Responded;
    if e.DvrFrame? {
      FanOutStart(st, e.s, e.f, e.sendOk, c);
    }
  }

  lemma {:induction false} StartRun(st: State, es: seq<Event>, c: ClientId)
    requires Inv(st) && Runs(st, es) && c in st.traces
    ensures c in After(st, es).traces
    ensures st.traces[c].responded ==>
      var t := After(st, es).traces[c]; t.responded && t.start == st.traces[c].start && t.home == st.traces[c].home
    decreases |es|
  {
    if es != [] {
      var st' := Step(st, es[0]);
      StartStep(st, es[0], c);
      StepInv(st, es[0]);
      hide Inv, Step, Enabled, Linked;
      StartRun(st', es[1..], c);
    }
  }

  lemma {:induction false} SilentRun(st: State, es: seq<Event>, c: ClientId)
    requires Inv(st) && Runs(st, es)
    requires ResponseDone(c) !in es && (c in st.traces ==> !st.traces[c].responded)
    ensures c in After(st, es).traces ==> !After(st, es).traces[c].responded
    decreases |es|
  {
    if es != [] {
      var st' := Step(st, es[0]);
      if c in st.traces {
        StartStep(st, es[0], c);
      } else {
        NewTrace(st, es[0], c);
      }
      StepInv(st, es[0]);
      hide Inv, Step, Enabled, Linked;
      SilentRun(st', es[1..], c);
    }
  }

  lemma NewTrace(st: State, e: Event, c: ClientId)
    requires Linked(st) && Enabled(st, e) && c !in st.traces
    ensures c in Step(st, e).traces ==> !Step(st, e).traces[c].responded
  {
    hide StopOne, StopSession, FrameEnded, Answer, ErrorResponseSent, DvrReached, DvrAsked, TimerFired,
      ClientGone, SessionGone, Detach, Keep, Takers;
  }

  /** Main result: no frame is sent to a client whose preview response has not been. */
  lemma NoFrameBeforeTheResponse(es: seq<Event>, c: ClientId)
    requires Runs(INITIAL, es) && ResponseDone(c) !in es
    ensures Sent(INITIAL, es, c) == []
  {
    InitialInv();
    EveryRun(INITIAL, es);
    SilentRun(INITIAL, es, c);
    HistoryRun(INITIAL, es, c, 0);
    hide Runs, After, Sent, Step, Enabled, Linked;
    assert AcceptedBy(INITIAL, c) == [];
  }

  /** The session a client has joined. */
  ghost function Home(st: State, c: ClientId): Option<SessionId> {
    if c in st.traces then st.traces[c].home else None
  }

  /** Main result: the frames sent to a client are, without gap, duplicate or reordering, the first
      ones its session receives after the preview response of the client was sent; and as long as
      the client stays attached and ready, all of them. */
  lemma FramesFollowTheResponse(before: seq<Event>, c: ClientId, later: seq<Event>)
    requires Runs(INITIAL, before + [ResponseDone(c)] + later)
    ensures var st, run := After(INITIAL, before + [ResponseDone(c)] + later), before + [ResponseDone(c)] + later;
      && Home(st, c).Some?
      && var stream := Stream(later, Home(st, c).value);
      && Sent(INITIAL, run, c) <= stream
      && Distinct(Sent(INITIAL, run, c))
      && (c in st.clients && st.clients[c].session.Some? && st.clients[c].status == OnSendFrames ==>
            Sent(INITIAL, run, c) == stream)
  {
    hide Runs, After, Sent, Step, Enabled, Linked, Stream, Inv;
    InitialInv();
    var mid, run := before + [ResponseDone(c)], before + [ResponseDone(c)] + later;
    RunsConcat(INITIAL, mid, later);
    RunsConcat(INITIAL, before, [ResponseDone(c)]);
    OneEvent(After(INITIAL, before), ResponseDone(c));
    EveryRun(INITIAL, before);
    EveryRun(INITIAL, mid);
    EveryRun(INITIAL, run);
    var st0, st1, st := After(INITIAL, before), After(INITIAL, mid), After(INITIAL, run);
    AnsweredNow(st0, c);
    var s := st1.traces[c].home.value;
    StartRun(st1, later, c);
    HistoryRun(st1, later, c, s);
    HistoryRun(INITIAL, run, c, s);
    BlockOfRun(st1, st, c, s, Stream(later, s));
    assert AcceptedBy(INITIAL, c) == [];
  }

  lemma AnsweredNow(st: State, c: ClientId)
    requires Inv(st) && Linked(st) && Enabled(st, ResponseDone(c))
    ensures var st' := Step(st, ResponseDone(c));
      && c in st'.traces && st'.traces[c].responded && st'.traces[c].home.Some?
      && st'.traces[c].home.value in st'.received
      && st'.traces[c].start == |st'.received[st'.traces[c].home.value]|
  {
    hide Membership, SessionsOk, FramesOk, MemoryOk, AccountOk;
  }

  /** A block that begins where the history ended is a prefix of what came later. */
  lemma BlockOfRun(st1: State, st: State, c: ClientId, s: SessionId, stream: seq<FrameId>)
    requires Inv(st) && c in st.traces && c in st1.traces && s in st1.received
    requires st1.traces[c].home == Some(s) == st.traces[c].home
    requires st.traces[c].responded && st.traces[c].start == |st1.received[s]|
    requires ReceivedBy(st, s) == ReceivedBy(st1, s) + stream
    ensures st.traces[c].accepted <= stream && Distinct(st.traces[c].accepted)
    ensures c in st.clients && st.clients[c].session.Some? && st.clients[c].status == OnSendFrames ==>
      st.traces[c].accepted == stream
  {
    var a, l := st.traces[c].accepted, st.received[s];
    assert Block(st.traces[c], st.received) && s in st.received;
    assert Distinct(l);
    assert l == st1.received[s] + stream;
    var n := |st1.received[s]|;
    assert l[n..n + |a|] == a;
    assert l[n..n + |a|] == stream[..|a|];
    assert forall i :: 0 <= i < |a| ==> a[i] == l[n + i];
    hide Block, SessionsOk, FramesOk, MemoryOk, AccountOk, Membership, ClientOk;
    assert c in st.clients ==> Follows(st.clients[c], st.traces[c], st.received);
  }
}
