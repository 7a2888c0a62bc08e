/** What each callback does to each client and to each session, told from their own records: what ends
    a client, what answers it, what ends a session, and what changes nothing. */
module PreviewEffects {
  import opened CircularList
  import opened SessionRegistry
  import opened PreviewModel
  import opened PreviewInvariants
  import opened PreviewRuns
  import opened PreviewSafety
  import opened PreviewLoops
  import opened PreviewStops

  // ----- What happens to a client -----

  /** The failures that end a session: its connect, its preview command, the start of its reading, or a
      read. */
  predicate EndsSession(e: Event, s: SessionId) {
    match e
    case DvrConnected(t, ok, written, _) => t == s && !(ok && written)
    case DvrPreviewSent(t, ok, readOk, _) => t == s && !(ok && readOk)
    case DvrReadError(t, _) => t == s
    case _ => false
  }

  /** The callback closes an open client: its connection broke, a write to it failed or could not be
      made, it has been told of a failure, or its session ends. */
  predicate Ends(k: Client, c: ClientId, e: Event, joins: bool) {
    && k.closes == 0
    && ((k.session.Some? && EndsSession(e, k.session.value))
     || match e
        case ReadError(d) => d == c
        case ErrorResponseDone(d) => d == c
        case FrameDone(d, _, ok) => d == c && !ok
        case Preview(d, _, _, _, _, answered) => d == c && joins && !answered
        case DvrPreviewSent(s, _, _, resOk) => k.session == Some(s) && k.status == OnInit && c !in resOk
        case DvrFrame(s, _, sendOk) => k.session == Some(s) && k.status == OnSendFrames && c !in sendOk
        case _ => false)
  }

  /** A preview response to the client becomes pending: it joins a session that is there, or its session
      is ready, or ends before it was. */
  predicate Answers(k: Client, c: ClientId, e: Event, joins: bool) {
    && k.closes == 0 && k.status == OnInit
    && match e
       case Preview(d, _, _, _, _, answered) => d == c && joins && answered
       case DvrConnected(s, ok, written, resOk) => k.session == Some(s) && !(ok && written) && c in resOk
       case DvrPreviewSent(s, _, _, resOk) => k.session == Some(s) && c in resOk
       case DvrReadError(s, resOk) => k.session == Some(s) && c in resOk
       case _ => false
  }

  /** The client asks for a preview, and no session can be had. */
  predicate Fails(e: Event, c: ClientId, joins: bool) {
    e.Preview? && e.c == c && !joins && !(e.initOk && e.connectOk)
  }

  predicate Enters(e: Event, c: ClientId, joins: bool) {
    e.Preview? && e.c == c && (joins || (e.initOk && e.connectOk))
  }

  /** A write of the frame to the client becomes pending. */
  predicate Takes(k: Client, c: ClientId, e: Event) {
    e.DvrFrame? && k.session == Some(e.s) && k.status == OnSendFrames && c in e.sendOk
  }

  /** How the record of a client follows from what happens to it. */
  function ClientNext(k: Client, c: ClientId, e: Event, joins: bool): Client {
    var ends, answers := Ends(k, c, e, joins), Answers(k, c, e, joins);
    Client(
      if ends then OnStop else if e == ResponseDone(c) then OnSendFrames else if answers then OnSendPreviewRes else k.status,
      if ends then None else if Enters(e, c, joins) then Some(e.s) else k.session,
      k.closes + if ends then 1 else 0,
      k.previewed || (e.Preview? && e.c == c),
      (k.resPending && e != ResponseDone(c)) || answers,
      (k.errPending && e != ErrorResponseDone(c)) || (Fails(e, c, joins) && e.answered),
      k.pending - (if e.FrameDone? && e.c == c then {e.f} else {}) + if Takes(k, c, e) then {e.f} else {})
  }

  /** The preview command finds a registered session. */
  predicate Joins(st: State, e: Event) {
    e.Preview? && e.s in st.sessions
  }

  // ----- One callback at a time -----

  lemma StopOneBehaves(st: State, d: ClientId, c: ClientId)
    requires d in st.clients && c in st.clients
    requires st.clients[d].session.Some? ==> st.clients[d].session.value in st.sessions
    ensures c in StopOne(st, d).clients
    ensures StopOne(st, d).clients[c] == if c == d && st.clients[d].status != OnStop then Stopped(st.clients[d]) else st.clients[c]
  {
    hide Detach;
  }

  lemma StopSessionBehaves(st: State, s: SessionId, resOk: set<ClientId>, c: ClientId)
    requires s in st.sessions && c in st.clients
    ensures c in StopSession(st, s, resOk).clients
    ensures StopSession(st, s, resOk).clients[c]
         == if c in st.sessions[s].clients then StopMember(st.clients[c], c in resOk) else st.clients[c]
  {
    hide StopMember;
  }

  lemma RespondAllBehaves(st: State, s: SessionId, resOk: set<ClientId>, c: ClientId)
    requires s in st.sessions && c in st.clients
    ensures c in RespondAll(st, s, resOk).clients && s in RespondAll(st, s, resOk).sessions
    ensures RespondAll(st, s, resOk).clients[c]
         == if c in st.sessions[s].clients then Respond(st.clients[c], c in resOk) else st.clients[c]
    ensures c in RespondAll(st, s, resOk).sessions[s].clients
       <==> c in st.sessions[s].clients && (st.clients[c].status == OnInit ==> c in resOk)
  {
    hide Respond, Keep;
    KeepMembers(st.sessions[s].clients, Refused(st, s, resOk));
  }

  lemma FanOutBehaves(st: State, s: SessionId, f: FrameId, sendOk: set<ClientId>, c: ClientId)
    requires Linked(st) && s in st.sessions && c in st.clients
    ensures c in FanOut(st, s, f, sendOk).clients
    ensures var k := st.clients[c];
      FanOut(st, s, f, sendOk).clients[c] ==
        if c in st.sessions[s].clients && k.status == OnSendFrames then
          if c in sendOk then k.(pending := k.pending + {f}) else Stopped(k)
        else k
  {
    hide Detach, Stopped;
  }

  /** A member is an open client that points to the session. */
  ghost predicate MemberKnown(st: State, s: SessionId, c: ClientId) {
    && c in st.clients && ClientOk(st.clients[c])
    && (s in st.sessions ==> (c in st.sessions[s].clients <==> st.clients[c].session == Some(s)))
  }

  lemma InvMemberKnown(st: State, s: SessionId, c: ClientId)
    requires Inv(st) && c in st.clients
    ensures MemberKnown(st, s, c)
  {
    hide SessionsOk, FramesOk, MemoryOk, AccountOk, HistoryOk, Distinct, ClientOk;
  }

  lemma ReachedBehaves(st: State, s: SessionId, ok: bool, written: bool, resOk: set<ClientId>, c: ClientId)
    requires s in st.sessions && c in st.clients && MemberKnown(st, s, c)
    ensures var st', e := DvrReached(st, s, ok && written, resOk), DvrConnected(s, ok, written, resOk);
      c in st'.clients && st'.clients[c] == ClientNext(st.clients[c], c, e, false)
  {
    hide StopSession;
    var pending := (ok && written) || st.sessions[s].previewPending;
    StopSessionBehaves(SetSession(st, s, st.sessions[s].(connectPending := false, previewPending := pending)), s, resOk, c);
  }

  lemma AskedBehaves(st: State, s: SessionId, ok: bool, readOk: bool, resOk: set<ClientId>, c: ClientId)
    requires s in st.sessions && c in st.clients && MemberKnown(st, s, c)
    ensures var st', e := DvrAsked(st, s, ok, readOk, resOk), DvrPreviewSent(s, ok, readOk, resOk);
      c in st'.clients && st'.clients[c] == ClientNext(st.clients[c], c, e, false)
  {
    hide StopSession, RespondAll;
    var st1 := SetSession(st, s, st.sessions[s].(previewPending := false));
    if !ok {
      StopSessionBehaves(st1, s, resOk, c);
    } else {
      RespondAllBehaves(st1, s, resOk, c);
      var st2 := RespondAll(st1, s, resOk);
      StopSessionBehaves(SetSession(st2, s, st2.sessions[s].(running := true, reading := readOk)), s, resOk, c);
    }
  }

  lemma BrokenBehaves(st: State, s: SessionId, resOk: set<ClientId>, c: ClientId)
    requires s in st.sessions && c in st.clients && MemberKnown(st, s, c)
    ensures var st', e := StopSession(SetSession(st, s, st.sessions[s].(reading := false)), s, resOk), DvrReadError(s, resOk);
      c in st'.clients && st'.clients[c] == ClientNext(st.clients[c], c, e, false)
  {
    hide StopSession;
    StopSessionBehaves(SetSession(st, s, st.sessions[s].(reading := false)), s, resOk, c);
  }

  lemma FrameBehaves(st: State, s: SessionId, f: FrameId, sendOk: set<ClientId>, c: ClientId)
    requires Linked(st) && s in st.sessions && c in st.clients && MemberKnown(st, s, c)
    ensures var st', e := FanOut(st, s, f, sendOk), DvrFrame(s, f, sendOk);
      c in st'.clients && st'.clients[c] == ClientNext(st.clients[c], c, e, false)
  {
    hide FanOut;
    FanOutBehaves(st, s, f, sendOk, c);
  }

  lemma DvrClientBehaves(st: State, e: Event, c: ClientId)
    requires Linked(st) && Enabled(st, e) && c in st.clients
    requires e.DvrConnected? || e.DvrPreviewSent? || e.DvrReadError? || e.DvrFrame?
    requires MemberKnown(st, e.s, c)
    ensures c in Step(st, e).clients && Step(st, e).clients[c] == ClientNext(st.clients[c], c, e, false)
  {
    hide StopSession, DvrReached, DvrAsked, FanOut, MemberKnown, ClientNext;
    match e
    case DvrConnected(s, ok, written, resOk) => ReachedBehaves(st, s, ok, written, resOk, c);
    case DvrPreviewSent(s, ok, readOk, resOk) => AskedBehaves(st, s, ok, readOk, resOk, c);
    case DvrReadError(s, resOk) => BrokenBehaves(st, s, resOk, c);
    case DvrFrame(s, f, sendOk) => FrameBehaves(st, s, f, sendOk, c);
  }

  lemma ReadErrorBehaves(st: State, d: ClientId, c: ClientId)
    requires Linked(st) && Enabled(st, ReadError(d)) && c in st.clients && ClientOk(st.clients[c])
    ensures c in StopOne(st, d).clients && StopOne(st, d).clients[c] == ClientNext(st.clients[c], c, ReadError(d), false)
  {
    hide StopOne;
    StopOneBehaves(st, d, c);
  }

  lemma ResponseBehaves(st: State, d: ClientId, c: ClientId)
    requires Linked(st) && Enabled(st, ResponseDone(d)) && c in st.clients && ClientOk(st.clients[c])
    ensures c in ResponseSent(st, d).clients && ResponseSent(st, d).clients[c] == ClientNext(st.clients[c], c, ResponseDone(d), false)
  {
  }

  lemma ErrorResponseBehaves(st: State, d: ClientId, c: ClientId)
    requires Linked(st) && Enabled(st, ErrorResponseDone(d)) && c in st.clients && ClientOk(st.clients[c])
    ensures c in ErrorResponseSent(st, d).clients
      && ErrorResponseSent(st, d).clients[c] == ClientNext(st.clients[c], c, ErrorResponseDone(d), false)
  {
    hide StopOne;
    StopOneBehaves(st.(clients := st.clients[d := st.clients[d].(errPending := false)]), d, c);
  }

  lemma FrameDoneBehaves(st: State, d: ClientId, f: FrameId, ok: bool, c: ClientId)
    requires Linked(st) && Enabled(st, FrameDone(d, f, ok)) && c in st.clients && ClientOk(st.clients[c])
    ensures c in FrameEnded(st, d, f, ok).clients
      && FrameEnded(st, d, f, ok).clients[c] == ClientNext(st.clients[c], c, FrameDone(d, f, ok), false)
  {
    WrittenBehaves(st, d, f, c);
    WrittenBehaves(st, d, f, d);
    hide StopOne, FrameWritten;
    StopOneBehaves(FrameWritten(st, d, f), d, c);
  }

  lemma OwnBehaves(st: State, e: Event, c: ClientId)
    requires Linked(st) && Enabled(st, e) && c in st.clients && ClientOk(st.clients[c])
    requires e.ReadError? || e.ResponseDone? || e.ErrorResponseDone? || e.FrameDone? || e.ClientClosed? || e.Connect?
    ensures c in Step(st, e).clients ==> Step(st, e).clients[c] == ClientNext(st.clients[c], c, e, false)
  {
    match e
    case ReadError(d) =>
      hide StopOne, ClientNext, Enabled;
      ReadErrorBehaves(st, d, c);
    case ResponseDone(d) =>
      hide ResponseSent, ClientNext, Enabled;
      ResponseBehaves(st, d, c);
    case ErrorResponseDone(d) =>
      hide ErrorResponseSent, ClientNext, Enabled;
      ErrorResponseBehaves(st, d, c);
    case FrameDone(d, f, ok) =>
      hide FrameEnded, ClientNext, Enabled;
      FrameDoneBehaves(st, d, f, ok, c);
    case _ =>
  }

  lemma WrittenBehaves(st: State, d: ClientId, f: FrameId, c: ClientId)
    requires Linked(st) && d in st.clients && f in st.clients[d].pending && c in st.clients
    ensures FrameWritten(st, d, f).sessions == st.sessions && c in FrameWritten(st, d, f).clients
    ensures FrameWritten(st, d, f).clients[c]
         == st.clients[c].(pending := st.clients[c].pending - if c == d then {f} else {})
  {
    hide FrameObjects;
  }

  lemma JoinBehaves(st: State, e: Event, c: ClientId)
    requires e.Preview? && e.c in st.clients && e.c in st.traces && e.s in st.sessions && c in st.clients
    requires ClientOk(st.clients[c]) && st.clients[e.c].closes == 0 && !st.clients[e.c].previewed
    ensures var st' := PreviewJoin(st, e.c, e.s, e.answered);
      c in st'.clients && st'.clients[c] == ClientNext(st.clients[c], c, e, true)
  {
    hide Detach, Joined;
  }

  lemma NewBehaves(st: State, e: Event, c: ClientId)
    requires e.Preview? && e.c in st.clients && e.c in st.traces && c in st.clients
    requires ClientOk(st.clients[c]) && st.clients[e.c].closes == 0 && !st.clients[e.c].previewed
    ensures var st' := PreviewNew(st, e.c, e.key, e.s, e.initOk && e.connectOk, e.answered);
      c in st'.clients && st'.clients[c] == ClientNext(st.clients[c], c, e, false)
  {
  }

  lemma PreviewBehaves(st: State, e: Event, c: ClientId)
    requires Linked(st) && Enabled(st, e) && e.Preview? && c in st.clients && ClientOk(st.clients[c])
    ensures c in Step(st, e).clients && Step(st, e).clients[c] == ClientNext(st.clients[c], c, e, Joins(st, e))
  {
    hide PreviewJoin, PreviewNew, ClientNext, ClientOk;
    if e.s in st.sessions {
      JoinBehaves(st, e, c);
    } else {
      NewBehaves(st, e, c);
    }
  }

  /** Main result: every callback does to every client what the client's own record and the callback
      say, and nothing else. */
  lemma ClientEffect(st: State, e: Event, c: ClientId)
    requires Inv(st) && Linked(st) && Enabled(st, e) && c in st.clients
    ensures c in Step(st, e).clients ==> Step(st, e).clients[c] == ClientNext(st.clients[c], c, e, Joins(st, e))
    ensures c !in Step(st, e).clients ==> e == ClientClosed(c)
  {
    InvMemberKnown(st, if e.DvrConnected? || e.DvrPreviewSent? || e.DvrReadError? || e.DvrFrame? then e.s else 0, c);
    if e != ClientClosed(c) {
      Remains(st, e, c);
    }
    hide Inv, Step, Enabled, Linked, ClientNext, ClientOk;
    if e.Preview? {
      PreviewBehaves(st, e, c);
    } else if e.DvrConnected? || e.DvrPreviewSent? || e.DvrReadError? || e.DvrFrame? {
      DvrClientBehaves(st, e, c);
    } else if e.ExitTimer? || e.DvrClosed? {
      TimerBehaves(st, e, c);
    } else {
      OwnBehaves(st, e, c);
    }
  }

  lemma TimerBehaves(st: State, e: Event, c: ClientId)
    requires Linked(st) && Enabled(st, e) && c in st.clients && (e.ExitTimer? || e.DvrClosed?)
    ensures c in Step(st, e).clients && Step(st, e).clients[c] == ClientNext(st.clients[c], c, e, false)
  {
  }

  lemma Remains(st: State, e: Event, c: ClientId)
    requires Linked(st) && Enabled(st, e) && c in st.clients && e != ClientClosed(c)
    ensures c in Step(st, e).clients
  {
    hide StopOne, StopSession, RespondAll, FanOut, Detach;
    match e
    case DvrConnected(_, _, _, _) => DvrKeys(st, e);
    case DvrPreviewSent(_, _, _, _) => DvrKeys(st, e);
    case DvrReadError(_, _) => DvrKeys(st, e);
    case DvrFrame(_, _, _) => DvrKeys(st, e);
    case ReadError(d) => StopKeys(st, d, 0, {});
    case ErrorResponseDone(d) => StopKeys(st.(clients := st.clients[d := st.clients[d].(errPending := false)]), d, 0, {});
    case FrameDone(d, f, ok) => StopKeys(FrameWritten(st, d, f), d, 0, {});
    case _ =>
  }

  // ----- What happens to a session -----

  /** The clients that the callback closes. */
  function Leavers(st: State, e: Event): set<ClientId> {
    set c | c in st.clients && Ends(st.clients[c], c, e, Joins(st, e))
  }

  /** An idle session whose exit timer fires. */
  predicate TimesOut(sess: MediaSession, s: SessionId, e: Event) {
    e == ExitTimer(s) && sess.clients == []
  }

  /** The callback takes the session out of the registry. */
  predicate Unregisters(sess: MediaSession, s: SessionId, e: Event) {
    EndsSession(e, s) || TimesOut(sess, s, e)
  }

  /** The clients of a session with the one that joins it, in front. */
  function WithNewcomer(list: seq<ClientId>, s: SessionId, e: Event): seq<ClientId> {
    if e.Preview? && e.s == s then [e.c] + list else list
  }

  /** How a session follows from what happens to it and from the clients that leave. */
  function SessionNext(sess: MediaSession, s: SessionId, e: Event, left: set<ClientId>): MediaSession {
    var all := WithNewcomer(sess.clients, s, e);
    var list, out := Keep(all, left), TimesOut(sess, s, e);
    MediaSession(
      sess.key, list, |list|,
      sess.running || (e.DvrPreviewSent? && e.s == s && e.ok),
      (sess.timer && e != ExitTimer(s)) || (list == [] && all != []),
      sess.connectPending && !(e.DvrConnected? && e.s == s),
      if e.DvrConnected? && e.s == s && e.ok && e.written then true else sess.previewPending && !(e.DvrPreviewSent? && e.s == s),
      if e.DvrPreviewSent? && e.s == s && e.ok then e.readOk
      else sess.reading && !(e.DvrReadError? && e.s == s) && !out,
      sess.closing || out)
  }

  lemma DetachSame(sess: MediaSession, a: set<ClientId>, b: set<ClientId>)
    requires forall c :: c in sess.clients ==> (c in a <==> c in b)
    ensures Detach(sess, a) == Detach(sess, b)
  {
    hide Keep;
    KeepSame(sess.clients, a, b);
  }

  /** The members of a session are open, point to it, and are counted. */
  ghost predicate ListKnown(st: State, s: SessionId) {
    && s in st.sessions && st.sessions[s].clientSize == |st.sessions[s].clients|
    && forall c :: c in st.sessions[s].clients ==>
         c in st.clients && st.clients[c].session == Some(s) && st.clients[c].closes == 0 && st.clients[c].status != OnStop
  }

  lemma InvListKnown(st: State, s: SessionId)
    requires Inv(st) && s in st.sessions
    ensures ListKnown(st, s)
  {
    SessionIsCounted(st, s);
    forall c | c in st.sessions[s].clients
      ensures c in st.clients && st.clients[c].session == Some(s) && st.clients[c].closes == 0 && st.clients[c].status != OnStop
    {
      MemberOf(st, s, c);
    }
  }

  lemma DetachNobody(st: State, s: SessionId, left: set<ClientId>)
    requires ListKnown(st, s) && forall c :: c in st.sessions[s].clients ==> c !in left
    ensures Detach(st.sessions[s], left) == st.sessions[s]
  {
    DetachSame(st.sessions[s], left, {});
    DetachNone(st.sessions[s]);
  }

  /** The member that a callback of its own closes leaves its session, and no other. */
  lemma StopOneSession(st: State, d: ClientId, s: SessionId)
    requires d in st.clients && ListKnown(st, s)
    requires st.clients[d].session.Some? ==> st.clients[d].session.value in st.sessions
    ensures StopOne(st, d).sessions.Keys == st.sessions.Keys
    ensures StopOne(st, d).sessions[s] == Detach(st.sessions[s], {d})
  {
    hide Detach;
    if d !in st.sessions[s].clients {
      DetachNobody(st, s, {d});
    }
  }

  /** With nobody joining, a session that only loses clients is detached from them. */
  lemma OnlyLeaving(sess: MediaSession, s: SessionId, e: Event, left: set<ClientId>, gone: set<ClientId>)
    requires e.ReadError? || e.ResponseDone? || e.ErrorResponseDone? || e.FrameDone? || e.ClientClosed? || e.Connect? || e.DvrFrame?
    requires forall c :: c in sess.clients ==> (c in left <==> c in gone)
    ensures SessionNext(sess, s, e, left) == Detach(sess, gone)
  {
    hide Keep;
    KeepSame(sess.clients, left, gone);
  }

  lemma OwnSessionNext(st: State, e: Event, s: SessionId)
    requires Linked(st) && Enabled(st, e) && ListKnown(st, s)
    requires e.ReadError? || e.ResponseDone? || e.ErrorResponseDone? || e.FrameDone? || e.ClientClosed? || e.Connect?
    ensures Step(st, e).sessions.Keys == st.sessions.Keys
    ensures Step(st, e).sessions[s] == SessionNext(st.sessions[s], s, e, Leavers(st, e))
  {
    var gone := LeaverOf(st, e, s);
    OnlyLeaving(st.sessions[s], s, e, Leavers(st, e), gone);
    hide SessionNext, Leavers, StopOne, Detach, FrameWritten;
    match e
    case ReadError(d) => StopOneSession(st, d, s);
    case ErrorResponseDone(d) =>
      var st1 := st.(clients := st.clients[d := st.clients[d].(errPending := false)]);
      StopOneSession(st1, d, s);
    case FrameDone(d, f, ok) =>
      WrittenBehaves(st, d, f, d);
      WrittenKnows(st, d, f, s);
      StopOneSession(FrameWritten(st, d, f), d, s);
      DetachNobody(st, s, {});
    case _ => DetachNobody(st, s, {});
  }

  lemma WrittenKnows(st: State, d: ClientId, f: FrameId, s: SessionId)
    requires Linked(st) && d in st.clients && f in st.clients[d].pending && ListKnown(st, s)
    ensures FrameWritten(st, d, f).sessions == st.sessions && ListKnown(FrameWritten(st, d, f), s)
  {
    hide FrameObjects;
  }

  /** Who leaves the session, if the callback is one of a client. */
  lemma LeaverOf(st: State, e: Event, s: SessionId) returns (gone: set<ClientId>)
    requires Enabled(st, e) && ListKnown(st, s)
    requires e.ReadError? || e.ResponseDone? || e.ErrorResponseDone? || e.FrameDone? || e.ClientClosed? || e.Connect?
    ensures gone == if e.ReadError? || e.ErrorResponseDone? || (e.FrameDone? && !e.ok) then {e.c} else {}
    ensures forall c :: c in st.sessions[s].clients ==> (c in Leavers(st, e) <==> c in gone)
  {
    gone := if e.ReadError? || e.ErrorResponseDone? || (e.FrameDone? && !e.ok) then {e.c} else {};
  }

  /** Which members of a session leave it at a callback of a DVR connection. */
  lemma MembersLeave(st: State, e: Event, s: SessionId, c: ClientId)
    requires Enabled(st, e) && ListKnown(st, s) && c in st.sessions[s].clients
    requires e.DvrConnected? || e.DvrPreviewSent? || e.DvrReadError? || e.DvrFrame?
    ensures c in Leavers(st, e) <==> (e.s == s && (EndsSession(e, s)
      || (e.DvrPreviewSent? && st.clients[c].status == OnInit && c !in e.resOk)
      || (e.DvrFrame? && st.clients[c].status == OnSendFrames && c !in e.sendOk)))
  {
  }

  lemma StopSessionNext(st: State, t: SessionId, sess: MediaSession, resOk: set<ClientId>, s: SessionId)
    requires t in st.sessions && s in st.sessions
    ensures StopSession(SetSession(st, t, sess), t, resOk).sessions.Keys == st.sessions.Keys
    ensures StopSession(SetSession(st, t, sess), t, resOk).sessions[s] ==
      if s == t then sess.(clients := [], clientSize := 0, timer := sess.timer || sess.clients != []) else st.sessions[s]
  {
    hide Keep, StopMember;
  }

  lemma RespondAllNext(st: State, t: SessionId, sess: MediaSession, resOk: set<ClientId>, s: SessionId)
    requires t in st.sessions && s in st.sessions && sess.clients == st.sessions[t].clients
    ensures RespondAll(SetSession(st, t, sess), t, resOk).sessions.Keys == st.sessions.Keys
    ensures RespondAll(SetSession(st, t, sess), t, resOk).sessions[s] ==
      if s == t then Detach(sess, Refused(st, t, resOk)) else st.sessions[s]
  {
    hide Detach, Respond;
    assert Refused(SetSession(st, t, sess), t, resOk) == Refused(st, t, resOk);
  }

  /** A session that is not the one of the callback. */
  lemma OtherSessionNext(st: State, e: Event, s: SessionId)
    requires Enabled(st, e) && ListKnown(st, s)
    requires e.DvrConnected? || e.DvrPreviewSent? || e.DvrReadError? || e.DvrFrame?
    requires e.s != s
    ensures SessionNext(st.sessions[s], s, e, Leavers(st, e)) == st.sessions[s]
  {
    forall c | c in st.sessions[s].clients
      ensures c !in Leavers(st, e)
    {
      MembersLeave(st, e, s, c);
    }
    hide Leavers, Keep;
    KeepSame(st.sessions[s].clients, Leavers(st, e), {});
    KeepMembers(st.sessions[s].clients, {});
  }

  /** A session that fails loses everybody. */
  lemma AllLeave(st: State, e: Event, s: SessionId)
    requires Enabled(st, e) && ListKnown(st, s) && EndsSession(e, s)
    ensures Keep(st.sessions[s].clients, Leavers(st, e)) == []
  {
    forall c | c in st.sessions[s].clients
      ensures c in Leavers(st, e)
    {
      MembersLeave(st, e, s, c);
    }
    KeepNone(st.sessions[s].clients, Leavers(st, e));
  }

  lemma ReachedSession(st: State, t: SessionId, ok: bool, written: bool, resOk: set<ClientId>, s: SessionId)
    requires Enabled(st, DvrConnected(t, ok, written, resOk)) && ListKnown(st, s)
    ensures var st', e := DvrReached(st, t, ok && written, resOk), DvrConnected(t, ok, written, resOk);
      st'.sessions.Keys == st.sessions.Keys && st'.sessions[s] == SessionNext(st.sessions[s], s, e, Leavers(st, e))
  {
    var e := DvrConnected(t, ok, written, resOk);
    var sess := st.sessions[t].(connectPending := false, previewPending := (ok && written) || st.sessions[t].previewPending);
    StopSessionNext(st, t, sess, resOk, s);
    if s != t {
      OtherSessionNext(st, e, s);
      hide StopSession, SessionNext, Leavers;
    } else if ok && written {
      NobodyLeaves(st, e, s);
      hide StopSession, Leavers, Keep;
    } else {
      AllLeave(st, e, s);
      hide StopSession, Leavers, Keep;
    }
  }

  lemma NobodyLeaves(st: State, e: Event, s: SessionId)
    requires Enabled(st, e) && ListKnown(st, s) && e.DvrConnected? && !EndsSession(e, s)
    ensures Keep(st.sessions[s].clients, Leavers(st, e)) == st.sessions[s].clients
  {
    forall c | c in st.sessions[s].clients
      ensures c !in Leavers(st, e)
    {
      MembersLeave(st, e, s, c);
    }
    KeepMembers(st.sessions[s].clients, Leavers(st, e));
  }

  lemma BrokenSession(st: State, t: SessionId, resOk: set<ClientId>, s: SessionId)
    requires Enabled(st, DvrReadError(t, resOk)) && ListKnown(st, s)
    ensures var st', e := StopSession(SetSession(st, t, st.sessions[t].(reading := false)), t, resOk), DvrReadError(t, resOk);
      st'.sessions.Keys == st.sessions.Keys && st'.sessions[s] == SessionNext(st.sessions[s], s, e, Leavers(st, e))
  {
    var e := DvrReadError(t, resOk);
    StopSessionNext(st, t, st.sessions[t].(reading := false), resOk, s);
    if s != t {
      OtherSessionNext(st, e, s);
      hide StopSession, SessionNext, Leavers;
    } else {
      AllLeave(st, e, s);
      hide StopSession, Leavers, Keep;
    }
  }

  lemma AskedSession(st: State, t: SessionId, ok: bool, readOk: bool, resOk: set<ClientId>, s: SessionId)
    requires Enabled(st, DvrPreviewSent(t, ok, readOk, resOk)) && ListKnown(st, s)
    ensures var st', e := DvrAsked(st, t, ok, readOk, resOk), DvrPreviewSent(t, ok, readOk, resOk);
      st'.sessions.Keys == st.sessions.Keys && st'.sessions[s] == SessionNext(st.sessions[s], s, e, Leavers(st, e))
  {
    var e, sess := DvrPreviewSent(t, ok, readOk, resOk), st.sessions[t].(previewPending := false);
    StopSessionNext(st, t, sess, resOk, s);
    RespondAllNext(st, t, sess, resOk, t);
    RespondAllNext(st, t, sess, resOk, s);
    var st2 := RespondAll(SetSession(st, t, sess), t, resOk);
    StopSessionNext(st2, t, st2.sessions[t].(running := true, reading := readOk), resOk, s);
    if s != t {
      OtherSessionNext(st, e, s);
      hide StopSession, RespondAll, SessionNext, Leavers, Detach;
    } else if ok && readOk {
      RefusedLeave(st, t, resOk);
      hide StopSession, RespondAll, Leavers, Keep, Refused;
    } else {
      AllLeave(st, e, s);
      KeepMembers(st.sessions[t].clients, Refused(st, t, resOk));
      hide StopSession, RespondAll, Leavers, Keep, Refused;
    }
  }

  lemma RefusedLeave(st: State, t: SessionId, resOk: set<ClientId>)
    requires Enabled(st, DvrPreviewSent(t, true, true, resOk)) && ListKnown(st, t)
    ensures Keep(st.sessions[t].clients, Leavers(st, DvrPreviewSent(t, true, true, resOk)))
         == Keep(st.sessions[t].clients, Refused(st, t, resOk))
  {
    var e := DvrPreviewSent(t, true, true, resOk);
    forall c | c in st.sessions[t].clients
      ensures c in Leavers(st, e) <==> c in Refused(st, t, resOk)
    {
      MembersLeave(st, e, t, c);
    }
    KeepSame(st.sessions[t].clients, Leavers(st, e), Refused(st, t, resOk));
  }

  lemma FrameSession(st: State, t: SessionId, f: FrameId, sendOk: set<ClientId>, s: SessionId)
    requires Linked(st) && Enabled(st, DvrFrame(t, f, sendOk)) && ListKnown(st, s)
    ensures var st', e := FanOut(st, t, f, sendOk), DvrFrame(t, f, sendOk);
      st'.sessions.Keys == st.sessions.Keys && st'.sessions[s] == SessionNext(st.sessions[s], s, e, Leavers(st, e))
  {
    var e, failed := DvrFrame(t, f, sendOk), Takers(st, t, sendOk, false);
    FanOutSessionsAre(st, t, f, sendOk);
    if s != t {
      OtherSessionNext(st, e, s);
      hide FanOut, SessionNext, Leavers, Detach;
    } else {
      forall c | c in st.sessions[t].clients
        ensures c in Leavers(st, e) <==> c in failed
      {
        MembersLeave(st, e, t, c);
      }
      hide FanOut, Leavers, Takers, SessionNext, Detach;
      OnlyLeaving(st.sessions[t], t, e, Leavers(st, e), failed);
    }
  }

  lemma FanOutSessionsAre(st: State, t: SessionId, f: FrameId, sendOk: set<ClientId>)
    requires Linked(st) && t in st.sessions
    ensures FanOut(st, t, f, sendOk).sessions == st.sessions[t := Detach(st.sessions[t], Takers(st, t, sendOk, false))]
  {
    hide Detach, Takers;
  }

  // ----- Preview commands -----

  lemma JoinedSession(st: State, e: Event, s: SessionId)
    requires Linked(st) && Enabled(st, e) && e.Preview? && e.s in st.sessions && ListKnown(st, s)
    requires ClientOk(st.clients[e.c])
    ensures var st' := PreviewJoin(st, e.c, e.s, e.answered);
      st'.sessions.Keys == st.sessions.Keys && st'.sessions[s] == SessionNext(st.sessions[s], s, e, Leavers(st, e))
  {
    JoinLeavers(st, e);
    JoinSessions(st, e.c, e.s, e.answered);
    hide PreviewJoin, Leavers;
    if s == e.s {
      JoinNext(st.sessions[s], e, Leavers(st, e));
    } else {
      assert e.c !in st.sessions[s].clients;
      KeepMembers(st.sessions[s].clients, Leavers(st, e));
      hide Keep, Joined, Detach;
    }
  }

  lemma JoinSessions(st: State, c: ClientId, s: SessionId, ok: bool)
    requires c in st.clients && c in st.traces && s in st.sessions && st.clients[c].status == OnInit
    ensures PreviewJoin(st, c, s, ok).sessions
         == st.sessions[s := if ok then Joined(st.sessions[s], c) else Detach(Joined(st.sessions[s], c), {c})]
  {
    hide Detach, Joined;
  }

  lemma JoinNext(sess: MediaSession, e: Event, left: set<ClientId>)
    requires e.Preview? && left == (if e.answered then {} else {e.c}) && sess.clientSize == |sess.clients|
    ensures SessionNext(sess, e.s, e, left) == if e.answered then Joined(sess, e.c) else Detach(Joined(sess, e.c), {e.c})
  {
    KeepMembers([e.c] + sess.clients, {});
    hide Keep;
  }

  lemma JoinLeavers(st: State, e: Event)
    requires Linked(st) && Enabled(st, e) && e.Preview? && e.s in st.sessions
    requires ClientOk(st.clients[e.c])
    ensures Leavers(st, e) == if e.answered then {} else {e.c}
  {
  }

  lemma NewSessionNext(st: State, e: Event, s: SessionId)
    requires Linked(st) && Enabled(st, e) && e.Preview? && e.s !in st.sessions && ListKnown(st, s)
    ensures var st' := PreviewNew(st, e.c, e.key, e.s, e.initOk && e.connectOk, e.answered);
      && st'.sessions == (if e.initOk && e.connectOk then st.sessions[e.s := NewSession(e.key, e.c)] else st.sessions)
      && st'.sessions[s] == SessionNext(st.sessions[s], s, e, Leavers(st, e))
  {
    assert Leavers(st, e) == {};
    hide Leavers;
    StaysSame(st.sessions[s], s, e);
    hide SessionNext;
  }

  lemma StaysSame(sess: MediaSession, s: SessionId, e: Event)
    requires sess.clientSize == |sess.clients| && e.Preview? && e.s != s
    ensures SessionNext(sess, s, e, {}) == sess
  {
    KeepMembers(sess.clients, {});
    hide Keep;
  }

  lemma TimerSession(st: State, e: Event, s: SessionId)
    requires Linked(st) && Enabled(st, e) && (e.ExitTimer? || e.DvrClosed?) && ListKnown(st, s)
    ensures s in Step(st, e).sessions <==> e != DvrClosed(s)
    ensures Step(st, e).sessions.Keys <= st.sessions.Keys
    ensures s in Step(st, e).sessions ==> Step(st, e).sessions[s] == SessionNext(st.sessions[s], s, e, Leavers(st, e))
  {
    assert Leavers(st, e) == {};
    TimerNext(st.sessions[s], s, e);
    hide Keep, Leavers, SessionNext;
  }

  lemma TimerNext(sess: MediaSession, s: SessionId, e: Event)
    requires sess.clientSize == |sess.clients| && (e.ExitTimer? || e.DvrClosed?)
    ensures SessionNext(sess, s, e, {}) ==
      if e != ExitTimer(s) then sess
      else if sess.clientSize == 0 then sess.(timer := false, closing := true, reading := false)
      else sess.(timer := false)
  {
    KeepMembers(sess.clients, {});
    hide Keep;
  }

  lemma DvrSession(st: State, e: Event, s: SessionId)
    requires Linked(st) && Enabled(st, e) && ListKnown(st, s)
    requires e.DvrConnected? || e.DvrPreviewSent? || e.DvrReadError? || e.DvrFrame?
    ensures Step(st, e).sessions.Keys == st.sessions.Keys
    ensures Step(st, e).sessions[s] == SessionNext(st.sessions[s], s, e, Leavers(st, e))
  {
    hide StopSession, DvrReached, DvrAsked, FanOut, ListKnown, SessionNext, Leavers;
    match e
    case DvrConnected(t, ok, written, resOk) => ReachedSession(st, t, ok, written, resOk, s);
    case DvrPreviewSent(t, ok, readOk, resOk) => AskedSession(st, t, ok, readOk, resOk, s);
    case DvrReadError(t, resOk) => BrokenSession(st, t, resOk, s);
    case DvrFrame(t, f, sendOk) => FrameSession(st, t, f, sendOk, s);
  }

  lemma PreviewSession(st: State, e: Event, s: SessionId)
    requires Linked(st) && Enabled(st, e) && e.Preview? && ListKnown(st, s) && ClientOk(st.clients[e.c])
    ensures s in Step(st, e).sessions && Step(st, e).sessions[s] == SessionNext(st.sessions[s], s, e, Leavers(st, e))
  {
    assert s in st.sessions;
    hide PreviewJoin, PreviewNew, ListKnown, SessionNext, Leavers, ClientOk;
    if e.s in st.sessions {
      JoinedSession(st, e, s);
    } else {
      NewSessionNext(st, e, s);
    }
  }

  /** Main result: every callback does to every session what its own record, the callback and the
      clients that leave say, and nothing else. */
  lemma SessionEffect(st: State, e: Event, s: SessionId)
    requires Inv(st) && Linked(st) && Enabled(st, e) && s in st.sessions
    ensures s !in Step(st, e).sessions ==> e == DvrClosed(s)
    ensures s in Step(st, e).sessions ==> Step(st, e).sessions[s] == SessionNext(st.sessions[s], s, e, Leavers(st, e))
  {
    InvListKnown(st, s);
    assert e.Preview? ==> ClientOk(st.clients[e.c]);
    hide Inv, Step, Enabled, Linked, ListKnown, SessionNext, Leavers, ClientOk;
    if e.Preview? {
      PreviewSession(st, e, s);
    } else if e.DvrConnected? || e.DvrPreviewSent? || e.DvrReadError? || e.DvrFrame? {
      DvrSession(st, e, s);
    } else if e.ExitTimer? || e.DvrClosed? {
      TimerSession(st, e, s);
    } else {
      OwnSessionNext(st, e, s);
    }
  }
}
