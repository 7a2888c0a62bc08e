/** The callbacks of the server as they are written: `src/smts_session.c`, `src/smts_client_impl.c`,
    `src/mock/smts_mock_dvr_impl.c` and the registry calls of `src/session_manager.c`.  Each of them
    is proved to be one step of `PreviewModel`; the preconditions are what keeps memory safe.

    The loops go over the list of clients as it is when they begin: that is what QUEUE_FOREACH does
    when the body unlinks only the current element, see `CircularList.ForEachRemoving`. */
module PreviewServer {
  import opened CircularList
  import opened SessionRegistry
  import opened PreviewModel
  import opened PreviewInvariants
  import opened PreviewRuns
  import opened PreviewSafety
  import opened PreviewLoops
  import opened PreviewKeys

  const SMTS_OK := 0

  class Server {
    var clients: map<ClientId, Client>
    var sessions: map<SessionId, MediaSession>
    var registry: seq<SessionId>
    var refs: map<FrameId, nat>
    ghost var live: set<Object>
    ghost var freed: multiset<Object>
    ghost var received: map<SessionId, seq<FrameId>>
    ghost var traces: map<ClientId, Trace>
    /** The calls of delete_session, in order. */
    ghost var deletes: seq<SessionId>

    ghost function Value(): State
      reads this
    {
      State(clients, sessions, registry, refs, live, freed, received, traces)
    }

    constructor ()
      ensures Value() == INITIAL && deletes == []
    {
      clients, sessions, registry, refs := map[], map[], [], map[];
      live, freed, received, traces, deletes := {}, multiset{}, map[], map[], [];
    }

    // ----- Memory -----

    ghost method Malloc(objs: set<Object>)
      requires forall o :: o in objs ==> Unused(Value(), o)
      modifies `live
      ensures Value() == Alloc(old(Value()), objs)
    {
      live := live + objs;
    }

    /** Only what is allocated is freed. */
    ghost method FreeAll(objs: set<Object>)
      requires objs <= live
      modifies `live, `freed
      ensures Value() == Free(old(Value()), objs)
    {
      live, freed := live - objs, freed + multiset(objs);
    }

    // ----- Registry -----

    /** The first registered session with a key, if there is one. */
    method GetSession(key: SessionKey) returns (found: Option<SessionId>)
      requires forall t :: t in registry ==> t in sessions && SessionObj(t) in live
      ensures found.Some? ==> found.value in registry && sessions[found.value].key == key
      ensures found.None? ==> forall t :: t in registry ==> sessions[t].key != key
    {
      for i := 0 to |registry|
        invariant forall j :: 0 <= j < i ==> sessions[registry[j]].key != key
      {
        if sessions[registry[i]].key == key {
          return Some(registry[i]);
        }
      }
      return None;
    }

    /** delete_session: unlinks the session if one with its key is registered. */
    method DeleteSession(s: SessionId)
      requires OwnsKey(Value(), s)
      modifies `registry, `deletes
      ensures registry == Keep(old(registry), {s}) && deletes == old(deletes) + [s]
    {
      deletes := deletes + [s];
      var found := GetSession(sessions[s].key);
      KeepMembers(registry, {s});
      if found.Some? {
        registry := Keep(registry, {s});
      }
    }

    // ----- Clients -----

    /** uv_close: never called twice for a client. */
    method CloseSocket(c: ClientId)
      requires c in clients && clients[c].closes == 0 && ClientObj(c) in live
      modifies `clients
      ensures clients == old(clients)[c := old(clients)[c].(closes := 1)]
    {
      clients := clients[c := clients[c].(closes := clients[c].closes + 1)];
    }

    method MediaClientStopPreview(s: SessionId, c: ClientId)
      requires CanStop(Value(), c) && clients[c].session == Some(s)
      modifies `clients, `sessions
      ensures clients == old(clients)[c := old(clients)[c].(session := None)]
      ensures sessions == old(sessions)[s := Detach(old(sessions)[s], {c})]
    {
      hide Keep, Distinct;
      var sess := sessions[s];
      KeepOne(sess.clients, c);
      sess := sess.(clients := Keep(sess.clients, {c}));
      sess := sess.(clientSize := sess.clientSize - 1);
      clients := clients[c := clients[c].(session := None)];
      if sess.clientSize == 0 {
        sess := sess.(timer := true);
      }
      sessions := sessions[s := sess];
    }

    method StopSmtsClient(c: ClientId)
      requires CanStop(Value(), c)
      modifies `clients, `sessions
      ensures Value() == StopOne(old(Value()), c)
    {
      hide Detach, Distinct;
      if clients[c].status != OnStop {
        clients := clients[c := clients[c].(status := OnStop)];
        if clients[c].session.Some? {
          MediaClientStopPreview(clients[c].session.value, c);
        }
        CloseSocket(c);
      }
    }

    method SmtsClientSendPreviewRes(c: ClientId, status: int, ok: bool)
      requires CanStop(Value(), c)
      modifies `clients, `sessions
      ensures Value() == PreviewRes(old(Value()), c, status, ok) && CanStop(Value(), c)
    {
      hide Detach, Distinct;
      var r := status;
      if clients[c].status == OnInit {
        clients := clients[c := clients[c].(status := OnSendPreviewRes)];
        r := if ok then SMTS_OK else -1;
        if ok {
          clients := clients[c := clients[c].(resPending := true)];
        }
      }
      if r != SMTS_OK {
        StopSmtsClient(c);
      }
    }

    // ----- Frames -----

    method OnSmtsClientSendFrame(f: FrameId)
      requires f in refs && refs[f] > 0 && FrameObjects(f) <= live
      modifies `refs, `live, `freed
      ensures Value() == Dropped(old(Value()), f)
    {
      refs := refs[f := refs[f] - 1];
      if refs[f] == 0 {
        FreeAll(FrameObjects(f));
        refs := refs - {f};
        assert refs == old(refs) - {f};
      }
    }

    method SmtsClientSendFrame(c: ClientId, f: FrameId, ok: bool)
      requires Sendable(Value(), c, f) && CanStop(Value(), c) && FrameObjects(f) <= live
      modifies `clients, `sessions, `refs, `live, `freed, `received, `traces
      ensures Value() == SendFrame(old(Value()), c, f, ok)
    {
      hide Detach, Distinct, Dropped;
      if clients[c].status == OnSendFrames {
        if ok {
          clients := clients[c := clients[c].(pending := clients[c].pending + {f})];
          traces := traces[c := traces[c].(accepted := traces[c].accepted + [f])];
        } else {
          DroppedCanStop(Value(), f, c);
          OnSmtsClientSendFrame(f);
          StopSmtsClient(c);
        }
      } else {
        OnSmtsClientSendFrame(f);
      }
    }

    // ----- Loops over the clients of a session -----

    method StopMediaSession(s: SessionId, resOk: set<ClientId>)
      requires Inv(Value()) && s in sessions && OwnsKey(Value(), s)
      modifies `clients, `sessions, `registry, `deletes
      ensures Value() == StopSession(old(Value()), s, resOk) && Inv(Value()) && OwnsKey(Value(), s)
      ensures deletes == old(deletes) + [s]
    {
      ghost var st := Value();
      ghost var rest := Keep(registry, {s});
      StopSessionInv(st, s, resOk);
      hide Inv, StopSome, StopTurn, PreviewRes, StopOne, CanStop, Seen, OwnsKey;
      StoppedOwnsKey(st, s, resOk);
      DeleteSession(s);
      var list := sessions[s].clients;
      SessionIsCounted(st, s);
      StopBegins(st, s, resOk);
      SeenEnds(list);
      for i := 0 to |list|
        invariant s in sessions && Value() == StopSome(st, s, resOk, Seen(list, i)).(registry := rest)
        invariant deletes == old(deletes) + [s]
      {
        var c, status := list[i], if sessions[s].running then 1 else 0;
        SeenNext(list, i);
        StopTurnIsNext(st, s, resOk, Seen(list, i), c, status);
        StopTurnRegistry(StopSome(st, s, resOk, Seen(list, i)), rest, c, status, c in resOk);
        StopVisited(c, status, c in resOk);
        assert sessions.Keys == st.sessions.Keys by {
          StopSomeKeys(st, s, resOk, Seen(list, i + 1));
        }
      }
      StopEnds(st, s, resOk);
    }

    method StopVisited(c: ClientId, status: int, ok: bool)
      requires CanStop(Value(), c)
      modifies `clients, `sessions
      ensures Value() == StopTurn(old(Value()), c, status, ok)
    {
      hide StopOne, PreviewRes, CanStop;
      SmtsClientSendPreviewRes(c, status, ok);
      StopSmtsClient(c);
    }

    method RespondToClients(s: SessionId, resOk: set<ClientId>)
      requires Inv(Value()) && s in sessions
      modifies `clients, `sessions
      ensures Value() == RespondAll(old(Value()), s, resOk) && Inv(Value())
    {
      ghost var st := Value();
      RespondAllInv(st, s, resOk);
      hide Inv, RespondSome, PreviewRes, CanStop, Seen;
      SessionIsCounted(st, s);
      RespondBegins(st, s, resOk);
      var list := sessions[s].clients;
      SeenEnds(list);
      for i := 0 to |list|
        invariant Value() == RespondSome(st, s, resOk, Seen(list, i))
      {
        SeenNext(list, i);
        RespondTurn(st, s, resOk, Seen(list, i), list[i]);
        SmtsClientSendPreviewRes(list[i], SMTS_OK, list[i] in resOk);
      }
      RespondEnds(st, s, resOk);
    }

    /** Main result: in the loop the reference count is the number of clients that took the frame
        and of those still to be visited, and the frame is allocated as long as it is used. */
    method FanOutFrame(s: SessionId, f: FrameId, sendOk: set<ClientId>)
      requires Inv(Value()) && s in sessions && sessions[s].clients != [] && f !in refs
      requires forall o :: o in FrameObjects(f) ==> Unused(Value(), o)
      modifies `clients, `sessions, `refs, `live, `freed, `received, `traces
      ensures Value() == FanOut(old(Value()), s, f, sendOk)
    {
      ghost var st := Value();
      InvIsLinked(st);
      SessionIsCounted(st, s);
      hide Inv, FanOutSome, SendFrame, CanStop, Sendable, Seen, Takers, FanOut;
      HeaderIsUnused(st, s, f);
      FrameArrives(s, f);
      Malloc({Header(f)});
      refs := refs[f := sessions[s].clientSize];
      FanOutBegins(st, s, f, sendOk, |st.sessions[s].clients|);
      SendToAll(sessions[s].clients, f, st, s, sendOk);
      FanOutEnds(st, s, f, sendOk);
    }

    method SendToAll(list: seq<ClientId>, f: FrameId, ghost st: State, ghost s: SessionId, sendOk: set<ClientId>)
      requires Inv(st) && Linked(st) && s in st.sessions && list == st.sessions[s].clients && Distinct(list)
      requires f !in st.refs && Value() == FanOutSome(st, s, f, sendOk, {}, |list|)
      modifies `clients, `sessions, `refs, `live, `freed, `received, `traces
      ensures Value() == FanOutSome(st, s, f, sendOk, Seen(list, |list|), 0)
    {
      hide Inv, FanOutSome, Seen, Distinct;
      SeenEnds(list);
      for i := 0 to |list|
        invariant Value() == FanOutSome(st, s, f, sendOk, Seen(list, i), |list| - i)
      {
        SeenNext(list, i);
        SendToOne(list[i], f, list[i] in sendOk, st, s, sendOk, Seen(list, i), |list| - i);
      }
    }

    /** One turn of that loop. */
    method SendToOne(c: ClientId, f: FrameId, ok: bool,
                     ghost st: State, ghost s: SessionId, ghost sendOk: set<ClientId>, ghost seen: set<ClientId>,
                     ghost rest: nat)
      requires Inv(st) && Linked(st) && s in st.sessions && c in st.sessions[s].clients && c !in seen
      requires f !in st.refs && rest > 0 && ok == (c in sendOk)
      requires Value() == FanOutSome(st, s, f, sendOk, seen, rest)
      modifies `clients, `sessions, `refs, `live, `freed, `received, `traces
      ensures Value() == FanOutSome(st, s, f, sendOk, seen + {c}, rest - 1)
    {
      SendTurn(st, s, f, sendOk, seen, rest, c);
      hide Inv, FanOutSome, SendFrame, CanStop, Sendable;
      SmtsClientSendFrame(c, f, ok);
    }

    /** A frame is decoded: its record and payload are allocated. */
    ghost method FrameArrives(s: SessionId, f: FrameId)
      requires s in received && Unused(Value(), Payload(f)) && Unused(Value(), Record(f))
      modifies `live, `received
      ensures Value() == Received(old(Value()), s, f)
    {
      Malloc({Payload(f), Record(f)});
      received := received[s := received[s] + [f]];
    }

    /** on_smts_dvr_client_recv_frame */
    method OnSmtsDvrClientRecvFrame(s: SessionId, f: FrameId, sendOk: set<ClientId>)
      requires Inv(Value()) && Enabled(Value(), DvrFrame(s, f, sendOk))
      modifies this
      ensures Value() == FanOut(old(Value()), s, f, sendOk)
      ensures deletes == old(deletes)
    {
      ghost var st := Value();
      InvIsLinked(st);
      FrameIsNew(st, s, f);
      SessionIsCounted(st, s);
      hide Inv, FanOut;
      if sessions[s].clientSize > 0 {
        FanOutFrame(s, f, sendOk);
      } else {
        FanOutToNobody(st, s, f, sendOk);
        DropFrame(s, f);
      }
    }

    /** destroy_smts_frame, without any client. */
    ghost method DropFrame(s: SessionId, f: FrameId)
      requires s in received && Unused(Value(), Payload(f)) && Unused(Value(), Record(f))
      modifies `live, `freed, `received
      ensures Value() == Free(Received(old(Value()), s, f), {Payload(f), Record(f)})
    {
      FrameArrives(s, f);
      FreeAll({Payload(f), Record(f)});
    }

    // ----- Callbacks of a client -----

    /** client_on_connection */
    method ClientOnConnection(c: ClientId, readOk: bool)
      requires Enabled(Value(), Connect(c, readOk))
      modifies this
      ensures Value() == Connected(old(Value()), c, readOk)
      ensures deletes == old(deletes)
    {
      Malloc({ClientObj(c)});
      traces := traces[c := NO_TRACE];
      clients := clients[c := Client(OnInit, None, 0, false, false, false, {})];
      if !readOk {
        CloseSocket(c);
      }
      assert clients == old(clients)[c := NewClient(readOk)];
    }

    method OnSmtsClientSendPreviewResCb(c: ClientId)
      requires c in clients && c in traces && ClientObj(c) in live
      modifies this
      ensures Value() == ResponseSent(old(Value()), c)
      ensures deletes == old(deletes)
    {
      traces := traces[c := Responded(Value(), traces[c])];
      clients := clients[c := clients[c].(resPending := false)];
      clients := clients[c := clients[c].(status := OnSendFrames)];
    }

    method OnSmtsClientSendErrorPreviewResCb(c: ClientId)
      requires CanStop(Value(), c)
      modifies this
      ensures Value() == ErrorResponseSent(old(Value()), c)
      ensures deletes == old(deletes)
    {
      hide StopOne, Distinct;
      clients := clients[c := clients[c].(errPending := false)];
      StopSmtsClient(c);
    }

    method OnSmtsClientSendFrameCb(c: ClientId, f: FrameId, ok: bool)
      requires CanStop(Value(), c) && f in refs && refs[f] > 0 && FrameObjects(f) <= live
      modifies this
      ensures Value() == FrameEnded(old(Value()), c, f, ok)
      ensures deletes == old(deletes)
    {
      hide StopOne, Distinct, Dropped;
      clients := clients[c := clients[c].(pending := clients[c].pending - {f})];
      DroppedCanStop(Value(), f, c);
      OnSmtsClientSendFrame(f);
      if !ok {
        StopSmtsClient(c);
      }
    }

    /** The close callback frees the client. */
    method ClientCloseCb(c: ClientId)
      requires ClientObj(c) in live
      modifies this
      ensures Value() == ClientGone(old(Value()), c)
      ensures deletes == old(deletes)
    {
      FreeAll({ClientObj(c)});
      clients := clients - {c};
    }

    // ----- Callbacks of a DVR connection -----

    /** If the command cannot be written, on_smts_dvr_client_send_preview is called at once. */
    method SmtsDvrClientPreview(s: SessionId, written: bool, resOk: set<ClientId>) returns (r: int)
      requires Inv(Value()) && s in sessions && OwnsKey(Value(), s)
      modifies this
      ensures r == SMTS_OK <==> written
      ensures Value() == if written then SetSession(old(Value()), s, old(Value()).sessions[s].(previewPending := true))
                         else StopSession(old(Value()), s, resOk)
      ensures !written ==> Inv(Value()) && OwnsKey(Value(), s)
      ensures deletes == old(deletes) + if written then [] else [s]
    {
      hide Inv, StopMember;
      if written {
        sessions := sessions[s := sessions[s].(previewPending := true)];
        return SMTS_OK;
      } else {
        StopMediaSession(s, resOk);
        return -1;
      }
    }

    /** The session is stopped once more when the command could not be written. */
    method AskForPreview(s: SessionId, written: bool, resOk: set<ClientId>)
      requires Inv(Value()) && s in sessions && OwnsKey(Value(), s)
      modifies this
      ensures Value() == if written then SetSession(old(Value()), s, old(Value()).sessions[s].(previewPending := true))
                         else StopSession(old(Value()), s, resOk)
      ensures deletes == old(deletes) + if written then [] else [s, s]
    {
      ghost var st := Value();
      hide Inv, StopSession;
      var r := SmtsDvrClientPreview(s, written, resOk);
      if r != SMTS_OK {
        StopSessionTwice(st, s, resOk, resOk);
        StopMediaSession(s, resOk);
      }
    }

    method OnConnectedToDvr(s: SessionId, ok: bool, written: bool, resOk: set<ClientId>)
      requires Inv(Value()) && s in sessions && OwnsKey(Value(), s)
      modifies this
      ensures Value() == DvrReached(old(Value()), s, ok && written, resOk)
      ensures deletes == old(deletes) + if !ok then [s] else if !written then [s, s] else []
    {
      hide Inv, StopSession, OwnsKey;
      ConnectOver(s);
      if ok {
        SetTwice(old(sessions), s, sessions[s], sessions[s].(previewPending := true));
        AskForPreview(s, written, resOk);
      } else {
        StopMediaSession(s, resOk);
      }
    }

    /** The connect request is over. */
    method ConnectOver(s: SessionId)
      requires Inv(Value()) && s in sessions && OwnsKey(Value(), s)
      modifies `sessions
      ensures sessions == old(sessions)[s := old(sessions)[s].(connectPending := false)]
      ensures Inv(Value()) && OwnsKey(Value(), s)
    {
      hide Inv, OwnsKey;
      ConnectEnds(Value(), s);
      FlagsOwnKey(Value(), s, sessions[s].(connectPending := false));
      sessions := sessions[s := sessions[s].(connectPending := false)];
    }

    method OnSmtsDvrClientSendPreview(s: SessionId, ok: bool, readOk: bool, resOk: set<ClientId>)
      requires Inv(Value()) && s in sessions && OwnsKey(Value(), s) && (ok && readOk ==> !sessions[s].closing)
      modifies this
      ensures Value() == DvrAsked(old(Value()), s, ok, readOk, resOk)
      ensures deletes == old(deletes) + if ok && readOk then [] else [s]
    {
      hide Inv, StopSession, OwnsKey;
      PreviewEnds(Value(), s);
      FlagsOwnKey(Value(), s, sessions[s].(previewPending := false));
      sessions := sessions[s := sessions[s].(previewPending := false)];
      if !ok {
        StopMediaSession(s, resOk);
      } else {
        RespondedOwnsKey(Value(), s, resOk);
        if sessions[s].clientSize > 0 {
          RespondToClients(s, resOk);
        } else {
          RespondToNobody(Value(), s, resOk);
        }
        StartReading(s, readOk, resOk);
      }
    }

    method StartReading(s: SessionId, readOk: bool, resOk: set<ClientId>)
      requires Inv(Value()) && s in sessions && OwnsKey(Value(), s) && (readOk ==> !sessions[s].closing)
      modifies this
      ensures Value() == var st := SetSession(old(Value()), s, old(Value()).sessions[s].(running := true, reading := readOk));
                         if readOk then st else StopSession(st, s, resOk)
      ensures deletes == old(deletes) + if readOk then [] else [s]
    {
      hide Inv, StopSession, OwnsKey;
      MarkReading(s, readOk);
      if !readOk {
        StopMediaSession(s, resOk);
      }
    }

    method MarkReading(s: SessionId, readOk: bool)
      requires Inv(Value()) && s in sessions && OwnsKey(Value(), s) && (readOk ==> !sessions[s].closing)
      modifies `sessions
      ensures sessions == old(sessions)[s := old(sessions)[s].(running := true, reading := readOk)]
      ensures Inv(Value()) && OwnsKey(Value(), s)
    {
      hide Inv, OwnsKey;
      ghost var was := sessions[s];
      ReadingMarked(Value(), s, readOk);
      sessions := sessions[s := sessions[s].(running := true)];
      sessions := sessions[s := sessions[s].(reading := readOk)];
      SetTwice(old(sessions), s, was.(running := true), was.(running := true, reading := readOk));
    }

    method OnDvrReadError(s: SessionId, resOk: set<ClientId>)
      requires Inv(Value()) && s in sessions && OwnsKey(Value(), s)
      modifies this
      ensures Value() == StopSession(SetSession(old(Value()), s, old(Value()).sessions[s].(reading := false)), s, resOk)
      ensures deletes == old(deletes) + [s]
    {
      hide Inv, StopSession, OwnsKey;
      FlagsInv(Value(), s, sessions[s].(reading := false));
      FlagsOwnKey(Value(), s, sessions[s].(reading := false));
      sessions := sessions[s := sessions[s].(reading := false)];
      StopMediaSession(s, resOk);
    }

    /** The timer fires once: if no client came back, the session closes its DVR connection. */
    method SessionExitCb(s: SessionId)
      requires Inv(Value()) && s in sessions && OwnsKey(Value(), s)
      requires !sessions[s].closing
      modifies this
      ensures Value() == TimerFired(old(Value()), s)
      ensures deletes == old(deletes) + if old(sessions)[s].clientSize == 0 then [s] else []
    {
      hide Inv, Keep, Distinct;
      sessions := sessions[s := sessions[s].(timer := false)];
      if sessions[s].clientSize == 0 {
        DeleteSession(s);
        SmtsDvrClientStop(s);
        SetTwice(old(sessions), s, old(sessions)[s].(timer := false), sessions[s]);
      }
    }

    /** uv_close: never called twice for a DVR connection; its reads end. */
    method SmtsDvrClientStop(s: SessionId)
      requires s in sessions && !sessions[s].closing
      modifies `sessions
      ensures sessions == old(sessions)[s := old(sessions)[s].(closing := true, reading := false)]
    {
      sessions := sessions[s := sessions[s].(closing := true)];
      sessions := sessions[s := sessions[s].(reading := false)];
      SetTwice(old(sessions), s, old(sessions)[s].(closing := true), sessions[s]);
    }

    /** The close callback frees the session: no client points to it and no timer will fire. */
    method OnDvrClientCloseCb(s: SessionId)
      requires SessionObj(s) in live
      requires s in sessions && sessions[s].clients == [] && !sessions[s].timer
      modifies this
      ensures Value() == SessionGone(old(Value()), s)
      ensures deletes == old(deletes)
    {
      FreeAll({SessionObj(s)});
      sessions := sessions - {s};
    }

    // ----- Preview commands -----

    method AddSmtsClient(s: SessionId, c: ClientId)
      requires s in sessions && c in clients && ListLive(Value(), s) && ClientObj(c) in live
      modifies `clients, `sessions
      ensures sessions == old(sessions)[s := Joined(old(sessions)[s], c)]
      ensures clients == old(clients)[c := old(clients)[c].(session := Some(s))]
    {
      sessions := sessions[s := sessions[s].(clients := [c] + sessions[s].clients)];
      sessions := sessions[s := sessions[s].(clientSize := sessions[s].clientSize + 1)];
      clients := clients[c := clients[c].(session := Some(s))];
    }

    /** add_session */
    method AddSession(s: SessionId)
      requires s in sessions
      requires forall t :: t in registry ==> t in sessions && SessionObj(t) in live && sessions[t].key != sessions[s].key
      modifies `registry
      ensures registry == [s] + old(registry)
    {
      var found := GetSession(sessions[s].key);
      if found.None? {
        registry := [s] + registry;
      }
    }

    /** A new session with its first client; `s` is what malloc returns. */
    method NewMediaSession(c: ClientId, key: SessionKey, s: SessionId)
      requires c in clients && ClientObj(c) in live && Unused(Value(), SessionObj(s))
      modifies this
      ensures Value() == Alloc(old(Value()), {SessionObj(s)}).(
        clients := old(clients)[c := old(clients)[c].(session := Some(s))],
        sessions := old(sessions)[s := NewSession(key, c).(connectPending := false)])
      ensures deletes == old(deletes)
    {
      Malloc({SessionObj(s)});
      var sess := MediaSession(key, [], 0, false, false, false, false, false, false);
      sessions := sessions[s := sess];
      AddSmtsClient(s, c);
      assert [c] + [] == [c];
      SetTwice(old(sessions), s, sess, sessions[s]);
    }

    /** Registers a session and starts to connect it; undone if that cannot be started. */
    method RegisterAndConnect(s: SessionId, connectOk: bool) returns (r: int)
      requires s in sessions && s !in registry
      requires SessionObj(s) in live
      requires forall t :: t in registry ==> t in sessions && SessionObj(t) in live && sessions[t].key != sessions[s].key
      modifies `sessions, `registry, `deletes
      ensures r == SMTS_OK <==> connectOk
      ensures if connectOk then
          registry == [s] + old(registry) && sessions == old(sessions)[s := old(sessions)[s].(connectPending := true)]
        else registry == old(registry) && sessions == old(sessions)
      ensures deletes == old(deletes) + if connectOk then [] else [s]
    {
      hide Keep;
      AddSession(s);
      r := if connectOk then SMTS_OK else -1;
      if r == SMTS_OK {
        sessions := sessions[s := sessions[s].(connectPending := true)];
      } else {
        DeleteSession(s);
        UnregisterNew(old(registry), s);
      }
    }

    /** The client is detached and the new session freed. */
    method InitSessionError(c: ClientId, s: SessionId)
      requires c in clients && SessionObj(s) in live
      modifies this
      ensures Value() == Free(old(Value()), {SessionObj(s)}).(
        clients := old(clients)[c := old(clients)[c].(session := None)], sessions := old(sessions) - {s})
      ensures deletes == old(deletes)
    {
      clients := clients[c := clients[c].(session := None)];
      FreeAll({SessionObj(s)});
      sessions := sessions - {s};
    }

    method StartNewSession(c: ClientId, key: SessionKey, s: SessionId, initOk: bool, connectOk: bool) returns (r: int)
      requires c in clients && clients[c].session.None? && c in traces && ClientObj(c) in live
      requires s !in sessions && s !in registry && Unused(Value(), SessionObj(s))
      requires forall t :: t in registry ==> t in sessions && SessionObj(t) in live && sessions[t].key != key
      modifies this
      ensures r == SMTS_OK <==> initOk && connectOk
      ensures Value() == if initOk && connectOk then SessionStarted(old(Value()), c, key, s)
                         else Free(Alloc(old(Value()), {SessionObj(s)}), {SessionObj(s)})
      ensures deletes == old(deletes) + if initOk && !connectOk then [s] else []
    {
      NewMediaSession(c, key, s);
      ghost var joined := sessions[s];
      r := if initOk then SMTS_OK else -1;
      if r == SMTS_OK {
        r := RegisterAndConnect(s, connectOk);
      }
      if r == SMTS_OK {
        received, traces := received[s := []], traces[c := traces[c].(home := Some(s))];
        SetTwice(old(sessions), s, joined, sessions[s]);
      } else {
        InitSessionError(c, s);
        SetAndRemove(old(sessions), s, joined);
        SetBack(old(clients), c, old(clients)[c].(session := Some(s)));
      }
    }

    method MarkAndJoin(c: ClientId, s: SessionId)
      requires c in clients && c in traces && s in sessions && ListLive(Value(), s) && ClientObj(c) in live
      modifies this
      ensures Value() == Join(old(Value()), c, s)
      ensures deletes == old(deletes)
    {
      clients := clients[c := clients[c].(previewed := true)];
      ghost var k := clients[c];
      AddSmtsClient(s, c);
      SetTwice(old(clients), c, k, clients[c]);
      traces := traces[c := traces[c].(home := Some(s))];
    }

    /** A client joins a session that is registered. */
    method JoinSession(c: ClientId, s: SessionId, answered: bool)
      requires Inv(Value()) && c in clients && c in traces && s in registry && s in sessions
      requires clients[c].closes == 0 && !clients[c].previewed
      modifies this
      ensures Value() == PreviewJoin(old(Value()), c, s, answered)
      ensures deletes == old(deletes)
    {
      hide Inv, CanStop, Answer, PreviewRes;
      JoinInv(Value(), c, s);
      InvListLive(Value(), s);
      ClientIsLive(Value(), c);
      InvCanStop(Join(Value(), c, s), c);
      MarkAndJoin(c, s);
      AnswerIsPreviewRes(Value(), c, s, answered);
      SmtsClientSendPreviewRes(c, SMTS_OK, answered);
    }

    /** smts_start_preview and media_client_start_preview: the client joins the session with the
        key, or starts one; if that fails it is told, and stopped when it has been told. */
    method SmtsStartPreview(c: ClientId, key: SessionKey, s: SessionId, initOk: bool, connectOk: bool, answered: bool)
      requires Inv(Value()) && Linked(Value()) && Enabled(Value(), Preview(c, key, s, initOk, connectOk, answered))
      modifies this
      ensures Value() == Step(old(Value()), Preview(c, key, s, initOk, connectOk, answered))
      ensures deletes == old(deletes) + DeleteCalls(old(Value()), Preview(c, key, s, initOk, connectOk, answered))
    {
      ghost var st := Value();
      hide Inv, PreviewJoin, SessionStarted;
      NewKey(st, c, key, s, initOk, connectOk, answered);
      ClientIsLive(st, c);
      var found := GetSession(key);
      if found.Some? {
        JoinSession(c, found.value, answered);
      } else {
        clients := clients[c := clients[c].(previewed := true)];
        var r := StartNewSession(c, key, s, initOk, connectOk);
        if r != SMTS_OK {
          clients := clients[c := clients[c].(errPending := answered)];
        }
      }
    }

    // ----- The event loop -----

    /** Main result: every callback is one step of the model, and keeps the invariant. */
    method Handle(e: Event)
      requires Inv(Value()) && Linked(Value()) && Enabled(Value(), e)
      modifies this
      ensures Value() == Step(old(Value()), e)
      ensures deletes == old(deletes) + DeleteCalls(old(Value()), e)
    {
      hide Inv, StopOne, StopSession, FanOut, CanStop;
      EventIsSafe(Value(), e);
      match e
      case Connect(c, readOk) => ClientOnConnection(c, readOk);
      case Preview(c, key, s, initOk, connectOk, answered) => SmtsStartPreview(c, key, s, initOk, connectOk, answered);
      case ReadError(c) => StopSmtsClient(c);
      case ResponseDone(c) => OnSmtsClientSendPreviewResCb(c);
      case ErrorResponseDone(c) => OnSmtsClientSendErrorPreviewResCb(c);
      case FrameDone(c, f, ok) => OnSmtsClientSendFrameCb(c, f, ok);
      case ClientClosed(c) => ClientCloseCb(c);
      case DvrConnected(s, ok, written, resOk) => OnConnectedToDvr(s, ok, written, resOk);
      case DvrPreviewSent(s, ok, readOk, resOk) => OnSmtsDvrClientSendPreview(s, ok, readOk, resOk);
      case DvrFrame(s, f, sendOk) => OnSmtsDvrClientRecvFrame(s, f, sendOk);
      case DvrReadError(s, resOk) => OnDvrReadError(s, resOk);
      case ExitTimer(s) => SessionExitCb(s);
      case DvrClosed(s) => OnDvrClientCloseCb(s);
    }

    /** Main result: whatever the order of the callbacks, the server does what the model does, and
        everything proved of its runs holds of the server. */
    method Serve(es: seq<Event>)
      requires Inv(Value()) && Runs(Value(), es)
      modifies this
      ensures Value() == After(old(Value()), es) && Inv(Value())
    {
      ghost var st := Value();
      hide Inv, Step, Enabled, Linked;
      assert es[|es|..] == [];
      for i := 0 to |es|
        invariant Inv(Value()) && Runs(Value(), es[i..]) && After(Value(), es[i..]) == After(st, es)
      {
        assert es[i..][0] == es[i] && es[i..][1..] == es[i + 1..];
        StepInv(Value(), es[i]);
        Handle(es[i]);
      }
    }
  }

  /** The only registered session with the key of a preview command is the one it joins. */
  lemma NewKey(st: State, c: ClientId, key: SessionKey, s: SessionId, initOk: bool, connectOk: bool, answered: bool)
    requires Inv(st) && Linked(st) && Enabled(st, Preview(c, key, s, initOk, connectOk, answered))
    ensures forall t :: t in st.registry ==> t in st.sessions && SessionObj(t) in st.live
    ensures forall t :: t in st.registry && st.sessions[t].key == key ==> t == s
    ensures s in st.sessions ==> s in st.registry && st.sessions[s].key == key
    ensures s !in st.sessions ==> s !in st.registry
    ensures st.clients[c].session.None?
  {
    RegisteredAreOpen(st);
    hide Membership, FramesOk, AccountOk, HistoryOk, Distinct, SessionOk;
    assert ClientOk(st.clients[c]);
  }

  lemma RegisteredAreOpen(st: State)
    requires Inv(st)
    ensures forall t :: t in st.registry ==> t in st.sessions && !Quiet(st.sessions[t])
  {
    hide ClientsOk, Membership, FramesOk, MemoryOk, AccountOk, HistoryOk, Distinct;
    forall t | t in st.registry
      ensures t in st.sessions && !Quiet(st.sessions[t])
    {
      assert SessionOk(st.sessions[t], true);
    }
  }

  lemma FlagsOwnKey(st: State, s: SessionId, sess: MediaSession)
    requires OwnsKey(st, s) && sess.key == st.sessions[s].key
    ensures OwnsKey(SetSession(st, s, sess), s)
  {
  }

  lemma ReadingMarked(st: State, s: SessionId, readOk: bool)
    requires Inv(st) && s in st.sessions && OwnsKey(st, s) && (readOk ==> !st.sessions[s].closing)
    ensures var st' := SetSession(st, s, st.sessions[s].(running := true, reading := readOk));
      Inv(st') && OwnsKey(st', s)
  {
    hide Inv, OwnsKey;
    FlagsInv(st, s, st.sessions[s].(running := true, reading := readOk));
    FlagsOwnKey(st, s, st.sessions[s].(running := true, reading := readOk));
  }

  lemma RespondedOwnsKey(st: State, s: SessionId, resOk: set<ClientId>)
    requires OwnsKey(st, s)
    ensures OwnsKey(RespondAll(st, s, resOk), s)
  {
    hide Keep;
  }

  /** Dropping a frame frees nothing that a client is linked to. */
  lemma DroppedCanStop(st: State, f: FrameId, c: ClientId)
    requires CanStop(st, c) && f in st.refs && st.refs[f] > 0
    ensures CanStop(Dropped(st, f), c)
  {
    hide Distinct;
  }

  /** The registry only shrinks when a session stops. */
  lemma StoppedOwnsKey(st: State, s: SessionId, resOk: set<ClientId>)
    requires OwnsKey(st, s)
    ensures OwnsKey(StopSession(st, s, resOk), s)
  {
    KeepMembers(st.registry, {s});
    hide Keep;
  }

  /** An enabled callback finds what it uses allocated. */
  lemma EventIsSafe(st: State, e: Event)
    requires Inv(st) && Linked(st) && Enabled(st, e)
    ensures match e
      case ReadError(c) => CanStop(st, c)
      case ResponseDone(c) => c in st.traces && ClientObj(c) in st.live
      case ErrorResponseDone(c) => CanStop(st, c)
      case FrameDone(c, f, _) => CanStop(st, c) && f in st.refs && st.refs[f] > 0 && FrameObjects(f) <= st.live
      case ClientClosed(c) => ClientObj(c) in st.live
      case DvrConnected(s, _, _, _) => OwnsKey(st, s)
      case DvrPreviewSent(s, _, _, _) => OwnsKey(st, s)
      case DvrReadError(s, _) => OwnsKey(st, s)
      case ExitTimer(s) => OwnsKey(st, s) && !st.sessions[s].closing
      case DvrClosed(s) => SessionObj(s) in st.live && st.sessions[s].clients == [] && !st.sessions[s].timer
      case _ => true
  {
    hide Inv, CanStop, OwnsKey;
    match e
    case ReadError(c) => ClosableClient(st, c);
    case ResponseDone(c) => ClientIsLive(st, c);
    case ErrorResponseDone(c) => ClosableClient(st, c);
    case FrameDone(c, f, _) =>
      ClosableClient(st, c);
      CountedFrame(st, c, f, Header(f));
      CountedFrame(st, c, f, Payload(f));
      CountedFrame(st, c, f, Record(f));
    case ClientClosed(c) => ClientIsLive(st, c);
    case DvrConnected(s, _, _, _) => InvOwnsKey(st, s);
    case DvrPreviewSent(s, _, _, _) => InvOwnsKey(st, s);
    case DvrReadError(s, _) =>
      OpenSession(st, s);
      InvOwnsKey(st, s);
    case ExitTimer(s) =>
      OpenSession(st, s);
      InvOwnsKey(st, s);
    case DvrClosed(s) =>
      SessionFreedSafely(st, s);
      OnlyLiveIsTouched(st, e);
    case _ =>
  }

  lemma OpenSession(st: State, s: SessionId)
    requires Inv(st) && s in st.sessions && (st.sessions[s].reading || st.sessions[s].timer)
    ensures !st.sessions[s].closing
  {
    assert SessionOk(st.sessions[s], s in st.registry);
  }

  lemma ClosableClient(st: State, c: ClientId)
    requires Inv(st) && c in st.clients
    requires st.clients[c].closes == 0 || st.clients[c].errPending || st.clients[c].pending != {}
    ensures CanStop(st, c)
  {
    assert ClientOk(st.clients[c]);
    hide Inv, CanStop;
    InvCanStop(st, c);
  }

  lemma ClientIsLive(st: State, c: ClientId)
    requires Inv(st) && c in st.clients
    ensures ClientObj(c) in st.live
  {
  }

  lemma {:induction false} UnregisterNew(registry: seq<SessionId>, s: SessionId)
    requires s !in registry
    ensures Keep([s] + registry, {s}) == registry
  {
    var all := [s] + registry;
    if registry != [] {
      UnregisterNew(registry[..|registry| - 1], s);
      assert all[..|all| - 1] == [s] + registry[..|registry| - 1];
    }
  }

  lemma RespondToNobody(st: State, s: SessionId, resOk: set<ClientId>)
    requires s in st.sessions && st.sessions[s].clients == [] && st.sessions[s].clientSize == 0
    ensures RespondAll(st, s, resOk) == st
  {
    DetachNone(st.sessions[s]);
    assert Refused(st, s, resOk) == {};
    hide Detach, Refused;
    assert RespondAll(st, s, resOk).clients == st.clients;
  }

  /** A write of a preview command is over. */
  lemma PreviewEnds(st: State, s: SessionId)
    requires Inv(st) && s in st.sessions
    ensures Inv(SetSession(st, s, st.sessions[s].(previewPending := false)))
    ensures st.sessions[s].clientSize == |st.sessions[s].clients|
  {
    assert st.sessions[s].closing ==> !st.sessions[s].reading;
    SessionIsCounted(st, s);
    hide Inv;
    FlagsInv(st, s, st.sessions[s].(previewPending := false));
  }

  /** A connection attempt is over. */
  lemma ConnectEnds(st: State, s: SessionId)
    requires Inv(st) && s in st.sessions
    ensures Inv(SetSession(st, s, st.sessions[s].(connectPending := false)))
  {
    assert st.sessions[s].closing ==> !st.sessions[s].reading;
    hide Inv;
    FlagsInv(st, s, st.sessions[s].(connectPending := false));
  }
}
