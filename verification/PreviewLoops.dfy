/** The loops over the clients of a session, turn by turn: where each of them stands after some of
    the clients were visited, and that visiting one more client leads to the next such state. */
module PreviewLoops {
  import opened CircularList
  import opened SessionRegistry
  import opened PreviewModel
  import opened PreviewInvariants

  /** The clients visited so far. */
  function Seen(list: seq<ClientId>, i: nat): set<ClientId>
    requires i <= |list|
  {
    set c | c in list[..i]
  }

  lemma SeenNext(list: seq<ClientId>, i: nat)
    requires i < |list| && Distinct(list)
    ensures Seen(list, i + 1) == Seen(list, i) + {list[i]}
    ensures list[i] !in Seen(list, i)
  {
    assert list[..i + 1] == list[..i] + [list[i]];
  }

  lemma SeenEnds(list: seq<ClientId>)
    ensures Seen(list, 0) == {}
    ensures forall c :: c in list <==> c in Seen(list, |list|)
  {
    assert list[..|list|] == list;
  }

  // ----- Leaving one by one -----

  lemma {:induction false} KeepOne<T>(s: seq<T>, x: T)
    requires Distinct(s) && x in s
    ensures |Keep(s, {x})| == |s| - 1
  {
    var front, last := s[..|s| - 1], s[|s| - 1];
    if last == x {
      KeepMembers(front, {x});
    } else {
      KeepOne(front, x);
    }
  }

  lemma DetachTwice(sess: MediaSession, a: set<ClientId>, b: set<ClientId>)
    ensures Detach(Detach(sess, a), b) == Detach(sess, a + b)
  {
    hide Keep;
    KeepUnion(sess.clients, a, b);
    KeepMembers(sess.clients, a);
    KeepMembers(Keep(sess.clients, a), b);
  }

  lemma DetachNone(sess: MediaSession)
    requires sess.clientSize == |sess.clients|
    ensures Detach(sess, {}) == sess
  {
    hide Keep;
    var none: set<ClientId> := {};
    KeepMembers(sess.clients, none);
    assert Keep(sess.clients, none) == sess.clients;
  }

  lemma DetachAll(sess: MediaSession, left: set<ClientId>)
    requires forall c :: c in sess.clients ==> c in left
    ensures Detach(sess, left) == sess.(clients := [], clientSize := 0, timer := sess.timer || sess.clients != [])
  {
    hide Keep;
    KeepNone(sess.clients, left);
  }

  /** What stopping a client relies on: it has not been closed, its session lists it, and everything
      it is linked to is allocated. */
  ghost predicate CanStop(st: State, c: ClientId) {
    && c in st.clients && ClientObj(c) in st.live
    && (st.clients[c].status != OnStop ==> st.clients[c].closes == 0)
    && (st.clients[c].session.Some? ==>
          var s := st.clients[c].session.value;
          && s in st.sessions && c in st.sessions[s].clients && ListLive(st, s)
          && Distinct(st.sessions[s].clients) && st.sessions[s].clientSize == |st.sessions[s].clients|)
  }

  /** A session and the clients in its list are allocated. */
  ghost predicate ListLive(st: State, s: SessionId)
    requires s in st.sessions
  {
    SessionObj(s) in st.live && forall d :: d in st.sessions[s].clients ==> ClientObj(d) in st.live
  }

  lemma InvListLive(st: State, s: SessionId)
    requires Inv(st) && s in st.sessions
    ensures ListLive(st, s)
  {
    hide ClientsOk, SessionsOk, FramesOk, AccountOk, HistoryOk, Distinct;
  }

  /** What delete_session relies on: the registered sessions are allocated, and none but `s` has its
      key. */
  ghost predicate OwnsKey(st: State, s: SessionId) {
    && s in st.sessions
    && (forall t :: t in st.registry ==> t in st.sessions && SessionObj(t) in st.live)
    && (forall t :: t in st.registry && st.sessions[t].key == st.sessions[s].key ==> t == s)
  }

  lemma InvCanStop(st: State, c: ClientId)
    requires Inv(st) && c in st.clients && (st.clients[c].closes == 0 || st.clients[c].status == OnStop)
    ensures CanStop(st, c)
  {
    if st.clients[c].session.Some? {
      InvListLive(st, st.clients[c].session.value);
    }
    hide ClientsOk, SessionsOk, FramesOk, AccountOk, HistoryOk, Distinct, ListLive;
  }

  /** In the middle of a loop, for a client that is still to be visited. */
  lemma MemberCanStop(st: State, st': State, s: SessionId, c: ClientId, left: set<ClientId>)
    requires Inv(st) && s in st.sessions && c in st.sessions[s].clients && c !in left
    requires c in st'.clients && st'.clients[c] == st.clients[c]
    requires s in st'.sessions && st'.sessions[s] == Detach(st.sessions[s], left) && st.live <= st'.live
    ensures CanStop(st', c) && st.clients[c].closes == 0 && st.clients[c].session == Some(s)
  {
    hide Inv, Distinct, Keep;
    InvListLive(st, s);
    MemberOf(st, s, c);
    SessionIsCounted(st, s);
    KeepMembers(st.sessions[s].clients, left);
  }

  // ----- Preview responses -----

  /** smts_client_send_preview_res */
  function PreviewRes(st: State, c: ClientId, status: int, ok: bool): State
    requires c in st.clients
    requires st.clients[c].session.Some? ==> st.clients[c].session.value in st.sessions
  {
    var k := st.clients[c];
    if k.status == OnInit then
      if ok then st.(clients := st.clients[c := k.(status := OnSendPreviewRes, resPending := true)])
      else StopOne(st.(clients := st.clients[c := k.(status := OnSendPreviewRes)]), c)
    else if status != 0 then StopOne(st, c)
    else st
  }

  lemma AnswerIsPreviewRes(st: State, c: ClientId, s: SessionId, ok: bool)
    requires c in st.clients && s in st.sessions && st.clients[c].session == Some(s)
    ensures PreviewRes(st, c, 0, ok) == Answer(st, c, s, ok)
  {
  }

  /** The loop of on_smts_dvr_client_send_preview. */
  function RespondSome(st: State, s: SessionId, resOk: set<ClientId>, seen: set<ClientId>): State
    requires s in st.sessions
  {
    st.(clients := map c | c in st.clients ::
          if c in seen then Respond(st.clients[c], c in resOk) else st.clients[c],
        sessions := st.sessions[s := Detach(st.sessions[s], Refused(st, s, resOk) * seen)])
  }

  lemma RespondSomeNext(st: State, s: SessionId, resOk: set<ClientId>, seen: set<ClientId>, c: ClientId)
    requires s in st.sessions && c in st.sessions[s].clients && c !in seen && c in st.clients
    requires st.clients[c].session == Some(s)
    ensures Answer(RespondSome(st, s, resOk, seen), c, s, c in resOk) == RespondSome(st, s, resOk, seen + {c})
  {
    hide Detach;
    var st1, st2 := RespondSome(st, s, resOk, seen), RespondSome(st, s, resOk, seen + {c});
    var refused := Refused(st, s, resOk);
    DetachTwice(st.sessions[s], refused * seen, {c});
    assert refused * (seen + {c}) == if c in refused then refused * seen + {c} else refused * seen;
    assert st1.clients[c := Respond(st.clients[c], c in resOk)] == st2.clients by {
      hide Respond;
    }
    hide RespondSome, Respond;
  }

  lemma RespondTurn(st: State, s: SessionId, resOk: set<ClientId>, seen: set<ClientId>, c: ClientId)
    requires Inv(st) && s in st.sessions && c in st.sessions[s].clients && c !in seen
    ensures CanStop(RespondSome(st, s, resOk, seen), c)
    ensures PreviewRes(RespondSome(st, s, resOk, seen), c, 0, c in resOk) == RespondSome(st, s, resOk, seen + {c})
  {
    MemberOf(st, s, c);
    hide Inv, Detach, CanStop, Respond;
    MemberCanStop(st, RespondSome(st, s, resOk, seen), s, c, Refused(st, s, resOk) * seen);
    RespondSomeNext(st, s, resOk, seen, c);
    AnswerIsPreviewRes(RespondSome(st, s, resOk, seen), c, s, c in resOk);
    hide RespondSome, PreviewRes, Answer;
  }

  lemma MemberOf(st: State, s: SessionId, c: ClientId)
    requires Inv(st) && s in st.sessions && c in st.sessions[s].clients
    ensures c in st.clients && st.clients[c].session == Some(s)
    ensures st.clients[c].status != OnStop && st.clients[c].closes == 0
  {
    hide SessionsOk, FramesOk, MemoryOk, AccountOk, HistoryOk, Distinct;
    assert ClientOk(st.clients[c]);
  }

  // ----- Stopping a session -----

  /** The loop of stop_media_session. */
  function StopSome(st: State, s: SessionId, resOk: set<ClientId>, seen: set<ClientId>): State
    requires s in st.sessions
  {
    st.(clients := map c | c in st.clients ::
          if c in seen then StopMember(st.clients[c], c in resOk) else st.clients[c],
        sessions := st.sessions[s := Detach(st.sessions[s], seen)])
  }

  function StopTurn(st: State, c: ClientId, status: int, ok: bool): State
    requires c in st.clients
    requires st.clients[c].session.Some? ==> st.clients[c].session.value in st.sessions
  {
    StopOne(PreviewRes(st, c, status, ok), c)
  }

  lemma StopTurnClient(st: State, c: ClientId, s: SessionId, status: int, ok: bool)
    requires c in st.clients && s in st.sessions && st.clients[c].session == Some(s) && st.clients[c].status != OnStop
    ensures StopTurn(st, c, status, ok) ==
      st.(clients := st.clients[c := StopMember(st.clients[c], ok)],
          sessions := st.sessions[s := Detach(st.sessions[s], {c})])
  {
    hide Detach;
  }

  lemma StopSomeNext(st: State, s: SessionId, resOk: set<ClientId>, seen: set<ClientId>, c: ClientId)
    requires s in st.sessions && c in st.sessions[s].clients && c !in seen && c in st.clients
    ensures var st1 := StopSome(st, s, resOk, seen);
      st1.(clients := st1.clients[c := StopMember(st.clients[c], c in resOk)],
           sessions := st1.sessions[s := Detach(st1.sessions[s], {c})]) == StopSome(st, s, resOk, seen + {c})
  {
    hide Detach, StopMember;
    var st1, st2 := StopSome(st, s, resOk, seen), StopSome(st, s, resOk, seen + {c});
    DetachTwice(st.sessions[s], seen, {c});
    assert st1.clients[c := StopMember(st.clients[c], c in resOk)] == st2.clients;
  }

  lemma StopTurnIsNext(st: State, s: SessionId, resOk: set<ClientId>, seen: set<ClientId>, c: ClientId, status: int)
    requires Inv(st) && s in st.sessions && c in st.sessions[s].clients && c !in seen
    ensures CanStop(StopSome(st, s, resOk, seen), c)
    ensures StopTurn(StopSome(st, s, resOk, seen), c, status, c in resOk) == StopSome(st, s, resOk, seen + {c})
  {
    MemberOf(st, s, c);
    hide Inv, Detach, CanStop, StopMember, StopTurn;
    var st1 := StopSome(st, s, resOk, seen);
    MemberCanStop(st, st1, s, c, seen);
    StopTurnClient(st1, c, s, status, c in resOk);
    StopSomeNext(st, s, resOk, seen, c);
    hide StopSome;
  }

  lemma StopOneRegistry(st: State, registry: seq<SessionId>, c: ClientId)
    requires c in st.clients
    requires st.clients[c].session.Some? ==> st.clients[c].session.value in st.sessions
    ensures StopOne(st.(registry := registry), c) == StopOne(st, c).(registry := registry)
  {
    hide Detach;
  }

  lemma PreviewResRegistry(st: State, registry: seq<SessionId>, c: ClientId, status: int, ok: bool)
    requires c in st.clients
    requires st.clients[c].session.Some? ==> st.clients[c].session.value in st.sessions
    ensures PreviewRes(st.(registry := registry), c, status, ok) == PreviewRes(st, c, status, ok).(registry := registry)
  {
    hide StopOne;
    StopOneRegistry(st, registry, c);
    StopOneRegistry(st.(clients := st.clients[c := st.clients[c].(status := OnSendPreviewRes)]), registry, c);
  }

  /** The registry plays no part in it. */
  lemma StopTurnRegistry(st: State, registry: seq<SessionId>, c: ClientId, status: int, ok: bool)
    requires CanStop(st, c)
    ensures CanStop(st.(registry := registry), c)
    ensures StopTurn(st.(registry := registry), c, status, ok) == StopTurn(st, c, status, ok).(registry := registry)
  {
    assert CanStop(st.(registry := registry), c);
    StopTurnOk(st, c, status, ok);
    hide StopOne, PreviewRes, CanStop;
    PreviewResRegistry(st, registry, c, status, ok);
    StopOneRegistry(PreviewRes(st, c, status, ok), registry, c);
  }

  lemma StopTurnOk(st: State, c: ClientId, status: int, ok: bool)
    requires CanStop(st, c)
    ensures var st1 := PreviewRes(st, c, status, ok);
      c in st1.clients && (st1.clients[c].session.Some? ==> st1.clients[c].session.value in st1.sessions)
  {
    hide Detach, Distinct;
  }

  // ----- Fanning a frame out -----

  /** A client exists with its session, and so does the frame. */
  predicate Sendable(st: State, c: ClientId, f: FrameId) {
    && c in st.clients && c in st.traces && f in st.refs && st.refs[f] > 0
    && (st.clients[c].session.Some? ==> st.clients[c].session.value in st.sessions)
  }

  /** smts_client_send_frame */
  function SendFrame(st: State, c: ClientId, f: FrameId, ok: bool): State
    requires Sendable(st, c, f)
  {
    var k := st.clients[c];
    if k.status != OnSendFrames then Dropped(st, f)
    else if ok then
      st.(clients := st.clients[c := k.(pending := k.pending + {f})],
          traces := st.traces[c := st.traces[c].(accepted := st.traces[c].accepted + [f])])
    else StopOne(Dropped(st, f), c)
  }

  /** A frame received for a session: its payload and its record. */
  function Received(st: State, s: SessionId, f: FrameId): State
    requires s in st.received
  {
    Alloc(st, {Payload(f), Record(f)}).(received := st.received[s := st.received[s] + [f]])
  }

  /** A frame in use `n` times. */
  function InUse(st: State, f: FrameId, n: nat): State {
    var objs := FrameObjects(f);
    st.(live := if n > 0 then st.live + objs else st.live + objs - objs,
        freed := if n > 0 then st.freed else st.freed + multiset(objs),
        refs := if n > 0 then st.refs[f := n] else st.refs)
  }

  /** The clients, sessions and history of the fan-out, without the frame. */
  function FanOutTo(st: State, s: SessionId, f: FrameId, takers: set<ClientId>, failed: set<ClientId>): State
    requires s in st.sessions && s in st.received && st.clients.Keys <= st.traces.Keys
  {
    st.(
      clients := map c | c in st.clients ::
        if c in takers then st.clients[c].(pending := st.clients[c].pending + {f})
        else if c in failed then Stopped(st.clients[c])
        else st.clients[c],
      sessions := st.sessions[s := Detach(st.sessions[s], failed)],
      traces := map c | c in st.traces ::
        if c in takers then st.traces[c].(accepted := st.traces[c].accepted + [f]) else st.traces[c],
      received := st.received[s := st.received[s] + [f]])
  }

  /** The loop of on_smts_dvr_client_recv_frame, with `rest` clients still to be visited: the
      reference count is the number of clients that took the frame plus those to be visited. */
  function FanOutSome(st: State, s: SessionId, f: FrameId, sendOk: set<ClientId>, seen: set<ClientId>, rest: nat): State
    requires s in st.sessions && s in st.received && st.clients.Keys <= st.traces.Keys
  {
    var takers, failed := Takers(st, s, sendOk, true) * seen, Takers(st, s, sendOk, false) * seen;
    InUse(FanOutTo(st, s, f, takers, failed), f, |takers| + rest)
  }

  lemma HeaderIsUnused(st: State, s: SessionId, f: FrameId)
    requires s in st.received && Unused(st, Header(f))
    ensures Unused(Received(st, s, f), Header(f))
  {
  }

  lemma DroppedInUse(st: State, f: FrameId, n: nat)
    requires f !in st.refs && n > 0
    ensures Dropped(InUse(st, f, n), f) == InUse(st, f, n - 1)
  {
    if n == 1 {
      assert st.refs[f := 1] - {f} == st.refs;
    } else {
      assert st.refs[f := n][f := n - 1] == st.refs[f := n - 1];
    }
  }

  lemma SendTurnClient(st: State, c: ClientId, s: SessionId, f: FrameId, ok: bool)
    requires c in st.clients && c in st.traces && f in st.refs && st.refs[f] > 0
    requires s in st.sessions && st.clients[c].session == Some(s)
    ensures SendFrame(st, c, f, ok) ==
      if st.clients[c].status != OnSendFrames then Dropped(st, f)
      else if ok then
        st.(clients := st.clients[c := st.clients[c].(pending := st.clients[c].pending + {f})],
            traces := st.traces[c := st.traces[c].(accepted := st.traces[c].accepted + [f])])
      else
        Dropped(st, f).(clients := st.clients[c := Stopped(st.clients[c])],
                        sessions := st.sessions[s := Detach(st.sessions[s], {c})])
  {
    hide Detach;
  }

  lemma FanOutCounts(all: set<ClientId>, seen: set<ClientId>, c: ClientId)
    requires c !in seen
    ensures all * (seen + {c}) == if c in all then all * seen + {c} else all * seen
    ensures |all * (seen + {c})| == if c in all then |all * seen| + 1 else |all * seen|
  {
    if c in all {
      assert all * (seen + {c}) == all * seen + {c};
    } else {
      assert all * (seen + {c}) == all * seen;
    }
  }

  lemma FanOutTakes(st: State, s: SessionId, f: FrameId, takers: set<ClientId>, failed: set<ClientId>, c: ClientId)
    requires s in st.sessions && s in st.received && st.clients.Keys <= st.traces.Keys
    requires c in st.clients && c !in takers && c !in failed
    ensures var st1 := FanOutTo(st, s, f, takers, failed);
      st1.(clients := st1.clients[c := st.clients[c].(pending := st.clients[c].pending + {f})],
           traces := st1.traces[c := st.traces[c].(accepted := st.traces[c].accepted + [f])])
      == FanOutTo(st, s, f, takers + {c}, failed)
  {
    hide Detach, Stopped;
    var st1, st2 := FanOutTo(st, s, f, takers, failed), FanOutTo(st, s, f, takers + {c}, failed);
    assert st1.clients[c := st.clients[c].(pending := st.clients[c].pending + {f})] == st2.clients;
    assert st1.traces[c := st.traces[c].(accepted := st.traces[c].accepted + [f])] == st2.traces;
  }

  lemma FanOutFails(st: State, s: SessionId, f: FrameId, takers: set<ClientId>, failed: set<ClientId>, c: ClientId)
    requires s in st.sessions && s in st.received && st.clients.Keys <= st.traces.Keys
    requires c in st.clients && c !in takers && c !in failed
    ensures var st1 := FanOutTo(st, s, f, takers, failed);
      st1.(clients := st1.clients[c := Stopped(st.clients[c])],
           sessions := st1.sessions[s := Detach(st1.sessions[s], {c})])
      == FanOutTo(st, s, f, takers, failed + {c})
  {
    hide Detach, Stopped;
    DetachTwice(st.sessions[s], failed, {c});
    var st1, st2 := FanOutTo(st, s, f, takers, failed), FanOutTo(st, s, f, takers, failed + {c});
    assert st1.clients[c := Stopped(st.clients[c])] == st2.clients;
    assert st1.traces == st2.traces;
  }

  /** A frame in use leaves clients, sessions and histories alone. */
  lemma InUseElsewhere(st: State, f: FrameId, n: nat, clients: map<ClientId, Client>,
                       sessions: map<SessionId, MediaSession>, traces: map<ClientId, Trace>)
    ensures InUse(st.(clients := clients, sessions := sessions, traces := traces), f, n)
         == InUse(st, f, n).(clients := clients, sessions := sessions, traces := traces)
    ensures InUse(st, f, n).clients == st.clients && InUse(st, f, n).sessions == st.sessions
    ensures InUse(st, f, n).traces == st.traces
    ensures n > 0 ==> InUse(st, f, n).refs == st.refs[f := n]
  {
  }

  /** What one turn makes of a state with the frame in use `n` times. */
  ghost function Turned(st: State, s: SessionId, f: FrameId, n: nat, c: ClientId, ok: bool): State
    requires c in st.clients && c in st.traces && s in st.sessions && n > 0
  {
    if st.clients[c].status != OnSendFrames then InUse(st, f, n - 1)
    else if ok then
      InUse(st.(clients := st.clients[c := st.clients[c].(pending := st.clients[c].pending + {f})],
                traces := st.traces[c := st.traces[c].(accepted := st.traces[c].accepted + [f])]), f, n)
    else
      InUse(st.(clients := st.clients[c := Stopped(st.clients[c])],
                sessions := st.sessions[s := Detach(st.sessions[s], {c})]), f, n - 1)
  }

  lemma SendInUse(st: State, s: SessionId, f: FrameId, n: nat, c: ClientId, ok: bool)
    requires c in st.clients && c in st.traces && f !in st.refs && n > 0
    requires s in st.sessions && st.clients[c].session == Some(s)
    ensures c in InUse(st, f, n).clients && c in InUse(st, f, n).traces && InUse(st, f, n).sessions == st.sessions
    ensures f in InUse(st, f, n).refs && InUse(st, f, n).refs[f] == n && InUse(st, f, n).clients[c] == st.clients[c]
    ensures SendFrame(InUse(st, f, n), c, f, ok) == Turned(st, s, f, n, c, ok)
  {
    hide Detach, Dropped, Stopped, InUse, SendFrame;
    InUseElsewhere(st, f, n, st.clients, st.sessions, st.traces);
    SendTurnClient(InUse(st, f, n), c, s, f, ok);
    DroppedInUse(st, f, n);
    if ok {
      InUseElsewhere(st, f, n, st.clients[c := st.clients[c].(pending := st.clients[c].pending + {f})], st.sessions,
                     st.traces[c := st.traces[c].(accepted := st.traces[c].accepted + [f])]);
    } else {
      InUseElsewhere(st, f, n - 1, st.clients[c := Stopped(st.clients[c])],
                     st.sessions[s := Detach(st.sessions[s], {c})], st.traces);
    }
  }

  /** A client that is not visited yet is as it was. */
  lemma FanOutUnseen(st: State, s: SessionId, f: FrameId, takers: set<ClientId>, failed: set<ClientId>, c: ClientId)
    requires s in st.sessions && s in st.received && st.clients.Keys <= st.traces.Keys
    requires c in st.clients && c !in takers && c !in failed
    ensures var st1 := FanOutTo(st, s, f, takers, failed);
      && c in st1.clients && st1.clients[c] == st.clients[c] && c in st1.traces && st1.traces[c] == st.traces[c]
      && s in st1.sessions && st1.sessions[s] == Detach(st.sessions[s], failed)
      && st1.refs == st.refs && st1.live == st.live
  {
    hide Detach, Stopped;
  }

  /** Main result: in the middle of the loop, too, the reference count is the number of pending
      writes plus the clients still to be visited; at zero the frame is gone. */
  lemma CountInTheMiddle(st: State, s: SessionId, f: FrameId, sendOk: set<ClientId>, seen: set<ClientId>, rest: nat)
    requires s in st.sessions && s in st.received && st.clients.Keys <= st.traces.Keys
    requires f !in st.refs && Waiters(st.clients, f) == {}
    ensures var st1 := FanOutSome(st, s, f, sendOk, seen, rest);
      var uses := |Waiters(st1.clients, f)| + rest;
      if uses > 0 then f in st1.refs && st1.refs[f] == uses && FrameObjects(f) <= st1.live
      else f !in st1.refs && st1.live !! FrameObjects(f)
  {
    hide Detach;
    var st1 := FanOutSome(st, s, f, sendOk, seen, rest);
    var takers := Takers(st, s, sendOk, true) * seen;
    forall c | c in st.clients
      ensures f in st1.clients[c].pending <==> c in takers
    {
      assert c !in Waiters(st.clients, f);
    }
    assert Waiters(st1.clients, f) == takers;
  }

  lemma MembersTake(st: State, s: SessionId, sendOk: set<ClientId>, c: ClientId)
    requires s in st.sessions && c in st.sessions[s].clients && c in st.clients
    ensures c in Takers(st, s, sendOk, true) <==> st.clients[c].status == OnSendFrames && c in sendOk
    ensures c in Takers(st, s, sendOk, false) <==> st.clients[c].status == OnSendFrames && c !in sendOk
  {
  }

  lemma FanOutSomeNext(st: State, s: SessionId, f: FrameId, sendOk: set<ClientId>, seen: set<ClientId>, rest: nat,
                       c: ClientId, st0: State, n: nat)
    requires s in st.sessions && s in st.received && st.clients.Keys <= st.traces.Keys
    requires c in st.sessions[s].clients && c !in seen && c in st.clients && rest > 0
    requires n == |Takers(st, s, sendOk, true) * seen| + rest
    requires st0 == FanOutTo(st, s, f, Takers(st, s, sendOk, true) * seen, Takers(st, s, sendOk, false) * seen)
    requires s in st0.sessions && c in st0.clients && c in st0.traces
    requires st0.clients[c] == st.clients[c] && st0.traces[c] == st.traces[c]
    ensures FanOutSome(st, s, f, sendOk, seen + {c}, rest - 1) == Turned(st0, s, f, n, c, c in sendOk)
  {
    hide Detach, Stopped, InUse, Takers, FanOutTo, Turned;
    var takers, failed := Takers(st, s, sendOk, true), Takers(st, s, sendOk, false);
    MembersTake(st, s, sendOk, c);
    FanOutCounts(takers, seen, c);
    FanOutCounts(failed, seen, c);
    FanOutTurned(st, s, f, takers * seen, failed * seen, c, c in sendOk, st0, n);
  }

  lemma FanOutTurned(st: State, s: SessionId, f: FrameId, takers: set<ClientId>, failed: set<ClientId>, c: ClientId, ok: bool,
                     st0: State, n: nat)
    requires s in st.sessions && s in st.received && st.clients.Keys <= st.traces.Keys
    requires c in st.clients && c !in takers && c !in failed && n > 0
    requires st0 == FanOutTo(st, s, f, takers, failed) && s in st0.sessions && c in st0.clients && c in st0.traces
    requires st0.clients[c] == st.clients[c] && st0.traces[c] == st.traces[c]
    ensures var ready := st.clients[c].status == OnSendFrames;
      var takers', failed' := if ready && ok then takers + {c} else takers, if ready && !ok then failed + {c} else failed;
      InUse(FanOutTo(st, s, f, takers', failed'), f, if ready && ok then n else n - 1) == Turned(st0, s, f, n, c, ok)
  {
    hide Detach, Stopped, InUse, FanOutTo;
    FanOutTakes(st, s, f, takers, failed, c);
    FanOutFails(st, s, f, takers, failed, c);
  }

  /** The middle of the loop, for a client that is still to be visited. */
  lemma FanOutMiddle(st: State, s: SessionId, f: FrameId, sendOk: set<ClientId>, seen: set<ClientId>, rest: nat, c: ClientId)
    requires s in st.sessions && s in st.received && st.clients.Keys <= st.traces.Keys
    requires c in st.clients && c !in seen && f !in st.refs && rest > 0
    ensures var st1 := FanOutSome(st, s, f, sendOk, seen, rest);
      && c in st1.clients && st1.clients[c] == st.clients[c] && c in st1.traces && st.live <= st1.live
      && s in st1.sessions && st1.sessions[s] == Detach(st.sessions[s], Takers(st, s, sendOk, false) * seen)
      && f in st1.refs && st1.refs[f] > 0
  {
    hide Detach, Stopped, Takers, FanOutTo;
    FanOutUnseen(st, s, f, Takers(st, s, sendOk, true) * seen, Takers(st, s, sendOk, false) * seen, c);
  }

  lemma SendNext(st: State, s: SessionId, f: FrameId, sendOk: set<ClientId>, seen: set<ClientId>, rest: nat, c: ClientId)
    requires s in st.sessions && s in st.received && st.clients.Keys <= st.traces.Keys
    requires c in st.sessions[s].clients && c !in seen && c in st.clients && st.clients[c].session == Some(s)
    requires f !in st.refs && rest > 0
    requires Sendable(FanOutSome(st, s, f, sendOk, seen, rest), c, f)
    ensures SendFrame(FanOutSome(st, s, f, sendOk, seen, rest), c, f, c in sendOk)
         == FanOutSome(st, s, f, sendOk, seen + {c}, rest - 1)
  {
    hide Detach, Stopped, SendFrame, InUse, FanOutTo, Takers, Sendable;
    var takers, failed := Takers(st, s, sendOk, true), Takers(st, s, sendOk, false);
    var st0, n := FanOutTo(st, s, f, takers * seen, failed * seen), |takers * seen| + rest;
    FanOutUnseen(st, s, f, takers * seen, failed * seen, c);
    SendInUse(st0, s, f, n, c, c in sendOk);
    FanOutSomeNext(st, s, f, sendOk, seen, rest, c, st0, n);
  }

  /** One turn: the client takes the frame, cannot take it and is stopped, or is not ready for it. */
  lemma SendTurn(st: State, s: SessionId, f: FrameId, sendOk: set<ClientId>, seen: set<ClientId>, rest: nat, c: ClientId)
    requires Inv(st) && Linked(st) && s in st.sessions && c in st.sessions[s].clients && c !in seen
    requires f !in st.refs && rest > 0
    ensures var st1 := FanOutSome(st, s, f, sendOk, seen, rest);
      && CanStop(st1, c) && Sendable(st1, c, f) && FrameObjects(f) <= st1.live
      && SendFrame(st1, c, f, c in sendOk) == FanOutSome(st, s, f, sendOk, seen + {c}, rest - 1)
  {
    MemberOf(st, s, c);
    hide Inv, Detach, CanStop, FanOutSome, SendFrame;
    FanOutMiddle(st, s, f, sendOk, seen, rest, c);
    MemberCanStop(st, FanOutSome(st, s, f, sendOk, seen, rest), s, c, Takers(st, s, sendOk, false) * seen);
    SendNext(st, s, f, sendOk, seen, rest, c);
    FrameIsLive(st, s, f, sendOk, seen, rest);
  }

  // ----- Where the loops begin and end -----

  lemma StopBegins(st: State, s: SessionId, resOk: set<ClientId>)
    requires s in st.sessions && st.sessions[s].clientSize == |st.sessions[s].clients|
    ensures StopSome(st, s, resOk, {}) == st
  {
    DetachNone(st.sessions[s]);
    hide Detach, StopMember;
    assert StopSome(st, s, resOk, {}).clients == st.clients;
    assert StopSome(st, s, resOk, {}).sessions == st.sessions;
  }

  lemma StopEnds(st: State, s: SessionId, resOk: set<ClientId>)
    requires s in st.sessions
    ensures var list := st.sessions[s].clients;
      StopSome(st, s, resOk, Seen(list, |list|)) == StopSession(st, s, resOk).(registry := st.registry)
  {
    var list := st.sessions[s].clients;
    SeenEnds(list);
    DetachAll(st.sessions[s], Seen(list, |list|));
    hide Detach, StopMember, Seen;
    assert StopSome(st, s, resOk, Seen(list, |list|)).clients == StopSession(st, s, resOk).clients;
  }

  lemma RespondBegins(st: State, s: SessionId, resOk: set<ClientId>)
    requires s in st.sessions && st.sessions[s].clientSize == |st.sessions[s].clients|
    ensures RespondSome(st, s, resOk, {}) == st
  {
    DetachNone(st.sessions[s]);
    hide Detach, Respond;
    assert Refused(st, s, resOk) * {} == {};
    assert RespondSome(st, s, resOk, {}).clients == st.clients;
    assert RespondSome(st, s, resOk, {}).sessions == st.sessions;
  }

  lemma RespondEnds(st: State, s: SessionId, resOk: set<ClientId>)
    requires s in st.sessions
    ensures var list := st.sessions[s].clients;
      RespondSome(st, s, resOk, Seen(list, |list|)) == RespondAll(st, s, resOk)
  {
    var list := st.sessions[s].clients;
    SeenEnds(list);
    hide Detach, Respond, Seen;
    assert Refused(st, s, resOk) * Seen(list, |list|) == Refused(st, s, resOk);
    assert RespondSome(st, s, resOk, Seen(list, |list|)).clients == RespondAll(st, s, resOk).clients;
  }

  lemma FanOutBegins(st: State, s: SessionId, f: FrameId, sendOk: set<ClientId>, n: nat)
    requires s in st.sessions && s in st.received && st.clients.Keys <= st.traces.Keys && n > 0
    requires st.sessions[s].clientSize == |st.sessions[s].clients|
    ensures FanOutSome(st, s, f, sendOk, {}, n) == Alloc(Received(st, s, f), {Header(f)}).(refs := st.refs[f := n])
  {
    DetachNone(st.sessions[s]);
    hide Detach, Stopped, Takers;
    var none: set<ClientId> := {};
    assert Takers(st, s, sendOk, true) * none == none && Takers(st, s, sendOk, false) * none == none;
    var st1 := FanOutTo(st, s, f, none, none);
    assert st1.clients == st.clients && st1.traces == st.traces && st1.sessions == st.sessions;
    assert st.live + FrameObjects(f) == st.live + {Payload(f), Record(f)} + {Header(f)};
  }

  lemma FanOutEnds(st: State, s: SessionId, f: FrameId, sendOk: set<ClientId>)
    requires s in st.sessions && s in st.received && st.clients.Keys <= st.traces.Keys
    requires st.sessions[s].clients != []
    ensures var list := st.sessions[s].clients;
      FanOutSome(st, s, f, sendOk, Seen(list, |list|), 0) == FanOut(st, s, f, sendOk)
  {
    var list := st.sessions[s].clients;
    SeenEnds(list);
    var takers, failed := Takers(st, s, sendOk, true), Takers(st, s, sendOk, false);
    assert takers * Seen(list, |list|) == takers && failed * Seen(list, |list|) == failed;
    hide Detach, Stopped, Seen, Takers;
    assert takers == {} <==> |takers| == 0;
  }

  lemma FanOutToNobody(st: State, s: SessionId, f: FrameId, sendOk: set<ClientId>)
    requires s in st.sessions && s in st.received && st.clients.Keys <= st.traces.Keys
    requires st.sessions[s].clients == [] && st.sessions[s].clientSize == 0
    ensures FanOut(st, s, f, sendOk) == Free(Received(st, s, f), {Payload(f), Record(f)})
  {
    DetachNone(st.sessions[s]);
    assert Takers(st, s, sendOk, true) == {} && Takers(st, s, sendOk, false) == {};
    hide Detach, Stopped, Takers;
    var st1 := FanOut(st, s, f, sendOk);
    assert st1.clients == st.clients && st1.traces == st.traces && st1.sessions == st.sessions;
  }

  // ----- What the loops rely on -----

  lemma InvOwnsKey(st: State, s: SessionId)
    requires Inv(st) && s in st.sessions && !Quiet(st.sessions[s])
    ensures OwnsKey(st, s)
  {
    hide ClientsOk, Membership, FramesOk, AccountOk, HistoryOk, Distinct;
    forall t | t in st.registry
      ensures t in st.sessions && SessionObj(t) in st.live && !Quiet(st.sessions[t])
    {
      assert SessionOk(st.sessions[t], true);
    }
  }

  lemma SessionIsCounted(st: State, s: SessionId)
    requires Inv(st) && s in st.sessions
    ensures st.sessions[s].clientSize == |st.sessions[s].clients| && Distinct(st.sessions[s].clients)
  {
    hide ClientsOk, SessionsOk, FramesOk, MemoryOk, AccountOk, HistoryOk, Distinct;
  }

  lemma StopSomeKeys(st: State, s: SessionId, resOk: set<ClientId>, seen: set<ClientId>)
    requires s in st.sessions
    ensures StopSome(st, s, resOk, seen).sessions.Keys == st.sessions.Keys
  {
    hide Detach;
  }

  lemma FrameIsLive(st: State, s: SessionId, f: FrameId, sendOk: set<ClientId>, seen: set<ClientId>, rest: nat)
    requires s in st.sessions && s in st.received && st.clients.Keys <= st.traces.Keys && rest > 0
    ensures FrameObjects(f) <= FanOutSome(st, s, f, sendOk, seen, rest).live
  {
    hide Detach, Takers;
  }
}
