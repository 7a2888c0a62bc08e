/** The preview protocol of `src/smts_session.c`, `src/smts_client_impl.c` and
    `src/mock/smts_mock_dvr_impl.c` as a state machine: every libuv callback is one step.

    The loops over the clients of a session are described here as one simultaneous change of all of
    them; `PreviewServer` runs them client by client.

    Identifiers stand for addresses that are not reused: an entry of a map is an allocated structure.
 */
module PreviewModel {
  import opened CircularList
  import opened SessionRegistry

  type ClientId = nat
  type SessionId = nat
  type FrameId = nat

  datatype ClientStatus = OnInit | OnSendPreviewRes | OnSendFrames | OnStop

  /** A connected client, with the writes libuv still holds for it and the times it was closed. */
  datatype Client = Client(
    status: ClientStatus,
    session: Option<SessionId>,
    closes: nat,
    previewed: bool,
    resPending: bool,
    errPending: bool,
    pending: set<FrameId>)

  /** A session and its DVR connection. */
  datatype MediaSession = MediaSession(
    key: SessionKey,
    clients: seq<ClientId>,
    clientSize: int,
    running: bool,
    timer: bool,
    connectPending: bool,
    previewPending: bool,
    reading: bool,
    closing: bool)

  /** What malloc returns: a frame is a header shared by the clients, a payload and a record. */
  datatype Object = ClientObj(c: ClientId) | SessionObj(s: SessionId)
                  | Header(f: FrameId) | Payload(f: FrameId) | Record(f: FrameId)

  /** The history of a client: the session it joined, whether its preview response was sent, how
      many frames the session had received then, and the frames accepted for sending to it. */
  datatype Trace = Trace(home: Option<SessionId>, responded: bool, start: nat, accepted: seq<FrameId>)

  datatype State = State(
    clients: map<ClientId, Client>,
    sessions: map<SessionId, MediaSession>,
    registry: seq<SessionId>,
    refs: map<FrameId, nat>,
    live: set<Object>,
    freed: multiset<Object>,
    received: map<SessionId, seq<FrameId>>,
    traces: map<ClientId, Trace>)

  const INITIAL := State(map[], map[], [], map[], {}, multiset{}, map[], map[])

  /** The callbacks, with the outcomes of the calls made inside them: which writes are accepted. */
  datatype Event =
    | Connect(c: ClientId, readOk: bool)
    | Preview(c: ClientId, key: SessionKey, s: SessionId, initOk: bool, connectOk: bool, answered: bool)
    | ReadError(c: ClientId)
    | ResponseDone(c: ClientId)
    | ErrorResponseDone(c: ClientId)
    | FrameDone(c: ClientId, f: FrameId, ok: bool)
    | ClientClosed(c: ClientId)
    | DvrConnected(s: SessionId, ok: bool, written: bool, resOk: set<ClientId>)
    | DvrPreviewSent(s: SessionId, ok: bool, readOk: bool, resOk: set<ClientId>)
    | DvrFrame(s: SessionId, f: FrameId, sendOk: set<ClientId>)
    | DvrReadError(s: SessionId, resOk: set<ClientId>)
    | ExitTimer(s: SessionId)
    | DvrClosed(s: SessionId)

  // ----- Memory -----

  function Alloc(st: State, objs: set<Object>): State {
    st.(live := st.live + objs)
  }

  function Free(st: State, objs: set<Object>): State {
    st.(live := st.live - objs, freed := st.freed + multiset(objs))
  }

  predicate Unused(st: State, o: Object) {
    o !in st.live && st.freed[o] == 0
  }

  function FrameObjects(f: FrameId): set<Object> {
    {Header(f), Payload(f), Record(f)}
  }

  // ----- Clients -----

  /** What stopping does to the client itself. */
  function Stopped(k: Client): Client {
    k.(status := OnStop, session := None, closes := k.closes + 1)
  }

  /** A session after some of its clients have left: the last one to leave arms the exit timer. */
  function Detach(sess: MediaSession, left: set<ClientId>): MediaSession {
    var rest := Keep(sess.clients, left);
    sess.(clients := rest, clientSize := |rest|, timer := sess.timer || (rest == [] && sess.clients != []))
  }

  /** stop_smts_client */
  function StopOne(st: State, c: ClientId): (r: State)
    requires c in st.clients
    requires st.clients[c].session.Some? ==> st.clients[c].session.value in st.sessions
    ensures r.traces == st.traces && r.received == st.received
    ensures r.live == st.live && r.freed == st.freed && r.refs == st.refs
  {
    var k := st.clients[c];
    if k.status == OnStop then st
    else if k.session.None? then st.(clients := st.clients[c := Stopped(k)])
    else
      var s := k.session.value;
      st.(clients := st.clients[c := Stopped(k)], sessions := st.sessions[s := Detach(st.sessions[s], {c})])
  }

  /** A preview response to a client that has had none: it is written, or the client is stopped. */
  function Respond(k: Client, ok: bool): Client {
    if k.status != OnInit then k
    else if ok then k.(status := OnSendPreviewRes, resPending := true)
    else Stopped(k)
  }

  // ----- Sessions -----

  function SetSession(st: State, s: SessionId, sess: MediaSession): (r: State)
    ensures r.traces == st.traces && r.received == st.received
    ensures r.live == st.live && r.freed == st.freed && r.refs == st.refs
  {
    st.(sessions := st.sessions[s := sess])
  }

  /** A client whose session stops: it is sent a response if it has had none, and stopped. */
  function StopMember(k: Client, ok: bool): Client {
    Stopped(k.(resPending := k.resPending || (k.status == OnInit && ok)))
  }

  /** stop_media_session: the session is unregistered and all its clients are stopped. */
  function StopSession(st: State, s: SessionId, resOk: set<ClientId>): (r: State)
    requires s in st.sessions
    ensures r.traces == st.traces && r.received == st.received
    ensures r.live == st.live && r.freed == st.freed && r.refs == st.refs
  {
    var sess := st.sessions[s];
    st.(registry := Keep(st.registry, {s}),
        clients := map c | c in st.clients ::
          if c in sess.clients then StopMember(st.clients[c], c in resOk) else st.clients[c],
        sessions := st.sessions[s := sess.(clients := [], clientSize := 0, timer := sess.timer || sess.clients != [])])
  }

  /** The clients whose preview response cannot be written. */
  function Refused(st: State, s: SessionId, resOk: set<ClientId>): set<ClientId>
    requires s in st.sessions
  {
    set c | c in st.clients && c in st.sessions[s].clients && st.clients[c].status == OnInit && c !in resOk
  }

  /** Preview responses to all the clients of a session. */
  function RespondAll(st: State, s: SessionId, resOk: set<ClientId>): (r: State)
    requires s in st.sessions
    ensures r.traces == st.traces && r.received == st.received
    ensures r.live == st.live && r.freed == st.freed && r.refs == st.refs
  {
    var sess := st.sessions[s];
    st.(clients := map c | c in st.clients ::
          if c in sess.clients then Respond(st.clients[c], c in resOk) else st.clients[c],
        sessions := st.sessions[s := Detach(sess, Refused(st, s, resOk))])
  }

  // ----- Frames -----

  /** The clients of a session that are ready for frames, and accept this one or not. */
  function Takers(st: State, s: SessionId, sendOk: set<ClientId>, accept: bool): set<ClientId>
    requires s in st.sessions
  {
    set c | c in st.clients && c in st.sessions[s].clients && st.clients[c].status == OnSendFrames
         && (c in sendOk) == accept
  }

  /** A frame from the DVR is sent to every client that is ready for frames; the clients that
      cannot take it are stopped, and the frame lives while some write of it is pending. */
  function FanOut(st: State, s: SessionId, f: FrameId, sendOk: set<ClientId>): State
    requires s in st.sessions && s in st.received && st.clients.Keys <= st.traces.Keys
  {
    var sess := st.sessions[s];
    var takers, failed := Takers(st, s, sendOk, true), Takers(st, s, sendOk, false);
    var st1 := st.(
      clients := map c | c in st.clients ::
        if c in takers then st.clients[c].(pending := st.clients[c].pending + {f})
        else if c in failed then Stopped(st.clients[c])
        else st.clients[c],
      sessions := st.sessions[s := Detach(sess, failed)],
      traces := map c | c in st.traces ::
        if c in takers then st.traces[c].(accepted := st.traces[c].accepted + [f]) else st.traces[c],
      received := st.received[s := st.received[s] + [f]]);
    if takers != {} then Alloc(st1, FrameObjects(f)).(refs := st.refs[f := |takers|])
    else if sess.clients != [] then Free(Alloc(st1, FrameObjects(f)), FrameObjects(f))
    else Free(Alloc(st1, {Payload(f), Record(f)}), {Payload(f), Record(f)})
  }

  /** on_smts_client_send_frame: one use of a frame is over; the last one releases the frame. */
  function Dropped(st: State, f: FrameId): (r: State)
    requires f in st.refs && st.refs[f] > 0
    ensures r.traces == st.traces && r.received == st.received
  {
    if st.refs[f] == 1 then Free(st, FrameObjects(f)).(refs := st.refs - {f})
    else st.(refs := st.refs[f := st.refs[f] - 1])
  }

  function FrameWritten(st: State, c: ClientId, f: FrameId): (r: State)
    requires c in st.clients && f in st.refs && st.refs[f] > 0
    ensures r.traces == st.traces && r.received == st.received
  {
    Dropped(st.(clients := st.clients[c := st.clients[c].(pending := st.clients[c].pending - {f})]), f)
  }

  /** on_smts_client_send_frame_cb: a failed write stops the client. */
  function FrameEnded(st: State, c: ClientId, f: FrameId, ok: bool): (r: State)
    requires c in st.clients && f in st.refs && st.refs[f] > 0
    requires st.clients[c].session.Some? ==> st.clients[c].session.value in st.sessions
    ensures r.traces == st.traces && r.received == st.received
  {
    if ok then FrameWritten(st, c, f) else StopOne(FrameWritten(st, c, f), c)
  }

  // ----- Preview commands -----

  /** The registered session with a key. */
  predicate Registered(st: State, s: SessionId, key: SessionKey) {
    s in st.registry && s in st.sessions && st.sessions[s].key == key
  }

  /** A session that only waits for its close callback: nothing can make it call delete_session. */
  predicate Quiet(sess: MediaSession) {
    sess.closing && !sess.connectPending && !sess.previewPending
  }

  function NewSession(key: SessionKey, c: ClientId): MediaSession {
    MediaSession(key, [c], 1, false, false, true, false, false, false)
  }

  /** A session is created for its first client, registered and starts to connect. */
  function SessionStarted(st: State, c: ClientId, key: SessionKey, s: SessionId): State
    requires c in st.clients && c in st.traces
  {
    Alloc(st, {SessionObj(s)}).(
      clients := st.clients[c := st.clients[c].(session := Some(s))],
      sessions := st.sessions[s := NewSession(key, c)],
      registry := [s] + st.registry,
      received := st.received[s := []],
      traces := st.traces[c := st.traces[c].(home := Some(s))])
  }

  /** A first client for a key; when the DVR cannot be reached at all the new session is freed
      again and the client is told. */
  function PreviewNew(st: State, c: ClientId, key: SessionKey, s: SessionId, ok: bool, resOk: bool): State
    requires c in st.clients && c in st.traces
  {
    var st1 := st.(clients := st.clients[c := st.clients[c].(previewed := true)]);
    if ok then SessionStarted(st1, c, key, s)
    else
      Free(Alloc(st1, {SessionObj(s)}), {SessionObj(s)}).(
        clients := st1.clients[c := st1.clients[c].(errPending := resOk)])
  }

  /** add_smts_client */
  function Joined(sess: MediaSession, c: ClientId): MediaSession {
    sess.(clients := [c] + sess.clients, clientSize := sess.clientSize + 1)
  }

  function Join(st: State, c: ClientId, s: SessionId): State
    requires c in st.clients && c in st.traces && s in st.sessions
  {
    st.(clients := st.clients[c := st.clients[c].(previewed := true, session := Some(s))],
        sessions := st.sessions[s := Joined(st.sessions[s], c)],
        traces := st.traces[c := st.traces[c].(home := Some(s))])
  }

  /** smts_client_send_preview_res with status zero, to a client of a session. */
  function Answer(st: State, c: ClientId, s: SessionId, ok: bool): (r: State)
    requires c in st.clients && s in st.sessions
    ensures r.traces == st.traces && r.received == st.received
    ensures r.live == st.live && r.freed == st.freed && r.refs == st.refs
  {
    var k := st.clients[c];
    var st1 := st.(clients := st.clients[c := Respond(k, ok)]);
    if k.status == OnInit && !ok then SetSession(st1, s, Detach(st1.sessions[s], {c})) else st1
  }

  /** A further client for a registered session: it joins at the head and is answered at once. */
  function PreviewJoin(st: State, c: ClientId, s: SessionId, ok: bool): State
    requires c in st.clients && c in st.traces && s in st.sessions
  {
    Answer(Join(st, c, s), c, s, ok)
  }

  // ----- Connections -----

  const NO_TRACE := Trace(None, false, 0, [])

  /** A connection just accepted; one from which reading cannot start is closed at once. */
  function NewClient(readOk: bool): Client {
    Client(OnInit, None, if readOk then 0 else 1, false, false, false, {})
  }

  // ----- Steps -----

  /** When a callback can run.  The environment: a handle that is being closed reads no more, its
      pending writes and connects are reported before it is closed, and connects are cancelled;
      a timer fires only while armed; new structures get unused addresses.  The clients: one preview
      command per connection.  And no session is registered for a key while an earlier session with
      that key, already unregistered, may still call delete_session. */
  predicate Enabled(st: State, e: Event) {
    match e
    case Connect(c, _) => c !in st.clients && c !in st.traces && Unused(st, ClientObj(c))
    case Preview(c, key, s, initOk, connectOk, _) =>
      && c in st.clients && st.clients[c].closes == 0 && !st.clients[c].previewed
      && (s in st.sessions ==> Registered(st, s, key))
      && (s !in st.sessions ==>
            && Unused(st, SessionObj(s)) && s !in st.received
            && forall t :: t in st.sessions && st.sessions[t].key == key ==>
                 t !in st.registry && (initOk && connectOk ==> Quiet(st.sessions[t])))
    case ReadError(c) => c in st.clients && st.clients[c].closes == 0
    case ResponseDone(c) => c in st.clients && st.clients[c].resPending
    case ErrorResponseDone(c) => c in st.clients && st.clients[c].errPending
    case FrameDone(c, f, _) => c in st.clients && f in st.clients[c].pending
    case ClientClosed(c) =>
      && c in st.clients && st.clients[c].closes > 0
      && !st.clients[c].resPending && !st.clients[c].errPending && st.clients[c].pending == {}
    case DvrConnected(s, ok, _, _) =>
      s in st.sessions && st.sessions[s].connectPending && (ok ==> !st.sessions[s].closing)
    case DvrPreviewSent(s, ok, readOk, _) =>
      s in st.sessions && st.sessions[s].previewPending && (ok && readOk ==> !st.sessions[s].closing)
    case DvrFrame(s, f, _) =>
      && s in st.sessions && st.sessions[s].reading
      && Unused(st, Header(f)) && Unused(st, Payload(f)) && Unused(st, Record(f))
    case DvrReadError(s, _) => s in st.sessions && st.sessions[s].reading
    case ExitTimer(s) => s in st.sessions && st.sessions[s].timer
    case DvrClosed(s) =>
      && s in st.sessions && st.sessions[s].closing
      && !st.sessions[s].connectPending && !st.sessions[s].previewPending
  }

  /** The parts of a state refer to each other as the steps need. */
  predicate Linked(st: State) {
    && (forall c :: c in st.clients ==> c in st.traces)
    && (forall s :: s in st.sessions ==> s in st.received)
    && (forall c :: c in st.clients && st.clients[c].session.Some? ==> st.clients[c].session.value in st.sessions)
    && (forall c, f :: c in st.clients && f in st.clients[c].pending ==> f in st.refs && st.refs[f] > 0)
  }

  /** client_on_connection */
  function Connected(st: State, c: ClientId, readOk: bool): State {
    Alloc(st, {ClientObj(c)}).(clients := st.clients[c := NewClient(readOk)], traces := st.traces[c := NO_TRACE])
  }

  /** The first frame a client can be sent is the next one its session receives. */
  function Responded(st: State, t: Trace): Trace {
    t.(responded := true,
       start := if t.home.Some? && t.home.value in st.received then |st.received[t.home.value]| else 0)
  }

  /** on_smts_client_send_preview_res_cb_slient */
  function ResponseSent(st: State, c: ClientId): State
    requires c in st.clients && c in st.traces
  {
    st.(clients := st.clients[c := st.clients[c].(status := OnSendFrames, resPending := false)],
        traces := st.traces[c := Responded(st, st.traces[c])])
  }

  /** on_smts_client_send_error_preview_res_cb */
  function ErrorResponseSent(st: State, c: ClientId): (r: State)
    requires c in st.clients
    requires st.clients[c].session.Some? ==> st.clients[c].session.value in st.sessions
    ensures r.traces == st.traces && r.received == st.received
    ensures r.live == st.live && r.freed == st.freed && r.refs == st.refs
  {
    StopOne(st.(clients := st.clients[c := st.clients[c].(errPending := false)]), c)
  }

  /** The close callback of a client. */
  function ClientGone(st: State, c: ClientId): (r: State)
    ensures r.traces == st.traces && r.received == st.received
  {
    Free(st, {ClientObj(c)}).(clients := st.clients - {c})
  }

  /** on_connected_to_dvr */
  function DvrReached(st: State, s: SessionId, ok: bool, resOk: set<ClientId>): (r: State)
    requires s in st.sessions
    ensures r.traces == st.traces && r.received == st.received
    ensures r.live == st.live && r.freed == st.freed && r.refs == st.refs
  {
    var sess := st.sessions[s].(connectPending := false, previewPending := ok || st.sessions[s].previewPending);
    if ok then SetSession(st, s, sess) else StopSession(SetSession(st, s, sess), s, resOk)
  }

  /** on_smts_dvr_client_send_preview */
  function DvrAsked(st: State, s: SessionId, ok: bool, readOk: bool, resOk: set<ClientId>): (r: State)
    requires s in st.sessions
    ensures r.traces == st.traces && r.received == st.received
    ensures r.live == st.live && r.freed == st.freed && r.refs == st.refs
  {
    var st1 := SetSession(st, s, st.sessions[s].(previewPending := false));
    if !ok then StopSession(st1, s, resOk)
    else
      var st2 := RespondAll(st1, s, resOk);
      var st3 := SetSession(st2, s, st2.sessions[s].(running := true, reading := readOk));
      if readOk then st3 else StopSession(st3, s, resOk)
  }

  /** session_exit_cb */
  function TimerFired(st: State, s: SessionId): (r: State)
    requires s in st.sessions
    ensures r.traces == st.traces && r.received == st.received
    ensures r.live == st.live && r.freed == st.freed && r.refs == st.refs
  {
    var sess := st.sessions[s].(timer := false);
    if sess.clientSize == 0 then
      SetSession(st, s, sess.(closing := true, reading := false)).(registry := Keep(st.registry, {s}))
    else SetSession(st, s, sess)
  }

  /** The close callback of a DVR connection. */
  function SessionGone(st: State, s: SessionId): (r: State)
    ensures r.traces == st.traces && r.received == st.received
  {
    Free(st, {SessionObj(s)}).(sessions := st.sessions - {s})
  }

  function Step(st: State, e: Event): State
    requires Linked(st) && Enabled(st, e)
  {
    match e
    case Connect(c, readOk) => Connected(st, c, readOk)
    case Preview(c, key, s, initOk, connectOk, answered) =>
      if s in st.sessions then PreviewJoin(st, c, s, answered)
      else PreviewNew(st, c, key, s, initOk && connectOk, answered)
    case ReadError(c) => StopOne(st, c)
    case ResponseDone(c) => ResponseSent(st, c)
    case ErrorResponseDone(c) => ErrorResponseSent(st, c)
    case FrameDone(c, f, ok) => FrameEnded(st, c, f, ok)
    case ClientClosed(c) => ClientGone(st, c)
    case DvrConnected(s, ok, written, resOk) => DvrReached(st, s, ok && written, resOk)
    case DvrPreviewSent(s, ok, readOk, resOk) => DvrAsked(st, s, ok, readOk, resOk)
    case DvrFrame(s, f, sendOk) => FanOut(st, s, f, sendOk)
    case DvrReadError(s, resOk) =>
      StopSession(SetSession(st, s, st.sessions[s].(reading := false)), s, resOk)
    case ExitTimer(s) => TimerFired(st, s)
    case DvrClosed(s) => SessionGone(st, s)
  }

  // ----- Maps -----

  lemma SetAndRemove<K, V>(m: map<K, V>, k: K, v: V)
    requires k !in m
    ensures m[k := v] - {k} == m
  {
  }

  lemma SetBack<K, V>(m: map<K, V>, k: K, v: V)
    requires k in m
    ensures m[k := v][k := m[k]] == m
  {
  }

  lemma SetTwice<K, V>(m: map<K, V>, k: K, v: V, w: V)
    ensures m[k := v][k := w] == m[k := w]
  {
  }
}
