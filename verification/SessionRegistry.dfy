/** The session registry of `src/session_manager.c`: a circular list and a size.

    A registered session is represented by its embedded link, whose data is the session key.
 */
module SessionRegistry {
  import opened CircularList

  datatype Option<+T> = None | Some(value: T)

  /** Keys are compared field by field. */
  datatype SessionKey = SessionKey(dvrId: int, channelNo: int, frameMode: int, sessionType: int)

  type Session = Link<SessionKey>

  ghost predicate DistinctKeys(s: seq<Session>) {
    forall p, q :: p in s && q in s && p.data == q.data ==> p == q
  }

  ghost function Keys(s: seq<Session>): set<SessionKey> {
    set q | q in s :: q.data
  }

  /** The session of a list with the given key. */
  ghost function Find(s: seq<Session>, key: SessionKey): (q: Session)
    requires key in Keys(s)
    ensures q in s && q.data == key
  {
    var q :| q in s && q.data == key; q
  }

  /** The finite map that a list of sessions with pairwise distinct keys represents. */
  ghost function AsMap(s: seq<Session>): map<SessionKey, Session>
    requires DistinctKeys(s)
  {
    map key | key in Keys(s) :: Find(s, key)
  }

  lemma {:induction false} AsMapSize(s: seq<Session>)
    requires DistinctKeys(s) && Distinct(s)
    ensures |AsMap(s)| == |s|
  {
    if s != [] {
      var q, rest := s[0], s[1..];
      assert s == [q] + rest;
      assert q !in rest by {
        assert forall i :: 0 <= i < |rest| ==> rest[i] == s[i + 1];
      }
      AsMapSize(rest);
      AsMapCons(q, rest);
    }
  }

  lemma AsMapCons(q: Session, s: seq<Session>)
    requires DistinctKeys([q] + s) && q !in s
    ensures DistinctKeys(s)
    ensures q.data !in AsMap(s)
    ensures AsMap([q] + s) == AsMap(s)[q.data := q]
  {
    assert forall p :: p in [q] + s <==> p == q || p in s;
  }

  lemma AsMapRemove(s: seq<Session>, session: Session)
    requires DistinctKeys(s) && session in s
    ensures DistinctKeys(Keep(s, {session}))
    ensures AsMap(Keep(s, {session})) == AsMap(s) - {session.data}
  {
    KeepMembers(s, {session});
    var t := Keep(s, {session});
    assert forall q :: q in t <==> q in s && q != session;
    assert DistinctKeys(t);
  }

  ghost function IndexOf<T>(s: seq<T>, x: T): (k: nat)
    requires x in s
    ensures k < |s| && s[k] == x
  {
    if s[0] == x then 0 else 1 + IndexOf(s[1..], x)
  }

  lemma {:induction false} KeepOthers<T>(s: seq<T>, k: nat)
    requires Distinct(s) && k < |s|
    ensures Keep(s, {s[k]}) == s[..k] + s[k + 1..]
  {
    var front := s[..|s| - 1];
    if k == |s| - 1 {
      KeepMembers(front, {s[k]});
      assert s[k + 1..] == [];
    } else {
      KeepOthers(front, k);
      assert front[k + 1..] + [s[|s| - 1]] == s[k + 1..];
    }
  }

  // ----- Any sequence of operations -----

  datatype Operation = Add(session: Session) | Get(key: SessionKey) | Delete(session: Session)

  /** The session registered under a key, by intent: the first one added since the one before it was
      deleted; the delete of another session means nothing. */
  function Current(ops: seq<Operation>, key: SessionKey): Option<Session> {
    if ops == [] then None
    else
      var before, op := Current(ops[..|ops| - 1], key), ops[|ops| - 1];
      if op.Get? || op.session.data != key then before
      else if op.Delete? then (if before == Some(op.session) then None else before)
      else if before.None? then Some(op.session)
      else before
  }

  /** The registry holds, under every key, what the operations say. */
  ghost predicate Holds(registered: map<SessionKey, Session>, ops: seq<Operation>) {
    forall key :: Current(ops, key) == if key in registered then Some(registered[key]) else None
  }

  /** What each operation of the manager does to the map it represents. */
  function Applied(registered: map<SessionKey, Session>, op: Operation): map<SessionKey, Session> {
    match op
    case Get(_) => registered
    case Add(session) => if session.data in registered then registered else registered[session.data := session]
    case Delete(session) =>
      if session.data in registered && registered[session.data] == session then registered - {session.data} else registered
  }

  lemma HoldsNext(registered: map<SessionKey, Session>, ops: seq<Operation>, op: Operation)
    requires Holds(registered, ops)
    ensures Holds(Applied(registered, op), ops + [op])
  {
    assert (ops + [op])[..|ops|] == ops;
  }

  lemma PlaceInList(s: seq<Session>, session: Session) returns (k: nat)
    requires Distinct(s)
    ensures if k < |s| then s[k] == session else session !in s
    ensures Keep(s, {session}) == if k < |s| then s[..k] + s[k + 1..] else s
  {
    if session in s {
      k := IndexOf(s, session);
      KeepOthers(s, k);
    } else {
      k := |s|;
      KeepMembers(s, {session});
    }
  }

  /** What taking a session out of the list means for the map. */
  lemma DeleteFacts(s: seq<Session>, session: Session)
    requires Distinct(s) && DistinctKeys(s)
    ensures DistinctKeys(Keep(s, {session}))
    ensures session in s ==> session.data in AsMap(s) && |Keep(s, {session})| == |s| - 1
    ensures session !in s ==> Keep(s, {session}) == s
    ensures session in s || session.data !in AsMap(s) ==>
      AsMap(Keep(s, {session})) == Applied(AsMap(s), Delete(session))
  {
    if session in s {
      KeepOthers(s, IndexOf(s, session));
      AsMapRemove(s, session);
      assert AsMap(s)[session.data] == session;
    } else {
      KeepMembers(s, {session});
    }
  }

  /** Each delete is of the session that is registered under its key, or of a free key. */
  predicate Exact(ops: seq<Operation>) {
    forall i :: 0 <= i < |ops| && ops[i].Delete? ==>
      var current := Current(ops[..i], ops[i].session.data);
      current == None || current == Some(ops[i].session)
  }

  // ----- The list under a script, and what has become of a place in it -----

  ghost function OneOp(list: seq<Session>, op: Operation): seq<Session> {
    match op
    case Get(_) => list
    case Add(session) => if session.data in Keys(list) then list else [session] + list
    case Delete(session) => Keep(list, {session})
  }

  ghost function AfterOps(list: seq<Session>, ops: seq<Operation>): seq<Session> {
    if ops == [] then list else OneOp(AfterOps(list, ops[..|ops| - 1]), ops[|ops| - 1])
  }

  /** A delete that does what its caller means. */
  ghost predicate SoundOp(list: seq<Session>, op: Operation) {
    op.Delete? ==> op.session in list || op.session.data !in Keys(list)
  }

  ghost predicate Sound(list: seq<Session>, ops: seq<Operation>) {
    forall i :: 0 <= i < |ops| ==> SoundOp(AfterOps(list, ops[..i]), ops[i])
  }

  ghost function Newcomers(now: seq<Session>, was: seq<Session>): set<Session> {
    set x | x in now && x !in was
  }

  lemma {:induction false} KeepConcat<T>(s: seq<T>, t: seq<T>, drop: set<T>)
    ensures Keep(s + t, drop) == Keep(s, drop) + Keep(t, drop)
  {
    if t == [] {
      assert s + t == s;
    } else {
      var front := t[..|t| - 1];
      KeepConcat(s, front, drop);
      assert (s + t)[..|s + t| - 1] == s + front;
    }
  }

  /** A script only adds at the front and takes elements out. */
  lemma {:induction false} ScriptShape(was: seq<Session>, ops: seq<Operation>) returns (front: seq<Session>, gone: set<Session>)
    requires forall i :: 0 <= i < |ops| && ops[i].Add? ==> ops[i].session !in was
    ensures AfterOps(was, ops) == front + Keep(was, gone)
    ensures forall x :: x in front ==> x !in was
    decreases |ops|
  {
    if ops == [] {
      front, gone := [], {};
      KeepMembers(was, {});
      assert front + was == was;
    } else {
      var op := ops[|ops| - 1];
      front, gone := ScriptShape(was, ops[..|ops| - 1]);
      match op {
        case Get(_) =>
        case Add(session) =>
          if session.data !in Keys(front + Keep(was, gone)) {
            assert [session] + (front + Keep(was, gone)) == ([session] + front) + Keep(was, gone);
            front := [session] + front;
          }
        case Delete(session) =>
          KeepConcat(front, Keep(was, gone), {session});
          KeepUnion(was, gone, {session});
          KeepMembers(front, {session});
          front, gone := Keep(front, {session}), gone + {session};
      }
    }
  }

  lemma {:induction false} FirstKept<T>(s: seq<T>, drop: set<T>)
    requires s != [] && s[0] !in drop
    ensures Keep(s, drop) != [] && Keep(s, drop)[0] == s[0]
  {
    if |s| > 1 {
      FirstKept(s[..|s| - 1], drop);
    }
  }

  /** Without those that came, only the kept ones remain. */
  lemma DropNewcomers(front: seq<Session>, was: seq<Session>, gone: set<Session>)
    requires forall x :: x in front ==> x !in was
    ensures var now := front + Keep(was, gone); Keep(now, Newcomers(now, was)) == Keep(was, gone)
  {
    var now := front + Keep(was, gone);
    KeepMembers(was, gone);
    KeepConcat(front, Keep(was, gone), Newcomers(now, was));
    KeepNone(front, Newcomers(now, was));
    KeepMembers(Keep(was, gone), Newcomers(now, was));
  }

  /** Main result: two neighbours of a list stay side by side under every script, except at the front,
      where everything that was added stands between the head and the first element of before. */
  lemma GapAfter(h: Session, was: seq<Session>, p: nat, ops: seq<Operation>) returns (i: nat, j: nat)
    requires h !in was && Distinct(was) && p <= |was|
    requires forall i :: 0 <= i < |ops| && ops[i].Add? ==> ops[i].session !in was
    requires h !in AfterOps(was, ops)
    requires On(h, AfterOps(was, ops), At(h, was, p)) && On(h, AfterOps(was, ops), At(h, was, p + 1))
    ensures var now := AfterOps(was, ops);
      && Around(h, now, At(h, was, p), At(h, was, p + 1), i, j) && i <= j
      && now[..i] + now[j..] == if p == 0 then Keep(now, Newcomers(now, was)) else now
  {
    var front, gone := ScriptShape(was, ops);
    GapMembers(h, was, p, front, gone);
    DropNewcomers(front, was, gone);
    hide AfterOps, Newcomers, Distinct;
    i, j := GapPlaces(h, front, was, p, gone);
  }

  lemma GapMembers(h: Session, was: seq<Session>, p: nat, front: seq<Session>, gone: set<Session>)
    requires p <= |was| && h !in was && forall x :: x in front ==> x !in was
    ensures On(h, front + Keep(was, gone), At(h, was, p)) ==> p == 0 || was[p - 1] !in gone
    ensures On(h, front + Keep(was, gone), At(h, was, p + 1)) ==> p == |was| || was[p] !in gone
  {
    KeepMembers(was, gone);
    if p > 0 {
      assert was[p - 1] in was && At(h, was, p) == was[p - 1];
    }
    if p < |was| {
      assert was[p] in was && At(h, was, p + 1) == was[p];
    }
  }

  lemma GapPlaces(h: Session, front: seq<Session>, was: seq<Session>, p: nat, gone: set<Session>) returns (i: nat, j: nat)
    requires p <= |was| && (p == 0 || was[p - 1] !in gone) && (p == |was| || was[p] !in gone)
    ensures var now := front + Keep(was, gone);
      && Around(h, now, At(h, was, p), At(h, was, p + 1), i, j) && i <= j
      && now[..i] + now[j..] == if p == 0 then Keep(was, gone) else now
  {
    var left, right := was[..p], was[p..];
    var ahead := front + Keep(left, gone);
    if p < |was| {
      FirstKept(right, gone);
    }
    assert p > 0 ==> |ahead| > 0 && ahead[|ahead| - 1] == was[p - 1];
    j := |ahead|;
    i := if p == 0 then 0 else j;
    KeepParts(front, was, p, gone);
    hide Keep;
  }

  lemma KeepParts<T>(front: seq<T>, was: seq<T>, p: nat, gone: set<T>)
    requires p <= |was|
    ensures front + Keep(was, gone) == (front + Keep(was[..p], gone)) + Keep(was[p..], gone)
    ensures p == 0 ==> Keep(was[p..], gone) == Keep(was, gone)
    ensures p == |was| ==> Keep(was[p..], gone) == []
  {
    assert was == was[..p] + was[p..];
    KeepConcat(was[..p], was[p..], gone);
  }

  /** What linking two links to each other leaves of a list. */
  lemma AfterSplice(h: Session, now: seq<Session>, p: Session, n: Session, i: nat, j: nat)
    requires Spliced(h, now, p, n) && (On(h, now, p) && On(h, now, n) ==> Around(h, now, p, n, i, j) && i <= j)
    ensures On(h, now, p) && On(h, now, n) ==> Ring(h, now[..i] + now[j..])
    ensures On(h, now, p) != On(h, now, n) ==> forall u :: !Ring(h, u)
    ensures !On(h, now, p) && !On(h, now, n) ==> Ring(h, now)
  {
    if On(h, now, p) && On(h, now, n) {
      SplicedForward(h, now, p, n, i, j);
    } else if On(h, now, p) != On(h, now, n) {
      forall u
        ensures !Ring(h, u)
      {
        SplicedAcross(h, now, p, n, u);
      }
    } else {
      SplicedElsewhere(h, now, p, n);
    }
  }

  // ----- The manager -----

  class SessionManager {
    const head: Session
    var size: int
    ghost var list: seq<Session>
    ghost var log: seq<Operation>

    ghost predicate Valid()
      reads this, head, list
    {
      Ring(head, list) && DistinctKeys(list) && size == |list|
    }

    /** The registered sessions by key. */
    ghost function Registered(): map<SessionKey, Session>
      reads this
      requires DistinctKeys(list)
    {
      AsMap(list)
    }

    constructor ()
      ensures Valid() && list == [] && log == [] && fresh(head)
    {
      head := new Link(SessionKey(0, 0, 0, 0));
      size := 0;
      list := [];
      log := [];
      new;
      Init(head);
    }

    /** The lookup loop shared by `is_contain` and `get_session`. */
    method GetSession(key: SessionKey) returns (r: Option<Session>)
      requires Valid()
      ensures r == if key in Registered() then Some(Registered()[key]) else None
    {
      ghost var i := 0;
      assert At(head, list, 0).next == At(head, list, 1);
      var q := head.next;
      while q != head
        invariant 0 <= i <= |list| && q == At(head, list, i + 1)
        invariant forall j :: 0 <= j < i ==> list[j].data != key
        decreases |list| - i
      {
        assert q == list[i];
        if q.data == key {
          return Some(q);
        }
        assert At(head, list, i + 1).next == At(head, list, i + 2);
        q, i := q.next, i + 1;
      }
      assert i == |list| by {
        assert i < |list| ==> At(head, list, i + 1) in list;
      }
      return None;
    }

    /** 0 when the key is free, -1 when it is taken. */
    method IsContain(key: SessionKey) returns (r: int)
      requires Valid()
      ensures r == if key in Registered() then -1 else 0
    {
      var found := GetSession(key);
      r := if found.Some? then -1 else 0;
    }

    method AddSession(session: Session) returns (r: int)
      requires Valid() && session != head
      modifies this, head, session, list
      ensures Valid()
      ensures r == if session.data in old(Registered()) then -1 else 0
      ensures Registered() == Applied(old(Registered()), Add(session))
      ensures list == if r == 0 then [session] + old(list) else old(list)
      ensures log == old(log) + [Add(session)]
    {
      log := log + [Add(session)];
      r := IsContain(session.data);
      if r != 0 {
        return;
      }
      assert session !in list && DistinctKeys([session] + list);
      AsMapCons(session, list);
      InsertHead(head, session, list);
      list := [session] + list;
      size := size + 1;
    }

    /** QUEUE_REMOVE of a session, which may be in the list or not. */
    method UnlinkSession(session: Session)
      requires Ring(head, list) && session != head
      modifies this`list, head, list, session.prev, session.next
      ensures list == Keep(old(list), {session})
      ensures Spliced(head, old(list), old(session.prev), old(session.next))
      ensures session in old(list) ==>
        Ring(head, list) && session.prev == old(session.prev) && session.next == old(session.next)
    {
      ghost var k := PlaceInList(list, session);
      if k < |list| {
        RingNeighbours(head, list, k);
      }
      hide Keep, Spliced, At, Distinct, Ring;
      Remove(session, head, list, k);
      list := Keep(list, {session});
    }

    /** Unregisters a session: the test is on the key, the removal on the session.  It does what
        its caller means exactly when the session is the one registered under its key, or no
        session is.  Otherwise the size no longer counts the sessions that should be registered, and
        the old neighbours of the session are linked to each other, past whatever is between them. */
    method DeleteSession(session: Session) returns (r: int)
      requires Valid() && session != head
      modifies this, head, list, if session.data in Keys(list) then {session.prev, session.next} else {}
      ensures r == 0
      ensures log == old(log) + [Delete(session)] && list == Keep(old(list), {session})
      ensures session in old(list) ==> session.prev == old(session.prev) && session.next == old(session.next)
      ensures size == old(size) - if session.data in old(Registered()) then 1 else 0
      ensures size == |list| <==> session in old(list) || session.data !in old(Registered())
      ensures session in old(list) || session.data !in old(Registered()) ==>
        Valid() && Registered() == Applied(old(Registered()), Delete(session))
      ensures session.data in old(Registered()) ==>
        Spliced(head, old(list), old(session.prev), old(session.next))
    {
      r := 0;
      DeleteFacts(list, session);
      var contained := IsContain(session.data);
      hide AsMap, DistinctKeys, Applied, Keep, Spliced, Distinct, Ring, Keys, At;
      log := log + [Delete(session)];
      if contained == 0 {
        return;
      }
      UnlinkSession(session);
      size := size - 1;
    }

    /** The sessions in play: those registered and those the operations name. */
    ghost predicate Within(links: set<Session>)
      reads this
    {
      head !in links && forall q :: q in list ==> q in links
    }

    method AddOne(session: Session, ghost links: set<Session>)
      requires Valid() && Within(links) && session in links
      modifies this, head, links
      ensures Valid() && Within(links)
      ensures Registered() == Applied(old(Registered()), Add(session))
      ensures list == OneOp(old(list), Add(session))
    {
      assert session.data in Registered() <==> session.data in Keys(list);
      hide Ring, AsMap, DistinctKeys;
      var r := AddSession(session);
    }

    method DeleteOne(session: Session, ghost links: set<Session>)
      requires Valid() && Within(links) && session in links
      requires SoundOp(list, Delete(session))
      modifies this, head, links
      ensures Valid() && Within(links)
      ensures Registered() == Applied(old(Registered()), Delete(session))
      ensures list == OneOp(old(list), Delete(session))
    {
      if session in list {
        RingNeighbours(head, list, IndexOf(list, session));
      }
      ghost var was, rest := list, Keep(list, {session});
      forall i | 0 <= i < |rest|
        ensures rest[i] in links
      {
        KeepAt(was, {session}, i);
      }
      hide Ring, AsMap, DistinctKeys, Keep;
      var r := DeleteSession(session);
    }

    /** One operation of a script. */
    method OperateOnce(op: Operation, ghost links: set<Session>, ghost before: seq<Operation>)
        returns (answer: Option<Session>)
      requires Valid() && Within(links) && (!op.Get? ==> op.session in links)
      requires Holds(Registered(), before)
      requires op.Delete? ==>
        var current := Current(before, op.session.data); current == None || current == Some(op.session)
      modifies this, head, links
      ensures Valid() && Within(links) && Holds(Registered(), before + [op])
      ensures op.Get? ==> answer == Current(before, op.key)
    {
      HoldsNext(Registered(), before, op);
      answer := None;
      match op
      case Add(session) => AddOne(session, links);
      case Get(key) => answer := GetSession(key);
      case Delete(session) => DeleteOne(session, links);
    }

    /** Main result: under any script of operations on an empty manager, in which every delete is of
        the registered session or of a free key, the list stays a list of sessions with distinct
        keys, the size counts it and the map it represents, and every lookup returns the session
        that was added under its key and not deleted since. */
    method Operate(ops: seq<Operation>, ghost links: set<Session>) returns (answers: seq<Option<Session>>)
      requires Valid() && list == [] && head !in links
      requires forall i :: 0 <= i < |ops| && !ops[i].Get? ==> ops[i].session in links
      requires Exact(ops)
      modifies this, head, links
      ensures Valid() && size == |list| == |Registered()| && DistinctKeys(list) && Holds(Registered(), ops)
      ensures |answers| == |ops|
      ensures forall i :: 0 <= i < |ops| && ops[i].Get? ==> answers[i] == Current(ops[..i], ops[i].key)
    {
      answers := [];
      assert ops[..0] == [];
      hide Ring, AsMap, DistinctKeys, Current;
      for i := 0 to |ops|
        invariant Valid() && Within(links) && |answers| == i && Holds(Registered(), ops[..i])
        invariant forall j :: 0 <= j < i && ops[j].Get? ==> answers[j] == Current(ops[..j], ops[j].key)
      {
        var answer := OperateOnce(ops[i], links, ops[..i]);
        answers := answers + [answer];
        assert ops[..i] + [ops[i]] == ops[..i + 1];
      }
      assert ops[..|ops|] == ops;
      AsMapSize(list);
    }

    /** Any script whose deletes are sound. */
    method Play(ops: seq<Operation>, ghost links: set<Session>)
      requires Valid() && Within(links) && Sound(list, ops)
      requires forall i :: 0 <= i < |ops| && !ops[i].Get? ==> ops[i].session in links
      modifies this, head, links
      ensures Valid() && Within(links) && list == AfterOps(old(list), ops)
    {
      ghost var was := list;
      hide Ring, AsMap, DistinctKeys, OneOp, SoundOp;
      for k := 0 to |ops|
        invariant Valid() && Within(links) && list == AfterOps(was, ops[..k])
      {
        assert ops[..k + 1][..k] == ops[..k];
        assert SoundOp(list, ops[k]);
        PlayOne(ops[k], links);
      }
      assert ops[..|ops|] == ops;
    }

    method PlayOne(op: Operation, ghost links: set<Session>)
      requires Valid() && Within(links) && SoundOp(list, op) && (!op.Get? ==> op.session in links)
      modifies this, head, links
      ensures Valid() && Within(links) && list == OneOp(old(list), op)
    {
      hide Ring, AsMap, DistinctKeys;
      match op
      case Add(session) => AddOne(session, links);
      case Get(key) => var answer := GetSession(key);
      case Delete(session) => DeleteOne(session, links);
    }

    /** Main result: what the second of two deletes of a session does, `p` being its place at the first
        one, after any script in between that does not concern it.  If its key is free, nothing.
        Otherwise the size is wrong; if its old neighbours are still in the list (the head always is)
        the list has lost all that was added since when the session was the first one, the present
        owner of the key among it, and nothing when it was not; and if just one of them is not, the head
        leads no list any more. */
    method DeleteTwice(session: Session, ops: seq<Operation>, ghost p: nat, ghost links: set<Session>)
      requires Valid() && Within(links) && p < |list| && list[p] == session
      requires forall i :: 0 <= i < |ops| && !ops[i].Get? ==> ops[i].session in links && ops[i].session != session
      requires forall i :: 0 <= i < |ops| && ops[i].Add? ==> ops[i].session !in list
      requires Sound(Keep(list, {session}), ops)
      modifies this, head, links
      ensures list == AfterOps(Keep(old(list), {session}), ops)
      ensures session.data !in Keys(list) ==> Ring(head, list) && size == |list|
      ensures session.data in Keys(list) ==> size == |list| - 1
      ensures session.data in Keys(list) ==>
        var was := Keep(old(list), {session});
        var before, after := On(head, list, At(head, was, p)), On(head, list, At(head, was, p + 1));
        && (before && after ==> Ring(head, if p == 0 then Keep(list, Newcomers(list, was)) else list))
        && (before != after ==> forall u :: !Ring(head, u))
        && (!before && !after ==> Ring(head, list))
      ensures forall q :: q in list && q.data == session.data ==> q !in Keep(old(list), {session})
    {
      ghost var was := Keep(list, {session});
      KeepMembers(list, {session});
      DeletePlaced(session, p, links);
      Play(ops, links - {session});
      DeleteStale(session, ops, was, p);
    }

    /** The first delete. */
    method DeletePlaced(session: Session, ghost p: nat, ghost links: set<Session>)
      requires Valid() && Within(links) && p < |list| && list[p] == session
      modifies this, head, links
      ensures Valid() && Within(links - {session}) && list == Keep(old(list), {session})
      ensures session.prev == At(head, list, p) && session.next == At(head, list, p + 1) && p <= |list|
      ensures log == old(log) + [Delete(session)]
    {
      RingNeighbours(head, list, p);
      KeepOthers(list, p);
      KeepMembers(list, {session});
      ghost var was, rest := list, Keep(list, {session});
      assert At(head, rest, p) == At(head, was, p) && At(head, rest, p + 1) == At(head, was, p + 2);
      hide Ring, AsMap, DistinctKeys, Keep, At;
      var r := DeleteSession(session);
    }

    /** The second delete. */
    method DeleteStale(session: Session, ops: seq<Operation>, ghost was: seq<Session>, ghost p: nat)
      requires Valid() && session != head && session !in list && list == AfterOps(was, ops)
      requires head !in was && Distinct(was) && p <= |was|
      requires session.prev == At(head, was, p) && session.next == At(head, was, p + 1)
      requires forall i :: 0 <= i < |ops| && ops[i].Add? ==> ops[i].session !in was
      modifies this, head, list, session.prev, session.next
      ensures list == old(list) && log == old(log) + [Delete(session)]
      ensures session.data !in Keys(list) ==> Ring(head, list) && size == |list|
      ensures session.data in Keys(list) ==> size == |list| - 1
      ensures session.data in Keys(list) ==>
        var before, after := On(head, list, At(head, was, p)), On(head, list, At(head, was, p + 1));
        && (before && after ==> Ring(head, if p == 0 then Keep(list, Newcomers(list, was)) else list))
        && (before != after ==> forall u :: !Ring(head, u))
        && (!before && !after ==> Ring(head, list))
    {
      ghost var now := list;
      ghost var before, after := On(head, list, At(head, was, p)), On(head, list, At(head, was, p + 1));
      ghost var i, j := 0, 0;
      if before && after {
        i, j := GapAfter(head, was, p, ops);
      }
      DeleteFacts(list, session);
      var r := DeleteSession(session);
      if session.data in Keys(now) {
        AfterSplice(head, now, At(head, was, p), At(head, was, p + 1), i, j);
      }
    }
  }

  /** A stale delete: `first` is unregistered, `second` takes its key, and unregistering `first`
      again empties the list although `second` was never unregistered. */
  method StaleDeleteDropsAnother(key: SessionKey) returns (m: SessionManager, first: Session, second: Session)
    ensures m.log == [Add(first), Delete(first), Add(second), Delete(first)] && first != second
    ensures Current(m.log, key) == Some(second) && m.list == [second]
    ensures Ring(m.head, []) && m.size == 0
  {
    m := new SessionManager();
    first := new Link(key);
    second := new Link(key);
    SmallLists(first, second);
    CurrentOfStale(first, second, key);
    hide Keep, Ring, DistinctKeys, Distinct, Current, Newcomers;
    var r := m.AddSession(first);
    m.DeletePlaced(first, 0, {first, second});
    r := m.AddSession(second);
    m.DeleteStale(first, [Add(second)], [], 0);
  }

  lemma SmallLists(first: Session, second: Session)
    requires first != second
    ensures Keep([first], {first}) == [] && Distinct<Session>([])
    ensures AfterOps([], [Add(second)]) == [second]
    ensures Keep([second], Newcomers([second], [])) == []
  {
    KeepNone([first], {first});
    KeepNone([second], Newcomers([second], []));
    assert [Add(second)][..0] == [];
    assert OneOp([], Add(second)) == [second] + [];
  }

  lemma CurrentNext(ops: seq<Operation>, session: Session)
    ensures var before := Current(ops, session.data);
      && Current(ops + [Add(session)], session.data) == (if before.None? then Some(session) else before)
      && Current(ops + [Delete(session)], session.data) == (if before == Some(session) then None else before)
  {
    assert (ops + [Add(session)])[..|ops|] == ops;
    assert (ops + [Delete(session)])[..|ops|] == ops;
  }

  lemma CurrentOfStale(first: Session, second: Session, key: SessionKey)
    requires first.data == key && second.data == key && first != second
    ensures Current([Add(first), Delete(first), Add(second), Delete(first)], key) == Some(second)
  {
    assert Current([], key) == None;
    CurrentNext([], first);
    CurrentNext([Add(first)], first);
    CurrentNext([Add(first), Delete(first)], second);
    CurrentNext([Add(first), Delete(first), Add(second)], first);
    hide Current;
    assert [] + [Add(first)] == [Add(first)];
    assert [Add(first)] + [Delete(first)] == [Add(first), Delete(first)];
    assert [Add(first), Delete(first)] + [Add(second)] == [Add(first), Delete(first), Add(second)];
    assert [Add(first), Delete(first), Add(second)] + [Delete(first)] == [Add(first), Delete(first), Add(second), Delete(first)];
  }
}
