/** The intrusive circular list of `src/common/queue.h`.

    A `Link` is the pair of pointers embedded in a client or a session; `data` stands for the
    structure around it, which QUEUE_DATA recovers.  The head of a list is a link of its own,
    whose data is never looked at.
 */
module CircularList {

  class Link<T> {
    var next: Link<T>
    var prev: Link<T>
    const data: T

    /** A new link; QUEUE_INIT makes it a list of its own. */
    constructor (data: T)
      ensures this.data == data
      ensures next == this && prev == this
    {
      this.data := data;
      next, prev := this, this;
    }
  }

  /** The i-th link of the cycle that starts and ends at the head. */
  function At<T>(h: Link<T>, s: seq<Link<T>>, i: int): Link<T> {
    if 1 <= i <= |s| then s[i - 1] else h
  }

  ghost predicate Distinct<T>(s: seq<T>) {
    forall i, j :: 0 <= i < j < |s| ==> s[i] != s[j]
  }

  /** `h` heads a circular list whose elements, in order, are `s`. */
  ghost predicate Ring<T>(h: Link<T>, s: seq<Link<T>>)
    reads h, s
  {
    && h !in s
    && Distinct(s)
    && (forall i :: 0 <= i <= |s| ==> At(h, s, i).next == At(h, s, i + 1))
    && (forall i :: 0 <= i <= |s| ==> At(h, s, i + 1).prev == At(h, s, i))
  }

  /** The contents of a list are determined by its pointers. */
  lemma {:induction false} RingIsUnique<T>(h: Link<T>, s: seq<Link<T>>, t: seq<Link<T>>, n: nat)
    requires Ring(h, s) && Ring(h, t)
    requires n <= |s| && n <= |t|
    ensures s[..n] == t[..n]
    ensures n == |s| ==> n == |t|
  {
    if n > 0 {
      RingIsUnique(h, s, t, n - 1);
      assert At(h, s, n - 1) == At(h, t, n - 1);
      assert At(h, s, n) == At(h, t, n);
      assert s[..n] == s[..n - 1] + [s[n - 1]];
      assert t[..n] == t[..n - 1] + [t[n - 1]];
    }
    if n == |s| {
      assert At(h, s, n) == At(h, t, n);
      assert At(h, s, n + 1) == h;
      assert At(h, t, n + 1) == h;
      assert At(h, t, n + 1) !in t;
    }
  }

  lemma SameRing<T>(h: Link<T>, s: seq<Link<T>>, t: seq<Link<T>>)
    requires Ring(h, s) && Ring(h, t)
    ensures s == t
  {
    if |s| <= |t| {
      RingIsUnique(h, s, t, |s|);
    } else {
      RingIsUnique(h, t, s, |t|);
    }
  }

  /** QUEUE_INIT */
  method Init<T>(q: Link<T>)
    modifies q
    ensures Ring(q, [])
  {
    q.next := q;
    q.prev := q;
  }

  /** QUEUE_INSERT_HEAD */
  method InsertHead<T>(h: Link<T>, q: Link<T>, ghost s: seq<Link<T>>)
    requires Ring(h, s)
    requires q != h && q !in s
    modifies h, q, s
    ensures Ring(h, [q] + s)
  {
    assert At(h, s, 0).next == At(h, s, 1);
    q.next := h.next;
    q.prev := h;
    q.next.prev := q;
    h.next := q;
    ghost var t := [q] + s;
    assert forall i :: 2 <= i <= |t| + 1 ==> At(h, t, i) == At(h, s, i - 1);
    assert At(h, t, 0) == h && At(h, t, 1) == q;
  }

  /** QUEUE_INSERT_TAIL */
  method InsertTail<T>(h: Link<T>, q: Link<T>, ghost s: seq<Link<T>>)
    requires Ring(h, s)
    requires q != h && q !in s
    modifies h, q, s
    ensures Ring(h, s + [q])
  {
    assert At(h, s, |s| + 1).prev == At(h, s, |s|);
    q.next := h;
    q.prev := h.prev;
    q.prev.next := q;
    h.prev := q;
    ghost var t := s + [q];
    assert forall i :: 0 <= i <= |s| ==> At(h, t, i) == At(h, s, i);
    assert At(h, t, |s| + 1) == q && At(h, t, |s| + 2) == h;
  }

  /** QUEUE_REMOVE: lets the neighbours of `q`, whatever they are, point past it. */
  method Unlink<T>(q: Link<T>)
    modifies q.prev, q.next
    ensures old(q.prev).next == old(q.next) && old(q.next).prev == old(q.prev)
    ensures old(q.prev != q.next) ==> old(q.prev).prev == old(q.prev.prev) && old(q.next).next == old(q.next.next)
  {
    q.prev.next := q.next;
    q.next.prev := q.prev;
  }

  /** QUEUE_REMOVE with respect to the list `s`: the old neighbours of `q`, wherever they are now, are
      linked to each other.  An element, `q == s[k]`, leaves the list and keeps its own pointers; a `k`
      outside the list stands for a link that is not part of it. */
  method Remove<T>(q: Link<T>, ghost h: Link<T>, ghost s: seq<Link<T>>, ghost k: nat)
    requires Ring(h, s)
    requires if k < |s| then s[k] == q else !On(h, s, q)
    modifies q.prev, q.next
    ensures old(q.prev).next == old(q.next) && old(q.next).prev == old(q.prev)
    ensures k < |s| ==> Ring(h, s[..k] + s[k + 1..])
    ensures k < |s| ==> q.next == old(q.next) && q.prev == old(q.prev)
    ensures Spliced(h, s, old(q.prev), old(q.next))
  {
    if k < |s| {
      RingNeighbours(h, s, k);
    }
    Unlink(q);
    if k < |s| {
      SplicedForward(h, s, old(q.prev), old(q.next), k, k + 1);
    }
  }

  lemma RingNeighbours<T>(h: Link<T>, s: seq<Link<T>>, k: nat)
    requires Ring(h, s) && k < |s|
    ensures s[k].prev == At(h, s, k) && s[k].next == At(h, s, k + 2)
    ensures At(h, s, k + 1) == s[k]
    ensures s[k].prev == h || s[k].prev in s
    ensures s[k].next == h || s[k].next in s
  {
    assert At(h, s, k + 1) == s[k];
    assert At(h, s, k + 1).next == At(h, s, k + 2);
  }

  /** QUEUE_ADD: appends the elements of the list headed by `n`, which is given up. */
  method Add<T>(h: Link<T>, n: Link<T>, ghost s: seq<Link<T>>, ghost t: seq<Link<T>>)
    requires Ring(h, s) && Ring(n, t)
    requires h != n && h !in t && n !in s
    requires forall x :: x in s ==> x !in t
    modifies h, n, s, t
    ensures Ring(h, s + t)
  {
    assert At(h, s, |s| + 1).prev == At(h, s, |s|);
    assert At(h, s, |s|).next == h;
    assert At(n, t, 0).next == At(n, t, 1);
    assert At(n, t, |t| + 1).prev == At(n, t, |t|);
    h.prev.next := n.next;
    n.next.prev := h.prev;
    h.prev := n.prev;
    h.prev.next := h;
    ghost var u := s + t;
    assert forall i :: 0 <= i <= |s| ==> At(h, u, i) == At(h, s, i);
    assert forall i :: |s| < i <= |u| ==> At(h, u, i) == At(n, t, i - |s|);
    assert At(h, u, |u| + 1) == h;
    forall i, j | 0 <= i < j < |u|
      ensures u[i] != u[j]
    {
      assert i < |s| <= j ==> u[i] in s && u[j] in t;
    }
  }

  lemma DistinctParts<T>(s: seq<T>, k: nat)
    requires Distinct(s) && k <= |s|
    ensures Distinct(s[..k]) && Distinct(s[k..])
  {
  }

  /** QUEUE_SPLIT: cuts the list at `q`; the tail becomes the list headed by `n`. */
  method Split<T>(h: Link<T>, q: Link<T>, n: Link<T>, ghost s: seq<Link<T>>, ghost k: nat)
    requires Ring(h, s)
    requires k < |s| && s[k] == q
    requires n != h && n !in s
    modifies h, n, s
    ensures Ring(h, s[..k]) && Ring(n, s[k..])
  {
    assert At(h, s, |s| + 1).prev == At(h, s, |s|);
    assert At(h, s, k + 1).prev == At(h, s, k);
    ghost var a, b := s[..k], s[k..];
    DistinctParts(s, k);
    hide Distinct;
    assert forall i :: 0 <= i <= k ==> At(h, a, i) == At(h, s, i);
    assert forall i :: 1 <= i <= |b| ==> At(n, b, i) == At(h, s, k + i);
    assert h !in a && n !in b;
    n.prev := h.prev;
    n.prev.next := n;
    n.next := q;
    h.prev := q.prev;
    h.prev.next := h;
    q.prev := n;
  }

  /** Main result: splitting and adding the tail back restores the list. */
  method SplitThenAdd<T>(h: Link<T>, q: Link<T>, n: Link<T>, ghost s: seq<Link<T>>, ghost k: nat)
    requires Ring(h, s)
    requires k < |s| && s[k] == q
    requires n != h && n !in s
    modifies h, n, s
    ensures Ring(h, s)
  {
    Split(h, q, n, s, k);
    assert forall i, j :: 0 <= i < k <= j < |s| ==> s[i] != s[j];
    Add(h, n, s[..k], s[k..]);
    assert s[..k] + s[k..] == s;
  }

  // ----- Linking two links past what is between them -----

  /** The link is part of the cycle. */
  predicate On<T(==)>(h: Link<T>, s: seq<Link<T>>, q: Link<T>) {
    q == h || q in s
  }

  /** `p` is the i-th link of the cycle and `n` the (j + 1)-th: `s[i..j]` stands between them. */
  ghost predicate Around<T>(h: Link<T>, s: seq<Link<T>>, p: Link<T>, n: Link<T>, i: int, j: int) {
    0 <= i <= |s| && 0 <= j <= |s| && p == At(h, s, i) && n == At(h, s, j + 1)
  }

  /** The list `s` of the head `h`, except that `p` and `n` have been linked to each other. */
  ghost predicate Spliced<T>(h: Link<T>, s: seq<Link<T>>, p: Link<T>, n: Link<T>)
    reads h, s, p, n
  {
    && h !in s && Distinct(s)
    && p.next == n && n.prev == p
    && (forall i :: 0 <= i <= |s| && At(h, s, i) != p ==> At(h, s, i).next == At(h, s, i + 1))
    && (forall i :: 0 <= i <= |s| && At(h, s, i + 1) != n ==> At(h, s, i + 1).prev == At(h, s, i))
  }

  /** With `p` not behind `n`, the list has lost exactly what was between them. */
  lemma SplicedForward<T>(h: Link<T>, s: seq<Link<T>>, p: Link<T>, n: Link<T>, i: nat, j: nat)
    requires Spliced(h, s, p, n) && Around(h, s, p, n, i, j) && i <= j
    ensures Ring(h, s[..i] + s[j..])
  {
    var t := s[..i] + s[j..];
    assert forall k :: 0 <= k <= i ==> At(h, t, k) == At(h, s, k);
    assert forall k :: i < k <= |t| + 1 ==> At(h, t, k) == At(h, s, k + j - i);
  }

  /** What the head leads to is unchanged up to `p`... */
  lemma {:induction false} SameAhead<T>(h: Link<T>, s: seq<Link<T>>, p: Link<T>, n: Link<T>, u: seq<Link<T>>, m: nat)
    requires Spliced(h, s, p, n) && Ring(h, u)
    requires m <= |s| + 1 && forall k :: 0 <= k < m ==> At(h, s, k) != p
    ensures m <= |u| + 1 && At(h, u, m) == At(h, s, m)
    ensures m <= |s| ==> m <= |u|
  {
    if m > 0 {
      SameAhead(h, s, p, n, u, m - 1);
      assert At(h, u, m - 1).next == At(h, u, m);
      assert At(h, s, m - 1).next == At(h, s, m);
      assert At(h, u, |u| + 1) == h;
      assert m <= |s| ==> At(h, s, m) in s;
    }
  }

  /** ...and what leads back to it is unchanged up to `n`. */
  lemma {:induction false} SameBehind<T>(h: Link<T>, s: seq<Link<T>>, p: Link<T>, n: Link<T>, u: seq<Link<T>>, m: nat)
    requires Spliced(h, s, p, n) && Ring(h, u)
    requires m <= |s| + 1 && forall k :: |s| + 1 - m < k <= |s| + 1 ==> At(h, s, k) != n
    ensures m <= |u| + 1 && At(h, u, |u| + 1 - m) == At(h, s, |s| + 1 - m)
    ensures m <= |s| ==> m <= |u|
  {
    if m > 0 {
      SameBehind(h, s, p, n, u, m - 1);
      assert At(h, u, |u| + 2 - m).prev == At(h, u, |u| + 1 - m);
      assert At(h, s, |s| + 2 - m).prev == At(h, s, |s| + 1 - m);
      assert At(h, u, 0) == h;
      assert m <= |s| ==> At(h, s, |s| + 1 - m) in s;
    }
  }

  /** With `p` behind `n` the links between them form a circle of their own, and the head no list. */
  lemma SplicedBackward<T>(h: Link<T>, s: seq<Link<T>>, p: Link<T>, n: Link<T>, i: nat, j: nat, u: seq<Link<T>>)
    requires Spliced(h, s, p, n) && Around(h, s, p, n, i, j) && j < i
    ensures !Ring(h, u)
  {
    if Ring(h, u) {
      SameAhead(h, s, p, n, u, i);
      assert At(h, u, i).next == At(h, u, i + 1);
      SameAhead(h, s, p, n, u, j + 1);
      assert false;
    }
  }

  /** With exactly one of them in the list, the two directions of the list differ. */
  lemma SplicedAcross<T>(h: Link<T>, s: seq<Link<T>>, p: Link<T>, n: Link<T>, u: seq<Link<T>>)
    requires Spliced(h, s, p, n) && On(h, s, p) != On(h, s, n)
    ensures !Ring(h, u)
  {
    if Ring(h, u) {
      if On(h, s, n) {
        var j := PlaceOf(h, s, n);
        SameAhead(h, s, p, n, u, j + 1);
        assert At(h, u, j + 1).prev == At(h, u, j);
        SameAhead(h, s, p, n, u, j);
        assert false;
      } else {
        var j := PlaceOf(h, s, p);
        var i := if p == h then 0 else j + 1;
        assert At(h, s, i) == p;
        SameBehind(h, s, p, n, u, |s| + 1 - i);
        SameBehind(h, s, p, n, u, |s| - i);
        assert false;
      }
    }
  }

  lemma PlaceOf<T>(h: Link<T>, s: seq<Link<T>>, q: Link<T>) returns (j: nat)
    requires On(h, s, q)
    ensures j <= |s| && At(h, s, j + 1) == q
    ensures q != h ==> j < |s|
  {
    if q == h {
      j := |s|;
    } else {
      j :| 0 <= j < |s| && s[j] == q;
    }
  }

  /** With neither in the list it is as it was. */
  lemma SplicedElsewhere<T>(h: Link<T>, s: seq<Link<T>>, p: Link<T>, n: Link<T>)
    requires Spliced(h, s, p, n) && !On(h, s, p) && !On(h, s, n)
    ensures Ring(h, s)
  {
  }

  /** Main result: the head still leads a list if and only if both links are in it, `p` not behind
      `n`, or neither is; and it is the list it was if and only if nothing stood between them. */
  lemma SplicedIsList<T>(h: Link<T>, s: seq<Link<T>>, p: Link<T>, n: Link<T>)
    requires Spliced(h, s, p, n)
    ensures (exists u :: Ring(h, u)) <==>
      (!On(h, s, p) && !On(h, s, n)) || exists i, j :: Around(h, s, p, n, i, j) && i <= j
    ensures Ring(h, s) <==> (!On(h, s, p) && !On(h, s, n)) || exists i :: Around(h, s, p, n, i, i)
  {
    if !On(h, s, p) && !On(h, s, n) {
      SplicedElsewhere(h, s, p, n);
    } else if On(h, s, p) && On(h, s, n) {
      var i := PlaceOf(h, s, p);
      var j := PlaceOf(h, s, n);
      i := if p == h then 0 else i + 1;
      assert Around(h, s, p, n, i, j);
      assert i == j ==> Around(h, s, p, n, i, i);
      SplicedInside(h, s, p, n, i, j);
    } else {
      forall u
        ensures !Ring(h, u)
      {
        SplicedAcross(h, s, p, n, u);
      }
      assert forall i, j :: !Around(h, s, p, n, i, j);
    }
  }

  lemma SplicedInside<T>(h: Link<T>, s: seq<Link<T>>, p: Link<T>, n: Link<T>, i: nat, j: nat)
    requires Spliced(h, s, p, n) && Around(h, s, p, n, i, j)
    ensures (exists u :: Ring(h, u)) <==> i <= j
    ensures Ring(h, s) <==> i == j
    ensures forall x, y :: Around(h, s, p, n, x, y) ==> x == i && y == j
  {
    if i <= j {
      SplicedForward(h, s, p, n, i, j);
      Lost(s, i, j);
      if Ring(h, s) {
        SameRing(h, s, s[..i] + s[j..]);
      }
    } else {
      forall u
        ensures !Ring(h, u)
      {
        SplicedBackward(h, s, p, n, i, j, u);
      }
    }
  }

  /** The part of the list that is lost, and when it is none. */
  lemma Lost<T>(s: seq<T>, i: nat, j: nat)
    requires Distinct(s) && i <= j <= |s|
    ensures forall x :: x in s ==> (x in s[..i] + s[j..] <==> x !in s[i..j])
    ensures s[..i] + s[j..] == s <==> i == j
  {
    assert s == s[..i] + s[i..j] + s[j..];
    if i == j {
    } else {
      assert |s[..i] + s[j..]| != |s|;
    }
  }

  /** The elements outside `drop`, in order. */
  function Keep<T(==)>(s: seq<T>, drop: set<T>): seq<T>
  {
    if s == [] then []
    else
      var front, last := s[..|s| - 1], s[|s| - 1];
      if last in drop then Keep(front, drop) else Keep(front, drop) + [last]
  }

  lemma {:induction false} KeepIn<T>(s: seq<T>, drop: set<T>)
    ensures forall x :: x in Keep(s, drop) <==> x in s && x !in drop
    ensures |Keep(s, drop)| <= |s|
  {
    if s != [] {
      KeepIn(s[..|s| - 1], drop);
      assert s == s[..|s| - 1] + [s[|s| - 1]];
    }
  }

  lemma {:induction false} KeepDistinct<T>(s: seq<T>, drop: set<T>)
    requires Distinct(s)
    ensures Distinct(Keep(s, drop))
  {
    if s != [] {
      KeepDistinct(s[..|s| - 1], drop);
      KeepIn(s[..|s| - 1], drop);
    }
  }

  lemma {:induction false} KeepAll<T>(s: seq<T>, drop: set<T>)
    requires forall x :: x in s ==> x !in drop
    ensures Keep(s, drop) == s
  {
    if s != [] {
      KeepAll(s[..|s| - 1], drop);
      assert s == s[..|s| - 1] + [s[|s| - 1]];
    }
  }

  /** `Keep` retains exactly the elements outside `drop`, and no element twice. */
  lemma KeepMembers<T>(s: seq<T>, drop: set<T>)
    ensures forall x :: x in Keep(s, drop) <==> x in s && x !in drop
    ensures |Keep(s, drop)| <= |s|
    ensures Distinct(s) ==> Distinct(Keep(s, drop))
    ensures (forall x :: x in s ==> x !in drop) ==> Keep(s, drop) == s
  {
    hide Keep;
    KeepIn(s, drop);
    if Distinct(s) {
      KeepDistinct(s, drop);
    }
    if forall x :: x in s ==> x !in drop {
      KeepAll(s, drop);
    }
  }

  lemma {:induction false} KeepNone<T>(s: seq<T>, drop: set<T>)
    requires forall x :: x in s ==> x in drop
    ensures Keep(s, drop) == []
  {
    if s != [] {
      KeepNone(s[..|s| - 1], drop);
    }
  }

  /** Dropping twice is dropping both. */
  lemma {:induction false} KeepUnion<T>(s: seq<T>, a: set<T>, b: set<T>)
    ensures Keep(Keep(s, a), b) == Keep(s, a + b)
  {
    if s != [] {
      var front, last := s[..|s| - 1], s[|s| - 1];
      KeepUnion(front, a, b);
      if last !in a {
        var k := Keep(front, a) + [last];
        assert k[..|k| - 1] == Keep(front, a);
      }
    }
  }

  /** Only the listed elements count. */
  lemma {:induction false} KeepSame<T>(s: seq<T>, a: set<T>, b: set<T>)
    requires forall x :: x in s ==> (x in a <==> x in b)
    ensures Keep(s, a) == Keep(s, b)
  {
    if s != [] {
      KeepSame(s[..|s| - 1], a, b);
    }
  }

  lemma {:induction false} KeepAt<T>(s: seq<T>, drop: set<T>, i: nat)
    requires i < |Keep(s, drop)|
    ensures Keep(s, drop)[i] in s && Keep(s, drop)[i] !in drop
  {
    var front, last := s[..|s| - 1], s[|s| - 1];
    if i < |Keep(front, drop)| {
      KeepAt(front, drop, i);
    }
  }

  /** One turn of the traversal: the body, which may unlink the current link, then the step. */
  method VisitAndStep<T>(q: Link<T>, drop: set<Link<T>>, ghost h: Link<T>, ghost now: seq<Link<T>>, ghost k: nat)
      returns (next: Link<T>)
    requires Ring(h, now)
    requires k < |now| && now[k] == q
    modifies h, now
    ensures Ring(h, if q in drop then now[..k] + now[k + 1..] else now)
    ensures next == At(h, now, k + 2)
  {
    assert At(h, now, k + 1).next == At(h, now, k + 2);
    if q in drop {
      RingNeighbours(h, now, k);
      Remove(q, h, now, k);
    }
    next := q.next;
  }

  /** Where a traversal stands: `visited` is behind it, and the `k` links before the cursor are
      those of the visited ones that were kept. */
  ghost predicate Progress<T>(s: seq<T>, drop: set<T>, visited: seq<T>, now: seq<T>, k: nat) {
    && k <= |now|
    && visited + now[k..] == s
    && now[..k] == Keep(visited, drop)
    && (forall i :: 0 <= i < |now| ==> now[i] in s)
  }

  lemma StepProgress<T>(s: seq<T>, drop: set<T>, visited: seq<T>, now: seq<T>, k: nat)
    requires Progress(s, drop, visited, now, k)
    requires k < |now|
    ensures now[k] in drop ==> Progress(s, drop, visited + [now[k]], now[..k] + now[k + 1..], k)
    ensures now[k] !in drop ==> Progress(s, drop, visited + [now[k]], now, k + 1)
  {
    var visited', q := visited + [now[k]], now[k];
    assert visited'[..|visited|] == visited;
    assert visited' + now[k + 1..] == s;
    if q in drop {
      var next := now[..k] + now[k + 1..];
      assert next[k..] == now[k + 1..] && next[..k] == now[..k];
    } else {
      assert now[..k + 1] == now[..k] + [q];
    }
  }

  /** Main result: QUEUE_FOREACH with a body that may unlink the current link (it does so for the
      links in `drop`) visits every original link exactly once, in order, and terminates. */
  method ForEachRemoving<T>(h: Link<T>, drop: set<Link<T>>, ghost s: seq<Link<T>>) returns (visited: seq<Link<T>>)
    requires Ring(h, s)
    modifies h, s
    ensures visited == s
    ensures Ring(h, Keep(s, drop))
  {
    visited := [];
    ghost var now, k := s, 0;
    assert At(h, s, 0).next == At(h, s, 1);
    var q := h.next;
    while q != h
      invariant Progress(s, drop, visited, now, k)
      invariant q == At(h, now, k + 1)
      invariant Ring(h, now)
      decreases |now| - k
    {
      StepProgress(s, drop, visited, now, k);
      visited := visited + [q];
      var next := VisitAndStep(q, drop, h, now, k);
      if q in drop {
        now := now[..k] + now[k + 1..];
      } else {
        k := k + 1;
      }
      q := next;
    }
    assert now == now[..k] && visited == s;
  }
}
