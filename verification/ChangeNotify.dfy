/** CHANGE_NOTIFY requests of one connection (the notify queues of
    src/smb2/handlers.rs and their servicing in src/uring.rs): each pended request gets
    an async id and, whatever ends it, one final response.
 */
module ChangeNotify {
  import opened Wire

  const MAX_NOTIFY_PER_CONN := 1024
  const CANCELLED := 0xC000_0120
  const NOTIFY_CLEANUP := 0x10B
  const INSUFFICIENT_RESOURCES := 0xC000_009A
  const SUCCESS := 0

  /** An async id in some queue, with the handle, watch descriptor or status that goes with it. */
  datatype Entry = Entry(key: int, id: nat)

  function Count(s: seq<Entry>, id: nat): nat {
    if s == [] then 0 else Count(s[..|s| - 1], id) + if s[|s| - 1].id == id then 1 else 0
  }

  function RemoveAt(s: seq<Entry>, p: nat): seq<Entry>
    requires p < |s|
  {
    s[..p] + s[p + 1..]
  }

  lemma CountSnoc(s: seq<Entry>, e: Entry, id: nat)
    ensures Count(s + [e], id) == Count(s, id) + if e.id == id then 1 else 0
  {
    assert (s + [e])[..|s|] == s;
  }

  lemma {:induction false} CountAppend(s: seq<Entry>, t: seq<Entry>, id: nat)
    ensures Count(s + t, id) == Count(s, id) + Count(t, id)
  {
    if t == [] {
      assert s + t == s;
    } else {
      var k := |t| - 1;
      assert s + t == (s + t[..k]) + [t[k]];
      CountSnoc(s + t[..k], t[k], id);
      CountAppend(s, t[..k], id);
    }
  }

  lemma CountRemoved(s: seq<Entry>, p: nat, id: nat)
    requires p < |s|
    ensures Count(RemoveAt(s, p), id) == Count(s, id) - if s[p].id == id then 1 else 0
  {
    assert s == s[..p] + [s[p]] + s[p + 1..];
    CountAppend(s[..p] + [s[p]], s[p + 1..], id);
    CountSnoc(s[..p], s[p], id);
    CountAppend(s[..p], s[p + 1..], id);
  }

  lemma {:induction false} CountHas(s: seq<Entry>, id: nat)
    ensures Count(s, id) > 0 <==> exists p :: 0 <= p < |s| && s[p].id == id
  {
    if s != [] {
      var k := |s| - 1;
      CountHas(s[..k], id);
      if p :| 0 <= p < |s| && s[p].id == id {
        assert p < k ==> s[..k][p].id == id;
      }
    }
  }

  // -------------------------------------------------------- the invariant

  /** `active`: pended requests by handle; `pends` and `ended`: what the protocol layer has yet to
      hand to the reactor; `watches`: requests waiting for events; `finals`: every final
      response ever queued; `owner`: the session that made each request. */
  datatype Queues = Queues(
    next: nat, active: seq<Entry>, pends: seq<Entry>, ended: seq<Entry>, watches: seq<Entry>, finals: seq<Entry>,
    owner: map<nat, nat>)

  /** Requests that are waiting, for the reactor or for an event. */
  function Waiting(q: Queues, id: nat): nat { Count(q.pends, id) + Count(q.watches, id) }

  /** Where one async id stands: not handed out yet, waiting once, or answered once; and a waiting
      request is either active or has been ended. */
  ghost predicate Stage(q: Queues, id: nat) {
    && Waiting(q, id) + Count(q.finals, id) == (if 1 <= id < q.next then 1 else 0)
    && Count(q.active, id) <= 1
    && (Count(q.active, id) == 1 ==> Count(q.ended, id) == 0 && Waiting(q, id) == 1)
    && (Waiting(q, id) == 1 && Count(q.active, id) == 0 ==> Count(q.ended, id) > 0)
    && Count(q.ended, id) <= (if 1 <= id < q.next then 1 else 0)
  }

  ghost predicate Inv(q: Queues) { q.next >= 1 && (forall id :: Stage(q, id)) && Numbered(q.owner, q.next) }

  ghost predicate Numbered(owner: map<nat, nat>, next: nat) { forall id :: id in owner <==> 1 <= id < next }

  /** Every async id has at most one final response, and one that left the active list exactly one
      as soon as the reactor has taken over what the protocol layer left. */
  lemma OneFinal(q: Queues, id: nat)
    requires Inv(q)
    ensures Count(q.finals, id) <= 1
    ensures q.pends == [] && q.ended == [] && 1 <= id < q.next ==>
              && (Count(q.active, id) == 1 <==> Count(q.watches, id) == 1)
              && (Count(q.active, id) == 0 <==> Count(q.finals, id) == 1)
  {
    assert Stage(q, id);
  }

  // ----------------------------------------------------------- the steps

  /** A new request: the next id, active and pending. */
  function Pended(q: Queues, sess: nat, fid: int): Queues {
    q.(next := q.next + 1, active := q.active + [Entry(fid, q.next)], pends := q.pends + [Entry(fid, q.next)],
       owner := q.owner[q.next := sess])
  }

  lemma PendedKept(q: Queues, sess: nat, fid: int)
    requires Inv(q)
    ensures Inv(Pended(q, sess, fid))
  {
    forall id ensures Stage(Pended(q, sess, fid), id) {
      assert Stage(q, id);
      CountSnoc(q.active, Entry(fid, q.next), id);
      CountSnoc(q.pends, Entry(fid, q.next), id);
    }
  }

  /** An active request is ended by cancel or by its handle closing. */
  function Ended(q: Queues, p: nat, status: int): Queues
    requires p < |q.active|
  {
    q.(active := RemoveAt(q.active, p), ended := q.ended + [Entry(status, q.active[p].id)])
  }

  lemma EndedKept(q: Queues, p: nat, status: int)
    requires Inv(q) && p < |q.active|
    ensures Inv(Ended(q, p, status))
  {
    forall id ensures Stage(Ended(q, p, status), id) {
      assert Stage(q, id);
      CountRemoved(q.active, p, id);
      CountSnoc(q.ended, Entry(status, q.active[p].id), id);
    }
  }

  /** The active list without an id. */
  function Retain(s: seq<Entry>, id: nat): seq<Entry> {
    if s == [] then []
    else
      var k := |s| - 1;
      Retain(s[..k], id) + if s[k].id == id then [] else [s[k]]
  }

  lemma {:induction false} RetainCount(s: seq<Entry>, id: nat, x: nat)
    ensures Count(Retain(s, id), x) == if x == id then 0 else Count(s, x)
  {
    if s != [] {
      var k := |s| - 1;
      RetainCount(s[..k], id, x);
      if s[k].id != id {
        CountSnoc(Retain(s[..k], id), s[k], x);
      } else {
        assert Retain(s[..k], id) + [] == Retain(s[..k], id);
      }
    }
  }

  /** Queue the final response of a request that no longer waits. */
  function Completed(q: Queues, id: nat, status: int): Queues {
    q.(finals := q.finals + [Entry(status, id)], active := Retain(q.active, id))
  }

  /** The first pend gets a watch. */
  function Watched(q: Queues, wd: int): Queues
    requires q.pends != []
  {
    q.(pends := q.pends[1..], watches := q.watches + [Entry(wd, q.pends[0].id)])
  }

  lemma WatchedKept(q: Queues, wd: int)
    requires Inv(q) && q.pends != []
    ensures Inv(Watched(q, wd))
  {
    forall id ensures Stage(Watched(q, wd), id) {
      assert Stage(q, id);
      assert RemoveAt(q.pends, 0) == q.pends[1..];
      CountRemoved(q.pends, 0, id);
      CountSnoc(q.watches, Entry(wd, q.pends[0].id), id);
    }
  }

  /** Or it fails at once. */
  function Refused(q: Queues): Queues
    requires q.pends != []
  {
    Completed(q.(pends := q.pends[1..]), q.pends[0].id, INSUFFICIENT_RESOURCES)
  }

  lemma RefusedKept(q: Queues)
    requires Inv(q) && q.pends != []
    ensures Inv(Refused(q))
  {
    forall id ensures Stage(Refused(q), id) {
      assert Stage(q, id);
      assert RemoveAt(q.pends, 0) == q.pends[1..];
      CountRemoved(q.pends, 0, id);
      CountSnoc(q.finals, Entry(INSUFFICIENT_RESOURCES, q.pends[0].id), id);
      RetainCount(q.active, q.pends[0].id, id);
    }
  }

  /** A watch ends with a final response. */
  function Fired(q: Queues, p: nat, status: int): Queues
    requires p < |q.watches|
  {
    Completed(q.(watches := RemoveAt(q.watches, p)), q.watches[p].id, status)
  }

  lemma FiredKept(q: Queues, p: nat, status: int)
    requires Inv(q) && p < |q.watches|
    ensures Inv(Fired(q, p, status))
  {
    forall id ensures Stage(Fired(q, p, status), id) {
      assert Stage(q, id);
      CountRemoved(q.watches, p, id);
      CountSnoc(q.finals, Entry(status, q.watches[p].id), id);
      RetainCount(q.active, q.watches[p].id, id);
    }
  }

  /** The reactor takes over the first ended request: its watch, if it has one, goes and is
      answered. */
  function Settled(q: Queues, at: Option<nat>): Queues
    requires q.ended != [] && (at.Some? ==> at.value < |q.watches|)
  {
    var rest := q.(ended := q.ended[1..]);
    if at.None? then rest
    else rest.(watches := RemoveAt(q.watches, at.value), finals := q.finals + [q.ended[0]])
  }

  lemma SettledKept(q: Queues, at: Option<nat>)
    requires Inv(q) && q.ended != [] && q.pends == []
    requires at.Some? ==> at.value < |q.watches| && q.watches[at.value].id == q.ended[0].id
    requires at.None? ==> Count(q.watches, q.ended[0].id) == 0
    ensures Inv(Settled(q, at))
  {
    assert RemoveAt(q.ended, 0) == q.ended[1..];
    forall id ensures Stage(Settled(q, at), id) {
      assert Stage(q, id);
      CountRemoved(q.ended, 0, id);
      if at.Some? {
        CountRemoved(q.watches, at.value, id);
        CountSnoc(q.finals, q.ended[0], id);
      }
    }
  }

  // -------------------------------------------------------------- the code

  /** The entries whose key is (or is not) `key`, in order. */
  function Keyed(s: seq<Entry>, key: int, is_: bool): seq<Entry> {
    if s == [] then []
    else
      var k := |s| - 1;
      Keyed(s[..k], key, is_) + if (s[k].key == key) == is_ then [s[k]] else []
  }

  function Stamp(s: seq<Entry>, status: int): (t: seq<Entry>)
    ensures |t| == |s|
  {
    seq(|s|, i requires 0 <= i < |s| => Entry(status, s[i].id))
  }

  lemma {:induction false} KeyedRemove(s: seq<Entry>, p: nat, key: int)
    requires p < |s| && s[p].key == key
    ensures Keyed(RemoveAt(s, p), key, false) == Keyed(s, key, false)
  {
    var k := |s| - 1;
    if p < k {
      assert RemoveAt(s, p) == RemoveAt(s[..k], p) + [s[k]];
      assert RemoveAt(s, p)[..k - 1] == RemoveAt(s[..k], p);
      KeyedRemove(s[..k], p, key);
    } else {
      assert RemoveAt(s, p) == s[..k];
    }
  }

  lemma {:induction false} KeyedFirst(s: seq<Entry>, p: nat, key: int)
    requires p < |s| && s[p].key == key && forall j :: 0 <= j < p ==> s[j].key != key
    ensures Keyed(s, key, true) == [s[p]] + Keyed(RemoveAt(s, p), key, true)
  {
    var k := |s| - 1;
    if p < k {
      assert RemoveAt(s, p) == RemoveAt(s[..k], p) + [s[k]];
      assert RemoveAt(s, p)[..k - 1] == RemoveAt(s[..k], p);
      KeyedFirst(s[..k], p, key);
    } else {
      assert RemoveAt(s, p) == s[..k];
      KeyedNone(s[..k], key);
    }
  }

  /** One more request is answered, in order. */
  lemma StampFirst(s: seq<Entry>, p: nat, key: int, status: int, finals: seq<Entry>)
    requires p < |s| && s[p].key == key && forall j :: 0 <= j < p ==> s[j].key != key
    ensures finals + Stamp(Keyed(s, key, true), status) ==
            (finals + [Entry(status, s[p].id)]) + Stamp(Keyed(RemoveAt(s, p), key, true), status)
  {
    KeyedFirst(s, p, key);
  }

  /** The watches that the requests `s` get, and the answers of those that cannot be watched. */
  function Granted(s: seq<Entry>, wd: nat -> int): seq<Entry> {
    if s == [] then [] else (if wd(s[0].id) < 0 then [] else [Entry(wd(s[0].id), s[0].id)]) + Granted(s[1..], wd)
  }

  function Denied(s: seq<Entry>, wd: nat -> int): seq<Entry> {
    if s == [] then []
    else (if wd(s[0].id) < 0 then [Entry(INSUFFICIENT_RESOURCES, s[0].id)] else []) + Denied(s[1..], wd)
  }

  lemma {:induction false} DeniedHas(s: seq<Entry>, wd: nat -> int, x: Entry)
    requires x in s
    ensures if wd(x.id) < 0 then Entry(INSUFFICIENT_RESOURCES, x.id) in Denied(s, wd) else Entry(wd(x.id), x.id) in Granted(s, wd)
  {
    if x != s[0] { DeniedHas(s[1..], wd, x); }
  }

  /** Handing over is halfway: what was queued is what the rest of the requests still adds. */
  ghost predicate Handing(was: Queues, q: Queues, wd: nat -> int) {
    && q.watches + Granted(q.pends, wd) == was.watches + Granted(was.pends, wd)
    && q.finals + Denied(q.pends, wd) == was.finals + Denied(was.pends, wd)
  }

  lemma HandingStep(was: Queues, q: Queues, wd: nat -> int)
    requires q.pends != [] && Handing(was, q, wd)
    ensures var id := q.pends[0].id; Handing(was, if wd(id) < 0 then Refused(q) else Watched(q, wd(id)), wd)
  {
    var id, rest := q.pends[0].id, q.pends[1..];
    if wd(id) < 0 {
      assert q.watches + ([] + Granted(rest, wd)) == q.watches + Granted(rest, wd);
      assert q.finals + ([Entry(INSUFFICIENT_RESOURCES, id)] + Denied(rest, wd)) ==
             (q.finals + [Entry(INSUFFICIENT_RESOURCES, id)]) + Denied(rest, wd);
    } else {
      assert q.finals + ([] + Denied(rest, wd)) == q.finals + Denied(rest, wd);
      assert q.watches + ([Entry(wd(id), id)] + Granted(rest, wd)) == (q.watches + [Entry(wd(id), id)]) + Granted(rest, wd);
    }
  }

  lemma {:induction false} KeyedNone(s: seq<Entry>, key: int)
    requires forall i :: 0 <= i < |s| ==> s[i].key != key
    ensures Keyed(s, key, false) == s && Keyed(s, key, true) == []
  {
    if s != [] {
      KeyedNone(s[..|s| - 1], key);
    }
  }

  method FindId(s: seq<Entry>, id: nat) returns (p: Option<nat>)
    ensures p.Some? ==> p.value < |s| && s[p.value].id == id && forall j :: 0 <= j < p.value ==> s[j].id != id
    ensures p.None? ==> forall j :: 0 <= j < |s| ==> s[j].id != id
  {
    p := None;
    for i := 0 to |s|
      invariant p.None? && forall j :: 0 <= j < i ==> s[j].id != id
    {
      if s[i].id == id { return Some(i); }
    }
  }

  /** Every request pended on a handle of that number ends. */
  function Cleaned(q: Queues, fid: int): Queues {
    q.(active := Keyed(q.active, fid, false), ended := q.ended + Stamp(Keyed(q.active, fid, true), NOTIFY_CLEANUP))
  }

  /** The requests that session `sess` made on its handle `fid`. */
  function OwnedBy(s: seq<Entry>, fid: int, owner: map<nat, nat>, sess: nat): seq<Entry> {
    if s == [] then []
    else
      var k := |s| - 1;
      OwnedBy(s[..k], fid, owner, sess) + if s[k].key == fid && s[k].id in owner && owner[s[k].id] == sess then [s[k]] else []
  }

  /** Another session's active request carries the handle's number. */
  ghost predicate Shared(q: Queues, sess: nat, fid: int) {
    exists e :: e in q.active && e.key == fid && !(e.id in q.owner && q.owner[e.id] == sess)
  }

  lemma {:induction false} CleanupExact(s: seq<Entry>, fid: int, owner: map<nat, nat>, sess: nat)
    ensures |OwnedBy(s, fid, owner, sess)| <= |Keyed(s, fid, true)|
    ensures Keyed(s, fid, true) == OwnedBy(s, fid, owner, sess) <==>
            forall e :: e in s && e.key == fid ==> e.id in owner && owner[e.id] == sess
  {
    if s != [] {
      var k := |s| - 1;
      CleanupExact(s[..k], fid, owner, sess);
      InitLast(s);
      var a, b, e := Keyed(s[..k], fid, true), OwnedBy(s[..k], fid, owner, sess), s[k];
      assert forall x :: x in s <==> x in s[..k] || x == e;
      if e.key == fid && !(e.id in owner && owner[e.id] == sess) {
        assert |a + [e]| > |b + []|;
      } else if e.key == fid {
        SnocSame(a, b, e);
      } else {
        assert a + [] == a && b + [] == b;
      }
    }
  }

  lemma SnocSame(a: seq<Entry>, b: seq<Entry>, e: Entry)
    ensures a + [e] == b + [e] <==> a == b
  {
    if a + [e] == b + [e] {
      assert a == (a + [e])[..|a|] && b == (b + [e])[..|b|];
    }
  }

  lemma {:induction false} KeyedIs(s: seq<Entry>, key: int, e: Entry)
    requires e in s && e.key == key
    ensures e in Keyed(s, key, true) && e !in Keyed(s, key, false)
  {
    var k := |s| - 1;
    InitLast(s);
    KeyedHas(s, key);
    if e in s[..k] { KeyedIs(s[..k], key, e); }
  }

  lemma StampHas(s: seq<Entry>, key: int, status: int, e: Entry)
    requires e in s && e.key == key
    ensures Entry(status, e.id) in Stamp(Keyed(s, key, true), status)
  {
    KeyedIs(s, key, e);
    var gone := Keyed(s, key, true);
    var i :| 0 <= i < |gone| && gone[i] == e;
    assert Stamp(gone, status)[i] == Entry(status, e.id);
  }

  /** Whoever made it, a request on a handle of that number ends. */
  lemma CleanedEnds(q: Queues, fid: int, e: Entry)
    requires e in q.active && e.key == fid
    ensures e !in Cleaned(q, fid).active && Entry(NOTIFY_CLEANUP, e.id) in Cleaned(q, fid).ended
  {
    KeyedIs(q.active, fid, e);
    StampHas(q.active, fid, NOTIFY_CLEANUP, e);
  }

  /** File ids are numbered by each session on its own. Two sessions on one connection each watch the
      handle 5, and one of them closes it: the request of the other, whose handle stays open, ends too. */
  lemma SharedFidExample()
    ensures var q := Pended(Pended(Queues(1, [], [], [], [], [], map[]), 1, 5), 2, 5);
            && Entry(5, 2) in q.active && q.owner[2] == 2 && Shared(q, 1, 5)
            && Entry(5, 2) !in Cleaned(q, 5).active && Entry(NOTIFY_CLEANUP, 2) in Cleaned(q, 5).ended
  {
    var q := Pended(Pended(Queues(1, [], [], [], [], [], map[]), 1, 5), 2, 5);
    assert q.active[1] == Entry(5, 2);
    CleanedEnds(q, 5, Entry(5, 2));
  }

  method FindKey(s: seq<Entry>, key: int) returns (p: Option<nat>)
    ensures p.Some? ==> p.value < |s| && s[p.value].key == key && forall j :: 0 <= j < p.value ==> s[j].key != key
    ensures p.None? ==> forall j :: 0 <= j < |s| ==> s[j].key != key
  {
    p := None;
    for i := 0 to |s|
      invariant p.None? && forall j :: 0 <= j < i ==> s[j].key != key
    {
      if s[i].key == key { return Some(i); }
    }
  }

  class Notifies {
    var q: Queues

    constructor ()
      ensures Inv(q) && q.next == 1 && q.active == q.finals == []
    {
      q := Queues(1, [], [], [], [], [], map[]);
      new;
      assert forall id :: Stage(q, id);
    }

    /** `isDir`: the handle names an open directory. */
    method Request(sess: nat, fid: int, isDir: bool) returns (r: Option<nat>)
      requires Inv(q)
      modifies this
      ensures Inv(q) && (r.Some? <==> |old(q).active| < MAX_NOTIFY_PER_CONN && isDir)
      ensures q == if r.Some? then Pended(old(q), sess, fid) else old(q)
      ensures r.Some? ==> r.value == old(q).next && Count(old(q).finals, r.value) == 0
    {
      if |q.active| >= MAX_NOTIFY_PER_CONN || !isDir { return None; }
      PendedKept(q, sess, fid);
      assert Stage(q, q.next);
      r := Some(q.next);
      q := Pended(q, sess, fid);
    }

    /** CANCEL ends the request it names, if that is still active. */
    method Cancel(aid: Option<nat>)
      requires Inv(q)
      modifies this
      ensures Inv(q) && q == old(q).(active := q.active, ended := q.ended)
      ensures aid.Some? && Count(old(q).active, aid.value) == 1 ==>
                Count(q.active, aid.value) == 0 && q.ended == old(q).ended + [Entry(CANCELLED, aid.value)]
      ensures aid.None? || Count(old(q).active, aid.value) == 0 ==> q == old(q)
    {
      if aid.None? { return; }
      var p := FindId(q.active, aid.value);
      CountHas(q.active, aid.value);
      if p.Some? {
        assert Stage(q, aid.value);
        EndedKept(q, p.value, CANCELLED);
        CountRemoved(q.active, p.value, aid.value);
        q := Ended(q, p.value, CANCELLED);
      }
    }

    /** Session `sess` closes handle `fid`: every request pended on a handle of that number ends, which
        are those of this session exactly when no other session's active request carries the number. */
    method Cleanup(sess: nat, fid: int)
      requires Inv(q)
      modifies this
      ensures Inv(q) && q == Cleaned(old(q), fid)
      ensures Keyed(old(q).active, fid, true) == OwnedBy(old(q).active, fid, old(q).owner, sess) <==> !Shared(old(q), sess, fid)
    {
      var i := 0;
      ghost var was, n := q, 0;
      assert Cleaning(was, q, 0, 0, fid);
      while i < |q.active|
        invariant Inv(q) && 0 <= i && Cleaning(was, q, n, i, fid)
        decreases |q.active| - i
      {
        CleaningStep(was, q, n, i, fid);
        if q.active[i].key == fid {
          EndedKept(q, i, NOTIFY_CLEANUP);
          q := Ended(q, i, NOTIFY_CLEANUP);
        } else {
          i := i + 1;
        }
        n := n + 1;
      }
      CleaningDone(was, q, n, i, fid);
      CleanupExact(was.active, fid, was.owner, sess);
    }

    /** Hand pending requests to the kernel: `wd` is the watch descriptor each would get,
        negative when it cannot be watched. */
    method StartWatches(wd: nat -> int)
      requires Inv(q)
      modifies this
      ensures Inv(q) && q.pends == [] && q.next == old(q).next && q.ended == old(q).ended
      // the requests that can be watched get their watches and the others their answers, in order
      ensures q.watches == old(q).watches + Granted(old(q).pends, wd)
      ensures q.finals == old(q).finals + Denied(old(q).pends, wd)
      ensures forall x :: x in old(q).pends && wd(x.id) < 0 ==> Entry(INSUFFICIENT_RESOURCES, x.id) in q.finals
      ensures forall x :: x in old(q).pends && wd(x.id) >= 0 ==> Entry(wd(x.id), x.id) in q.watches
      // a request that can be watched stays active
      ensures forall id :: wd(id) >= 0 ==> Count(q.active, id) == Count(old(q).active, id)
      ensures forall id :: wd(id) >= 0 ==> Count(q.finals, id) == Count(old(q).finals, id)
    {
      ghost var was := q;
      while q.pends != []
        invariant Inv(q) && q.next == was.next && q.ended == was.ended && Handing(was, q, wd)
        invariant forall id :: wd(id) >= 0 ==> Count(q.active, id) == Count(was.active, id)
        invariant forall id :: wd(id) >= 0 ==> Count(q.finals, id) == Count(was.finals, id)
        decreases |q.pends|
      {
        var id := q.pends[0].id;
        HandingStep(was, q, wd);
        if wd(id) < 0 {
          RefusedKept(q);
          RefusedCounts(q);
          q := Refused(q);
        } else {
          WatchedKept(q, wd(id));
          q := Watched(q, wd(id));
        }
      }
      assert q.watches + [] == q.watches && q.finals + [] == q.finals;
      forall x | x in was.pends
        ensures if wd(x.id) < 0 then Entry(INSUFFICIENT_RESOURCES, x.id) in q.finals else Entry(wd(x.id), x.id) in q.watches
      {
        DeniedHas(was.pends, wd, x);
      }
    }

    /** Answer the requests that were cancelled or whose handle closed, with the status that
        ended them. */
    method AnswerEnded()
      requires Inv(q) && q.pends == []
      modifies this
      ensures Inv(q) && q.pends == [] && q.ended == [] && q.next == old(q).next && q.active == old(q).active
      ensures old(q).finals <= q.finals
      ensures forall d :: d in old(q).ended && Count(old(q).finals, d.id) == 0 ==> d in q.finals
    {
      ghost var was := q;
      while q.ended != []
        invariant Inv(q) && q.pends == [] && q.next == was.next && q.active == was.active && was.finals <= q.finals
        invariant forall d :: d in was.ended && Count(was.finals, d.id) == 0 ==> d in q.finals || (d in q.ended && Count(q.finals, d.id) == 0)
        decreases |q.ended|
      {
        var d := q.ended[0];
        var p := FindId(q.watches, d.id);
        CountHas(q.watches, d.id);
        assert p.None? ==> Count(q.watches, d.id) == 0;
        SettledKept(q, p);
        SettledFinals(q, p);
        q := Settled(q, p);
      }
    }

    /** After each request frame the reactor takes over both queues. Then exactly the active
        requests wait for an event, and every other one has its final response. */
    method Service(wd: nat -> int)
      requires Inv(q)
      modifies this
      ensures Inv(q) && q.pends == [] && q.ended == [] && q.next == old(q).next && old(q).finals <= q.finals
      ensures forall id :: 1 <= id < q.next ==> (Count(q.active, id) == 0 <==> Count(q.finals, id) == 1)
      ensures forall id :: wd(id) >= 0 ==> Count(q.active, id) == Count(old(q).active, id)
      ensures forall d :: d in old(q).ended && wd(d.id) >= 0 && Count(old(q).finals, d.id) == 0 ==> d in q.finals
      ensures forall x :: x in old(q).pends && wd(x.id) < 0 ==> Entry(INSUFFICIENT_RESOURCES, x.id) in q.finals
    {
      StartWatches(wd);
      AnswerEnded();
      forall id | 1 <= id < q.next ensures Count(q.active, id) == 0 <==> Count(q.finals, id) == 1 {
        OneFinal(q, id);
      }
    }

    /** Events on a watch descriptor complete every request waiting on it. */
    method FireAll(wd: int)
      requires Inv(q)
      modifies this
      ensures Inv(q) && q.watches == Keyed(old(q).watches, wd, false)
      ensures q == old(q).(active := q.active, watches := q.watches, finals := q.finals)
      ensures q.finals == old(q).finals + Stamp(Keyed(old(q).watches, wd, true), SUCCESS)
    {
      ghost var was := q;
      var p: Option<nat> := FindKey(q.watches, wd);
      while p.Some?
        invariant Inv(q) && Keyed(q.watches, wd, false) == Keyed(was.watches, wd, false)
        invariant q == was.(active := q.active, watches := q.watches, finals := q.finals)
        invariant q.finals + Stamp(Keyed(q.watches, wd, true), SUCCESS) == was.finals + Stamp(Keyed(was.watches, wd, true), SUCCESS)
        invariant p.Some? ==> p.value < |q.watches| && q.watches[p.value].key == wd
                              && forall j :: 0 <= j < p.value ==> q.watches[j].key != wd
        invariant p.None? ==> forall j :: 0 <= j < |q.watches| ==> q.watches[j].key != wd
        decreases |q.watches|, if p.Some? then 1 else 0
      {
        FiredKept(q, p.value, SUCCESS);
        KeyedRemove(q.watches, p.value, wd);
        StampFirst(q.watches, p.value, wd, SUCCESS, q.finals);
        q := Fired(q, p.value, SUCCESS);
        p := FindKey(q.watches, wd);
      }
      KeyedNone(q.watches, wd);
      assert q.finals + [] == q.finals;
    }

    /** A batch of events: descriptors that saw activity, then descriptors whose directory is gone. */
    method OnInotify(wds: seq<int>)
      requires Inv(q)
      modifies this
      ensures Inv(q) && old(q).finals <= q.finals
      ensures q == old(q).(active := q.active, watches := q.watches, finals := q.finals)
      ensures forall w :: w in q.watches <==> w in old(q).watches && w.key !in wds
      ensures forall w :: w in old(q).watches && w.key in wds ==> Entry(SUCCESS, w.id) in q.finals
      ensures q.pends == [] && q.ended == [] ==>
                forall id :: 1 <= id < q.next ==> (Count(q.active, id) == 0 <==> Count(q.finals, id) == 1)
    {
      ghost var was := q;
      for i := 0 to |wds|
        invariant Inv(q) && q == was.(active := q.active, watches := q.watches, finals := q.finals) && was.finals <= q.finals
        invariant forall w :: w in q.watches <==> w in was.watches && w.key !in wds[..i]
        invariant forall w :: w in was.watches && w.key in wds[..i] ==> Entry(SUCCESS, w.id) in q.finals
      {
        KeyedHas(q.watches, wds[i]);
        forall w | w in q.watches && w.key == wds[i]
          ensures Entry(SUCCESS, w.id) in Stamp(Keyed(q.watches, wds[i], true), SUCCESS)
        {
          StampHas(q.watches, wds[i], SUCCESS, w);
        }
        FireAll(wds[i]);
      }
      assert wds[..|wds|] == wds;
      forall id | q.pends == [] && q.ended == [] && 1 <= id < q.next
        ensures Count(q.active, id) == 0 <==> Count(q.finals, id) == 1
      {
        OneFinal(q, id);
      }
    }
  }

  lemma {:induction false} KeyedHas(s: seq<Entry>, key: int)
    ensures forall w :: w in Keyed(s, key, false) <==> w in s && w.key != key
  {
    if s != [] {
      KeyedHas(s[..|s| - 1], key);
      assert s == s[..|s| - 1] + [s[|s| - 1]];
    }
  }

  lemma RefusedCounts(q: Queues)
    requires q.pends != []
    ensures forall id :: id != q.pends[0].id ==>
              Count(Refused(q).active, id) == Count(q.active, id) && Count(Refused(q).finals, id) == Count(q.finals, id)
  {
    forall id | id != q.pends[0].id
      ensures Count(Refused(q).active, id) == Count(q.active, id) && Count(Refused(q).finals, id) == Count(q.finals, id)
    {
      RetainCount(q.active, q.pends[0].id, id);
      CountSnoc(q.finals, Entry(INSUFFICIENT_RESOURCES, q.pends[0].id), id);
    }
  }

  /** Taking over the first ended request answers it if it still waits, and no other one. */
  lemma SettledFinals(q: Queues, at: Option<nat>)
    requires Inv(q) && q.ended != [] && q.pends == [] && (at.Some? ==> at.value < |q.watches|)
    requires at.None? ==> Count(q.watches, q.ended[0].id) == 0
    ensures forall d :: d in q.ended && Count(q.finals, d.id) == 0 ==>
              d in Settled(q, at).finals || (d in Settled(q, at).ended && Count(Settled(q, at).finals, d.id) == 0)
  {
    var d0, s := q.ended[0], Settled(q, at);
    assert q.ended == [d0] + q.ended[1..];
    forall d | d in q.ended && Count(q.finals, d.id) == 0
      ensures d in s.finals || (d in s.ended && Count(s.finals, d.id) == 0)
    {
      assert Stage(q, d.id);
      CountHas(q.ended, d.id);
      if d.id == d0.id {
        SameEntry(q.ended, d, d0);
        assert at.Some? && s.finals[|q.finals|] == d0;
      } else if at.Some? {
        CountSnoc(q.finals, d0, d.id);
      }
    }
  }

  /** Ids are ended once, so an id determines its entry. */
  lemma {:induction false} SameEntry(s: seq<Entry>, d: Entry, e: Entry)
    requires d in s && e in s && d.id == e.id && Count(s, d.id) <= 1
    ensures d == e
  {
    var k := |s| - 1;
    assert s == s[..k] + [s[k]];
    CountHas(s[..k], d.id);
    if s[k].id != d.id {
      SameEntry(s[..k], d, e);
    }
  }

  /** Partway through a cleanup: the first `n` of the old active requests have been looked at, and
      the `i` of them that stay are in front. */
  ghost predicate Cleaning(was: Queues, q: Queues, n: nat, i: nat, fid: int) {
    && n <= |was.active| && q == was.(active := q.active, ended := q.ended)
    && q.active == Keyed(was.active[..n], fid, false) + was.active[n..]
    && i == |Keyed(was.active[..n], fid, false)|
    && q.ended == was.ended + Stamp(Keyed(was.active[..n], fid, true), NOTIFY_CLEANUP)
  }

  lemma CleaningDone(was: Queues, q: Queues, n: nat, i: nat, fid: int)
    requires Cleaning(was, q, n, i, fid) && i >= |q.active|
    ensures q.active == Keyed(was.active, fid, false)
    ensures q.ended == was.ended + Stamp(Keyed(was.active, fid, true), NOTIFY_CLEANUP)
  {
    assert was.active[..n] == was.active;
  }

  lemma CleaningStep(was: Queues, q: Queues, n: nat, i: nat, fid: int)
    requires Cleaning(was, q, n, i, fid) && i < |q.active|
    ensures q.active[i].key == fid ==> Cleaning(was, Ended(q, i, NOTIFY_CLEANUP), n + 1, i, fid)
    ensures q.active[i].key != fid ==> Cleaning(was, q, n + 1, i + 1, fid)
  {
    var a := was.active;
    var gone, kept := Keyed(a[..n], fid, true), Keyed(a[..n], fid, false);
    assert a[..n + 1][..n] == a[..n] && a[..n + 1][n] == a[n];
    assert a[n..] == [a[n]] + a[n + 1..];
    if q.active[i].key == fid {
      assert RemoveAt(q.active, i) == kept + a[n + 1..];
      assert Stamp(gone + [a[n]], NOTIFY_CLEANUP) == Stamp(gone, NOTIFY_CLEANUP) + [Entry(NOTIFY_CLEANUP, a[n].id)];
    } else {
      assert q.active == kept + [a[n]] + a[n + 1..];
    }
  }
}
