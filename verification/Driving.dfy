/** What driving a connection does (src/uring.rs, drive): queued frames go out first, then requests
    are taken and answered until something stops it. Said as functions of what the connection holds.
 */
module Driving {
  import opened Wire
  import opened Response
  import opened Ring

  /** What driving a connection changes: the bytes not read yet, what is buffered, committed and
      queued, the requests taken, and the counts of descriptors and requests. */
  datatype View = View(
    unread: bytes, established: bool, buf: bytes, frames: seq<Out>, plan: Option<ReadPlan>, queue: seq<bytes>,
    requests: seq<bytes>, serial: nat, taken: nat)

  ghost function ViewOf(rx: Rx, tx: TxSide, nt: Notify, e: Env, serial: nat, taken: nat): View
    requires rx.Sane()
  {
    View(rx.Unread(), rx.established, tx.buf, e.frames, tx.pendingZc, nt.deferred, e.requests, serial, taken)
  }

  /** The first queued frame joins the batch. */
  function Emitted(v: View): View
    requires v.queue != []
  {
    v.(buf := v.buf + v.queue[0], frames := v.frames + [Out(v.queue[0], -1)], queue := v.queue[1..])
  }

  /** Queued frames move to the batch until the queue is empty or the batch is full. */
  ghost function Flush(v: View): View
    decreases |v.queue|
  {
    if v.queue == [] then v
    else if |Emitted(v).buf| >= TX_FLUSH then Emitted(v)
    else Flush(Emitted(v))
  }

  /** Flushing from `v0` has come to `v`, and stops there if the batch is full. */
  ghost predicate Flushing(v0: View, v: View, full: bool) {
    Flush(v0) == if full then v else Flush(v)
  }

  lemma FlushOne(v0: View, v: View, w: View)
    requires Flushing(v0, v, false) && v.queue != [] && w == Emitted(v)
    ensures Flushing(v0, w, |w.buf| >= TX_FLUSH)
  {
  }

  lemma Flushed(v0: View, v: View, full: bool)
    requires Flushing(v0, v, full) && (full || v.queue == [])
    ensures v == Flush(v0)
  {
  }

  /** Frames that answer no request. */
  function Unasked(fs: seq<bytes>): seq<Out> {
    if fs == [] then [] else [Out(fs[0], -1)] + Unasked(fs[1..])
  }

  /** The first `n` queued frames have joined the batch, in order. */
  ghost predicate Moved(v: View, w: View, n: nat) {
    && n <= |v.queue| && w.queue == v.queue[n..]
    && w.buf == v.buf + Flatten(v.queue[..n]) && w.frames == v.frames + Unasked(v.queue[..n])
  }

  lemma MovedOne(v: View)
    requires v.queue != []
    ensures Moved(v, Emitted(v), 1)
  {
    var q := v.queue;
    assert q[..1] == [q[0]];
    FlattenSnoc([], q[0]);
    assert Unasked([q[0]]) == [Out(q[0], -1)] + Unasked([]);
  }

  lemma MovedMore(v: View, w: View, m: nat)
    requires v.queue != [] && Moved(Emitted(v), w, m)
    ensures Moved(v, w, m + 1)
  {
    var q := v.queue;
    assert q[..m + 1] == [q[0]] + q[1..][..m];
    HeadFirst(v.buf, q[0], q[1..][..m]);
    assert q[..m + 1][1..] == q[1..][..m];
    Assoc(v.frames, [Out(q[0], -1)], Unasked(q[1..][..m]));
  }

  lemma HeadFirst(b: bytes, f: bytes, fs: seq<bytes>)
    ensures b + Flatten([f] + fs) == (b + f) + Flatten(fs)
  {
    FlattenAppend([f], fs);
    FlattenSnoc([], f);
    Assoc(b, f, Flatten(fs));
  }

  /** Flushing sends a prefix of the queue, whole and in order, and stops at the end of the queue or
      with the first frame that fills the batch. */
  lemma {:induction false} FlushExact(v: View) returns (n: nat)
    ensures Moved(v, Flush(v), n)
    ensures Flush(v).queue == [] || |Flush(v).buf| >= TX_FLUSH
    ensures forall k :: 1 <= k < n ==> |v.buf + Flatten(v.queue[..k])| < TX_FLUSH
    decreases |v.queue|
  {
    n := 0;
    if v.queue == [] {
      assert v.queue[..0] == [] && v.buf + [] == v.buf && v.frames + [] == v.frames;
    } else {
      MovedOne(v);
      n := 1;
      if |Emitted(v).buf| < TX_FLUSH {
        var m := FlushExact(Emitted(v));
        MovedMore(v, Flush(v), m);
        n := m + 1;
        forall k | 1 <= k < n ensures |v.buf + Flatten(v.queue[..k])| < TX_FLUSH {
          if k > 1 { SamePrefix(v, k); }
        }
      }
    }
  }

  lemma SamePrefix(v: View, k: nat)
    requires v.queue != [] && 1 <= k <= |v.queue|
    ensures v.buf + Flatten(v.queue[..k]) == Emitted(v).buf + Flatten(Emitted(v).queue[..k - 1])
  {
    var q := v.queue;
    assert q[..k] == [q[0]] + q[1..][..k - 1];
    HeadFirst(v.buf, q[0], q[1..][..k - 1]);
  }

  /** A whole frame is at the head of what has not been read. */
  predicate Ready(v: View) {
    var h := FrameTotal(v.unread, v.established);
    h.Total? && h.n <= |v.unread|
  }

  function HeadOf(v: View): (f: bytes)
    requires Ready(v)
    ensures f <= v.unread && Framed(f)
  {
    v.unread[..FrameTotal(v.unread, v.established).n]
  }

  /** What the protocol layer makes of the head frame. */
  function AnswerTo(p: Protocol, v: View): Outcome
    requires Ready(v)
  {
    p(v.taken, HeadOf(v)[4..], v.serial)
  }

  /** The frame `f` at the head moves from the bytes not read to the requests. */
  function TakenOff(v: View, f: bytes, established: bool): View
    requires |f| <= |v.unread|
  {
    v.(unread := v.unread[|f|..], established := established, requests := v.requests + [f], taken := v.taken + 1)
  }

  /** Exactly what the last request is answered with is buffered, committed and counted. */
  function Committed(v: View, o: Outcome): View {
    v.(buf := v.buf + o.reply,
       frames := if o.reply == [] then v.frames else v.frames + [Out(o.reply, |v.requests| - 1)],
       plan := ActionPlan(o.action), serial := v.serial + o.dups)
  }

  function Queued(v: View, fs: seq<bytes>): View {
    v.(queue := v.queue + fs)
  }

  function Served(p: Protocol, v: View): View
    requires Ready(v)
  {
    var o := AnswerTo(p, v);
    Queued(Committed(TakenOff(v, HeadOf(v), o.established), o), o.finals)
  }

  /** Requests are served until the batch is full, no whole frame is left, one asks for something
      other than a buffered reply, or the stream is out of step. */
  ghost function Gathers(p: Protocol, v: View): (r: (View, FrameAction))
    decreases |v.unread|
  {
    if |v.buf| >= TX_FLUSH then (v, Respond)
    else if FrameTotal(v.unread, v.established).Desync? then (v, CloseNow)
    else if !Ready(v) then (v, Respond)
    else if AnswerTo(p, v).action.Respond? then Gathers(p, Served(p, v))
    else (Served(p, v), AnswerTo(p, v).action)
  }

  /** Requests served one after the other; all but perhaps the last are answered into the buffer. */
  ghost predicate Serves(p: Protocol, vs: seq<View>) {
    |vs| > 1 ==>
      && Ready(vs[0]) && vs[1] == Served(p, vs[0]) && Serves(p, vs[1..])
      && (|vs| > 2 ==> AnswerTo(p, vs[0]).action.Respond?)
  }

  /** Why gathering stopped at the last of `vs`. */
  ghost predicate Stops(p: Protocol, vs: seq<View>, action: FrameAction) {
    && vs != []
    && var w := vs[|vs| - 1];
       if action.Respond? then |w.buf| >= TX_FLUSH || (!Ready(w) && !FrameTotal(w.unread, w.established).Desync?)
       else
         || (|vs| > 1 && Ready(vs[|vs| - 2]) && AnswerTo(p, vs[|vs| - 2]).action == action)
         || (action.CloseNow? && FrameTotal(w.unread, w.established).Desync?)
  }

  lemma ServesMore(p: Protocol, v: View, us: seq<View>, action: FrameAction)
    requires Ready(v) && AnswerTo(p, v).action.Respond? && us != [] && us[0] == Served(p, v)
    requires Serves(p, us) && Stops(p, us, action)
    ensures Serves(p, [v] + us) && Stops(p, [v] + us, action)
  {
    var vs := [v] + us;
    assert vs[1..] == us;
  }

  /** The requests taken are the leading whole frames, each answered in turn, `vs` being the views in
      between, and gathering stops for one of the reasons there are. */
  lemma {:induction false} GathersExact(p: Protocol, v: View) returns (vs: seq<View>)
    ensures vs != [] && vs[0] == v && vs[|vs| - 1] == Gathers(p, v).0
    ensures Serves(p, vs) && Stops(p, vs, Gathers(p, v).1)
    decreases |v.unread|
  {
    vs := [v];
    if |v.buf| < TX_FLUSH && Ready(v) {
      vs := [v, Served(p, v)];
      if AnswerTo(p, v).action.Respond? {
        ServedMoves(p, v);
        var us := GathersExact(p, Served(p, v));
        ServesMore(p, v, us, Gathers(p, v).1);
        vs := [v] + us;
      }
    }
  }

  /** The requests of `w` are those of `v` and then whole frames that led what was unread. */
  ghost predicate Leading(v: View, w: View) {
    && v.requests <= w.requests
    && var fs := w.requests[|v.requests|..]; AllFramed(fs) && Flatten(fs) + w.unread == v.unread
  }

  lemma {:induction false} GathersTakes(p: Protocol, v: View)
    ensures Leading(v, Gathers(p, v).0)
    decreases |v.unread|
  {
    LeadingNone(v, v);
    if |v.buf| < TX_FLUSH && Ready(v) {
      var u := Served(p, v);
      ServedMoves(p, v);
      if AnswerTo(p, v).action.Respond? { GathersTakes(p, u); } else { LeadingNone(u, u); }
      LeadingMore(v, u, Gathers(p, v).0, HeadOf(v));
    }
  }

  lemma ServedMoves(p: Protocol, v: View)
    requires Ready(v)
    ensures var f, u := HeadOf(v), Served(p, v);
            Framed(f) && u.requests == v.requests + [f] && f + u.unread == v.unread && |u.unread| < |v.unread|
  {
  }

  /** With nothing else asked for and nothing to send, no whole frame is left unread. */
  lemma {:induction false} GathersLeaves(p: Protocol, v: View)
    ensures var (w, action) := Gathers(p, v);
            action.Respond? ==> |w.buf| >= TX_FLUSH || !WholeHead(w.unread)
    decreases |v.unread|
  {
    if |v.buf| < TX_FLUSH && Ready(v) && AnswerTo(p, v).action.Respond? {
      GathersLeaves(p, Served(p, v));
    }
  }

  lemma LeadingNone(v: View, w: View)
    requires v.requests == w.requests && v.unread == w.unread
    ensures Leading(v, w)
  {
    assert v.requests[|v.requests|..] == [] && [] + w.unread == w.unread;
  }

  lemma LeadingMore(v: View, u: View, w: View, f: bytes)
    requires Framed(f) && u.requests == v.requests + [f] && f + u.unread == v.unread && Leading(u, w)
    ensures Leading(v, w)
  {
    var rest := w.requests[|u.requests|..];
    assert w.requests[|v.requests|..] == [f] + rest;
    FlattenAppend([f], rest);
    FlattenSnoc([], f);
    Assoc(f, Flatten(rest), w.unread);
  }

  lemma {:induction false} GathersGrows(p: Protocol, v: View)
    ensures var w := Gathers(p, v).0; v.queue <= w.queue && v.frames <= w.frames
    decreases |v.unread|
  {
    if |v.buf| < TX_FLUSH && Ready(v) {
      var u := Served(p, v);
      assert v.queue <= u.queue && v.frames <= u.frames;
      if AnswerTo(p, v).action.Respond? { GathersGrows(p, u); }
    }
  }

  /** A queued frame is still queued or was committed. */
  ghost predicate Kept(f: bytes, w: View) { f in w.queue || Out(f, -1) in w.frames }

  lemma {:induction false} FlushKeeps(v: View, f: bytes)
    requires Kept(f, v)
    ensures Kept(f, Flush(v))
    decreases |v.queue|
  {
    if v.queue != [] {
      var u := Emitted(v);
      assert u.frames[|v.frames|] == Out(v.queue[0], -1);
      assert f in v.queue ==> f == v.queue[0] || f in v.queue[1..];
      assert Out(f, -1) in v.frames ==> Out(f, -1) in u.frames;
      FlushKeeps(u, f);
    }
  }

  lemma DriveKeeps(p: Protocol, v: View, f: bytes)
    requires f in v.queue
    ensures Kept(f, Gathers(p, Flush(v)).0)
  {
    FlushKeeps(v, f);
    GathersGrows(p, Flush(v));
  }

  /** The last request, or the bytes behind it, ask for the end; or a last reply was asked for but
      is empty. */
  ghost predicate MustClose(v: View, action: FrameAction) {
    action.CloseNow? || (action.RespondClose? && v.buf == [])
  }

  /** The reasons to close a connection while driving it: those, and a stream out of step. */
  ghost predicate MayClose(v: View, action: FrameAction) {
    MustClose(v, action) || OutOfStep(v)
  }

  predicate OutOfStep(v: View) {
    FrameTotal(v.unread, v.established).Desync?
  }

  lemma HeadParts(rx: Rx, total: nat)
    requires HeadAt(rx, total)
    ensures var f := rx.buf[rx.off..rx.off + total];
            && rx.Unread()[..total] == f && f[4..] == rx.buf[rx.off + 4..rx.off + total]
            && rx.Unread()[|f|..] == rx.buf[rx.off + total..rx.len]
  {
  }

  /** The head frame as the receive buffer holds it. */
  lemma ReadyHead(v: View, rx: Rx)
    requires rx.Sane() && v.unread == rx.Unread() && v.established == rx.established && Ready(v)
    ensures var total := FrameTotal(v.unread, v.established).n;
            && HeadAt(rx, total) && HeadOf(v) == rx.buf[rx.off..rx.off + total]
            && HeadOf(v)[4..] == rx.buf[rx.off + 4..rx.off + total]
  {
    HeadParts(rx, FrameTotal(v.unread, v.established).n);
  }

  lemma TakenView(rx: Rx, tx: TxSide, nt: Notify, e: Env, serial: nat, taken: nat, total: nat, established: bool, rx': Rx, e': Env)
    requires HeadAt(rx, total) && rx' == rx.(off := rx.off + total, established := established)
    requires e' == Consume(rx, e, total)
    ensures rx'.Sane()
    ensures ViewOf(rx', tx, nt, e', serial, taken + 1) ==
            TakenOff(ViewOf(rx, tx, nt, e, serial, taken), rx.buf[rx.off..rx.off + total], established)
  {
    HeadParts(rx, total);
  }

  lemma CommittedView(rx: Rx, tx: TxSide, nt: Notify, e: Env, serial: nat, taken: nat, o: Outcome, tx': TxSide)
    requires rx.Sane() && tx' == tx.(buf := tx.buf + o.reply, pendingZc := ActionPlan(o.action))
    ensures ViewOf(rx, tx', nt, Accepted(e, o), serial + o.dups, taken) == Committed(ViewOf(rx, tx, nt, e, serial, taken), o)
  {
  }

  lemma ServedIs(p: Protocol, v: View, f: bytes, o: Outcome)
    requires Ready(v) && f == HeadOf(v) && o == AnswerTo(p, v)
    ensures Served(p, v) == Queued(Committed(TakenOff(v, f, o.established), o), o.finals)
  {
  }
}
