/** What each completion of the reactor leads to (src/uring.rs): when a connection goes on, with
    what, and when it closes.
 */
module Reactions {
  import opened Wire
  import opened Response
  import opened Ring
  import opened Driving
  import opened Ledger

  /** A connection as a completion left it. */
  datatype Standing = Standing(rx: Rx, tx: TxSide, nt: Notify, e: Env, closing: bool)

  /** The connection was driven from `v`: queued frames and then the leading whole frames were
      served, and it closed when, and only when, there was a reason. */
  ghost predicate Drove(p: Protocol, v: View, s: Standing) {
    && s.rx.Sane()
    && var (w, action) := Gathers(p, Flush(v));
       && s.rx.Unread() == w.unread && s.nt.deferred == w.queue && s.e.requests == w.requests && w.frames <= s.e.frames
       && (MustClose(w, action) ==> s.closing) && (s.closing ==> MayClose(w, action))
  }

  /** The waiting READ is being served; only for want of a pipe was it refused. */
  ghost predicate Begun(was: TxSide, s: Standing) {
    && was.pendingZc.Some? && !s.tx.mode.Idle? && s.tx.pendingZc.None?
    && if s.tx.zc.Some? then s.tx.zc.value.plan == was.pendingZc.value
       else !was.pipe && was.pendingZc.value.fd in s.e.closed
  }

  /** All of tx had gone out: the connection closes if that was the last, goes on with the READ
      that waited, or with the next requests. */
  ghost predicate WentOn(p: Protocol, was: TxSide, v: View, s: Standing) {
    if was.closeAfterSend then s.closing
    else if was.pendingZc.Some? then !s.closing && Begun(was, s)
    else Drove(p, v.(buf := []), s)
  }

  /** A send is repeated, fails, is followed by the rest, or was the last one. */
  ghost predicate AfterSend(p: Protocol, was: TxSide, v: View, res: int, more: bool, s: Standing) {
    if Retried(was, res) then Resent(was, 0, s)
    else if res <= 0 then s.closing
    else if was.off + res < |was.buf| then Resent(was, res, s)
    else if was.mode.ZcHdr? then !s.closing && s.tx.mode.ZcOut? && s.e.owed.spliceOut == 1
    else if was.notifPending > 0 || more then !s.closing && s.tx.mode.Drain?
    else WentOn(p, was, v, s)
  }

  /** A promised notification counts as pending. */
  lemma SendCounted(p: Protocol, was: TxSide, v: View, ev: Cqe, s: Standing)
    requires ev.SendDone? && !Linked(was) && AfterSend(p, Counting(was, ev), v, ev.res, false, s)
    ensures Reacted(p, was, v, ev, s)
  {
  }

  /** Everything from `n` bytes further on is being sent. */
  ghost predicate Resent(was: TxSide, n: nat, s: Standing) {
    !s.closing && s.tx.buf == was.buf && s.tx.off == was.off + n && s.e.owed.send == 1
  }

  /** A linked chain waits for the rest, broke, has bytes left to splice out, or is through. */
  ghost predicate AfterLink(p: Protocol, was: TxSide, v: View, out: bool, res: int, s: Standing) {
    && was.zc.Some? && was.zc.value.chain > 0
    && var z := Noted(was.zc.value, out, res);
       if z.chain > 0 then !s.closing && s.tx == was.(zc := Some(z))
       else if z.err then s.closing
       else if z.outLeft > 0 then Splicing(was, z.(linked := false), s)
       else z.plan.fd in s.e.closed && Drove(p, v.(buf := []), s)
  }

  ghost predicate AfterSpliceOut(p: Protocol, was: TxSide, v: View, res: int, s: Standing) {
    && was.zc.Some?
    && var z := was.zc.value;
       if res == EINTR || res == EAGAIN then !s.closing && s.tx == was && s.e.owed.spliceOut == 1
       else if res <= 0 then s.closing
       else if res < z.outLeft then Splicing(was, z.(linked := false, outLeft := z.outLeft - res), s)
       else z.plan.fd in s.e.closed && Drove(p, v.(buf := []), s)
  }

  /** The READ `z` goes on being spliced out. */
  ghost predicate Splicing(was: TxSide, z: Zc, s: Standing) {
    !s.closing && s.tx == was.(zc := Some(z)) && s.e.owed.spliceOut == 1
  }

  /** A step of filling the pipe is repeated, fails the READ, or brought bytes. */
  ghost predicate AfterSpliceIn(was: TxSide, res: int, s: Standing) {
    && was.zc.Some? && !s.closing
    && var z := was.zc.value;
       if res == EINTR || res == EAGAIN then s.tx == was && s.e.owed.spliceIn == 1
       else if res < 0 then s.tx.mode.Send? && z.plan.fd in s.e.closed
       else Settled(WithGot(was, res), res > 0 && z.got + res < z.want, s)
  }

  /** Where a READ stands after more bytes reached the pipe: still filling, refused for want
      of bytes, or sending a header that promises exactly what arrived. */
  ghost predicate Settled(was: TxSide, more: bool, s: Standing) {
    was.zc.Some? &&
    var z := was.zc.value;
    if more then s.tx == was
    else if z.got == 0 || z.got < z.plan.minCount then s.tx.mode.Send? && z.plan.fd in s.e.closed
    else s.tx.mode.ZcHdr? && s.tx.buf == ReadRespPrefix(z.plan, z.got) && s.tx.zc == Some(z.(outLeft := z.got))
  }

  ghost function WithGot(tx: TxSide, n: nat): TxSide
    requires tx.zc.Some?
  {
    tx.(zc := Some(tx.zc.value.(got := tx.zc.value.got + n)))
  }

  ghost predicate AfterNotif(p: Protocol, was: TxSide, v: View, s: Standing) {
    && was.notifPending > 0
    && if was.mode.Drain? && was.notifPending == 1 then WentOn(p, was, v, s)
       else !s.closing && s.tx == was.(notifPending := was.notifPending - 1)
  }

  ghost predicate AfterRecv(p: Protocol, was: TxSide, v: View, res: int, data: bytes, s: Standing) {
    if res <= 0 && res != EINTR then s.closing
    else if was.mode.Idle? && res > 0 then Drove(p, v.(unread := v.unread + data), s)
    else
      && s.rx.Sane() && s.rx.Unread() == v.unread + data && s.nt.deferred == v.queue && s.e.requests == v.requests
      && (s.closing ==> OutOfStep(v.(unread := v.unread + data)))
  }

  ghost predicate AfterInotify(p: Protocol, was: TxSide, v: View, res: int, finals: seq<bytes>, s: Standing) {
    if res > 0 && was.mode.Idle? && v.queue + finals != [] then Drove(p, Queued(v, finals), s)
    else !s.closing && s.nt.deferred == v.queue + if res > 0 then finals else []
  }

  /** What the completion `ev` led to, from the transmit side `was` and from `v`, which is what
      the connection held once the operation was retired. It says when the connection closes: at
      the end of the stream, a failed receive, send or splice, a broken chain, the last response,
      a request that asks for it, or a stream out of step; and for nothing else. */
  ghost predicate Reacted(p: Protocol, was: TxSide, v: View, ev: Cqe, s: Standing) {
    match ev
    case RecvDone(res, data) => AfterRecv(p, was, v, res, data, s)
    case SendDone(res, more) =>
      if Linked(was) then AfterLink(p, was, v, false, res, s) else AfterSend(p, was, v, res, more, s)
    case SendNotif => AfterNotif(p, was, v, s)
    case SpliceInDone(res, _) => if Linked(was) then AfterLink(p, was, v, false, res, s) else AfterSpliceIn(was, res, s)
    case SpliceOutDone(res) =>
      if Linked(was) then AfterLink(p, was, v, true, res, s) else AfterSpliceOut(p, was, v, res, s)
    case InotifyDone(res, finals) => AfterInotify(p, was, v, res, finals, s)
  }

  /** Each of these frames waits to be sent or was committed. */
  ghost predicate Holds(fs: seq<bytes>, s: Standing) {
    forall f :: f in fs ==> f in s.nt.deferred || Out(f, -1) in s.e.frames
  }

  /** Queued frames survive being driven. */
  lemma DroveHolds(p: Protocol, v: View, fs: seq<bytes>, s: Standing)
    requires Drove(p, Queued(v, fs), s)
    ensures Holds(fs, s)
  {
    forall f | f in fs ensures f in s.nt.deferred || Out(f, -1) in s.e.frames {
      DriveKeeps(p, Queued(v, fs), f);
    }
  }
}
