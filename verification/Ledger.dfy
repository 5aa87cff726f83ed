/** The books of one connection of the reactor: what holds of its state and its environment together,
    and that every change the handlers make keeps it.
 */
module Ledger {
  import opened Wire
  import opened Response
  import opened Ring
  import opened Driving

  ghost predicate Base(rx: Rx, tx: TxSide, nt: Notify, e: Env) {
    Streams(rx, e) && Regions(rx, tx, e) && Fds(tx, e) && forall i :: 0 <= i < |nt.deferred| ==> Framed(nt.deferred[i])
  }

  /** The count of operations in flight is what the kernel owes, each of the `serial` descriptors
      was duplicated once, and `taken` requests were taken. */
  ghost predicate Accounted(rx: Rx, tx: TxSide, nt: Notify, e: Env, inflight: nat, serial: nat, taken: nat) {
    && Base(rx, tx, nt, e) && inflight == e.owed.Total() && Balanced(e)
    && e.dups == serial && taken == |e.requests|
  }

  /** Only the bytes of tx and the READs it holds matter to the environment. */
  lemma BaseTx(rx: Rx, tx: TxSide, nt: Notify, e: Env, tx': TxSide)
    requires Base(rx, tx, nt, e) && tx'.buf == tx.buf && tx'.zc == tx.zc && tx'.pendingZc == tx.pendingZc
    ensures Base(rx, tx', nt, e)
  {
    assert tx'.Held() == tx.Held();
  }

  lemma RetireSendStreams(rx: Rx, tx: TxSide, nt: Notify, e: Env, ev: Cqe)
    requires Base(rx, tx, nt, e) && KernelAllows(tx, e, ev) && ev.SendDone?
    ensures Streams(rx, Retire(tx, e, ev)) && Retire(tx, e, ev).Grows(e)
  {
    if !e.chain.Broken? {
      SendMoves(e.wire, tx.buf, e.sendAt, Max(ev.res, 0), e.pipe, Stream(e.frames));
    }
  }

  lemma RetireSend(rx: Rx, tx: TxSide, nt: Notify, e: Env, ev: Cqe)
    requires Base(rx, tx, nt, e) && KernelAllows(tx, e, ev) && ev.SendDone?
    ensures Base(rx, tx, nt, Retire(tx, e, ev)) && Retire(tx, e, ev).Grows(e)
  {
    RetireSendStreams(rx, tx, nt, e, ev);
  }

  lemma RetireSpliceIn(rx: Rx, tx: TxSide, nt: Notify, e: Env, ev: Cqe)
    requires Base(rx, tx, nt, e) && KernelAllows(tx, e, ev) && ev.SpliceInDone?
    ensures Base(rx, tx, nt, Retire(tx, e, ev)) && Retire(tx, e, ev).Grows(e)
  {
    if e.chain.Filling? && ev.res == e.spliceInLen {
      FilledWhole(rx, tx, nt, e, ev, Retire(tx, e, ev));
    }
  }

  /** A linked chain got its bytes: header and payload become the next frame. */
  lemma FilledWhole(rx: Rx, tx: TxSide, nt: Notify, e: Env, ev: Cqe, e': Env)
    requires Base(rx, tx, nt, e) && KernelAllows(tx, e, ev) && ev.SpliceInDone? && e' == Retire(tx, e, ev)
    requires e.chain.Filling? && ev.res == e.spliceInLen
    ensures Base(rx, tx, nt, e') && e'.Grows(e)
  {
    FilledStreams(rx, tx, e, ev, e');
    assert tx.buf[0..] == tx.buf && e.pipe + ev.data == ev.data;
  }

  lemma FilledStreams(rx: Rx, tx: TxSide, e: Env, ev: Cqe, e': Env)
    requires Streams(rx, e) && ChainOk(tx, e) && KernelAllows(tx, e, ev) && ev.SpliceInDone? && e' == Retire(tx, e, ev)
    requires e.chain.Filling? && ev.res == e.spliceInLen
    ensures Streams(rx, e') && e'.frames == e.frames + [Out(tx.buf + ev.data, |e.requests| - 1)]
  {
    ReadReplyFramed(tx.zc.value.plan, e.spliceInLen, ev.data);
    AppendOut(e.frames, Out(tx.buf + ev.data, |e.requests| - 1), |e.requests|);
    assert e.wire + [] == e.wire;
  }

  lemma RetireSpliceOut(rx: Rx, tx: TxSide, nt: Notify, e: Env, ev: Cqe)
    requires Base(rx, tx, nt, e) && KernelAllows(tx, e, ev) && ev.SpliceOutDone?
    ensures Base(rx, tx, nt, Retire(tx, e, ev)) && Retire(tx, e, ev).Grows(e)
  {
    if !e.chain.Broken? {
      var n := Max(ev.res, 0);
      SendMoves(e.wire, e.pipe, 0, n, [], Stream(e.frames));
      assert e.pipe[0..n] == e.pipe[..n] && e.pipe[n..] + [] == e.pipe[n..] && e.pipe[0..] + [] == e.pipe;
    }
  }

  /** Whatever completes, outstanding buffers stay intact and the socket carries whole frames in order. */
  lemma RetireKeeps(rx: Rx, tx: TxSide, nt: Notify, e: Env, ev: Cqe)
    requires Base(rx, tx, nt, e) && KernelAllows(tx, e, ev)
    ensures Base(rx, tx, nt, Retire(tx, e, ev)) && Retire(tx, e, ev).Grows(e)
  {
    match ev
    case SendDone(_, _) => RetireSend(rx, tx, nt, e, ev);
    case SpliceInDone(_, _) => RetireSpliceIn(rx, tx, nt, e, ev);
    case SpliceOutDone(_) => RetireSpliceOut(rx, tx, nt, e, ev);
    case _ =>
  }

  lemma PostSendKeeps(rx: Rx, tx: TxSide, nt: Notify, e: Env, tx': TxSide)
    requires Base(rx, tx, nt, e) && SendReady(tx, e)
    requires tx'.buf == tx.buf && tx'.zc == tx.zc && tx'.pendingZc == tx.pendingZc
    ensures Base(rx, tx', nt, PostSend(tx, e))
  {
    assert tx'.Held() == tx.Held();
  }

  /** Descriptors with new numbers behind those numbered before. */
  lemma OnceMore(a: seq<int>, b: seq<int>, m: nat, n: nat)
    requires EachOnce(a, 0, m) && EachOnce(b, m, n)
    ensures EachOnce(a + b, 0, m + n)
  {
    forall i, j | 0 <= i < j < |a + b| ensures (a + b)[i] != (a + b)[j] {
      if i < |a| <= j { assert a[i] in a && b[j - |a|] in b; }
    }
  }

  lemma AcceptedFds(tx: TxSide, e: Env, o: Outcome, tx': TxSide)
    requires Fds(tx, e) && tx.Held() == [] && LegalOutcome(o, e.dups)
    requires tx'.zc.None? && tx'.pendingZc == ActionPlan(o.action)
    ensures Fds(tx', Accepted(e, o))
  {
    assert e.closed + [] == e.closed && tx'.Held() == PlanFds(ActionPlan(o.action));
    OnceMore(e.closed, o.closed + tx'.Held(), e.dups, o.dups);
    Assoc(e.closed, o.closed, tx'.Held());
  }

  lemma AcceptedStreams(rx: Rx, e: Env, o: Outcome)
    requires Streams(rx, e) && e.AwaitingRead() && (o.reply == [] || Framed(o.reply))
    ensures Streams(rx, Accepted(e, o)) && Accepted(e, o).Extends(e)
  {
    if o.reply != [] { CommitKeeps(rx, e, o.reply, |e.requests| - 1); }
  }

  lemma AcceptedGathering(tx: TxSide, e: Env, o: Outcome, tx': TxSide)
    requires Gathering(tx, e) && e.AwaitingRead() && tx.pendingZc.None? && !tx.closeAfterSend && LegalOutcome(o, e.dups)
    requires tx' == tx.(buf := tx.buf + o.reply, pendingZc := ActionPlan(o.action))
    ensures Gathering(tx', Accepted(e, o))
  {
    assert o.action.ZcRead? ==> Accepted(e, o).AwaitingRead();
  }

  lemma AcceptKeeps(rx: Rx, tx: TxSide, nt: Notify, e: Env, o: Outcome, tx': TxSide)
    requires Base(rx, tx, nt, e) && Gathering(tx, e) && e.AwaitingRead() && tx.pendingZc.None? && !tx.closeAfterSend
    requires LegalOutcome(o, e.dups)
    requires tx' == tx.(buf := tx.buf + o.reply, pendingZc := ActionPlan(o.action))
    ensures var e' := Accepted(e, o); Base(rx, tx', nt, e') && Gathering(tx', e') && e'.Extends(e)
  {
    assert tx.Held() == [];
    AcceptedFds(tx, e, o, tx');
    AcceptedStreams(rx, e, o);
    AcceptedGathering(tx, e, o, tx');
  }

  lemma RefusedStreams(rx: Rx, e: Env, p: ReadPlan, st: nat)
    requires Streams(rx, e) && e.rest == [] && e.AwaitingRead()
    ensures Streams(rx, Refused(e, p, st)) && Refused(e, p, st).Extends(e)
    ensures Refused(e, p, st).rest == ReadErr(p, st)
  {
    CommitKeeps(rx, e, ReadErr(p, st), |e.requests| - 1);
  }

  lemma RefusedKeeps(rx: Rx, tx: TxSide, nt: Notify, e: Env, p: ReadPlan, st: nat, tx': TxSide)
    requires Base(rx, tx, nt, e) && e.TxFree() && e.chain.NoChain? && e.rest == [] && e.AwaitingRead()
    requires tx.Held() == [p.fd]
    requires tx'.zc.None? && tx'.pendingZc.None?
    ensures Base(rx, tx', nt, Refused(e, p, st)) && Refused(e, p, st).Extends(e)
    ensures Refused(e, p, st).rest == ReadErr(p, st)
  {
    RefusedStreams(rx, e, p, st);
    assert tx'.Held() == [] && e.closed + [p.fd] + [] == e.closed + tx.Held();
  }

  lemma PostChainKeeps(rx: Rx, tx: TxSide, nt: Notify, e: Env, p: ReadPlan, tx': TxSide)
    requires Base(rx, tx, nt, e) && e.TxFree() && e.chain.NoChain? && e.rest == [] && e.pipe == [] && e.AwaitingRead()
    requires tx.Held() == [p.fd] && PlanOk(p)
    requires tx'.pendingZc.None? && tx'.zc.Some? && tx'.zc.value.plan == p && tx'.buf == ReadRespPrefix(p, p.length)
    ensures Base(rx, tx', nt, PostChain(e, p.length, |tx'.buf|))
  {
    assert tx'.Held() == [p.fd];
  }

  lemma PostSpliceInKeeps(rx: Rx, tx: TxSide, nt: Notify, e: Env, n: nat, tx': TxSide)
    requires Base(rx, tx, nt, e) && e.TxFree() && e.chain.NoChain?
    requires tx'.Held() == tx.Held()
    ensures Base(rx, tx', nt, PostSpliceIn(e, n))
  {
  }

  lemma PostSpliceOutKeeps(rx: Rx, tx: TxSide, nt: Notify, e: Env, tx': TxSide)
    requires Base(rx, tx, nt, e) && e.TxFree() && e.chain.NoChain? && e.rest == e.pipe
    requires tx'.Held() == tx.Held()
    ensures Base(rx, tx', nt, PostSpliceOut(e))
  {
  }

  /** Every completion of a linked chain leaves the bookkeeping in step with the
      kernel; when the last one lands without an error, the pipe holds exactly
      the bytes still to be spliced out. */
  lemma LinkedRetire(rx: Rx, tx: TxSide, nt: Notify, e: Env, ev: Cqe, e': Env)
    requires Base(rx, tx, nt, e) && TxShape(tx, e) && KernelAllows(tx, e, ev)
    requires Linked(tx)
    requires ev.SpliceInDone? || ev.SendDone? || ev.SpliceOutDone?
    requires e' == Retire(tx, e, ev)
    ensures Notes(ev) == 0 && Linking(tx, e', ev.SpliceOutDone?, ev.res)
  {
  }

  /** A READ header that has gone out leaves exactly the pipe. */
  lemma PausedDone(tx: TxSide, e: Env)
    requires Paused(tx, e) && tx.off == |tx.buf|
    ensures e.rest == e.pipe
  {
  }

  /** Updating a READ's progress leaves the environment alone. */
  lemma NoteKeeps(rx: Rx, tx: TxSide, nt: Notify, e: Env, z: Zc)
    requires Base(rx, tx, nt, e) && !e.chain.Filling? && tx.zc.Some? && z.plan.fd == tx.zc.value.plan.fd
    ensures Base(rx, tx.(zc := Some(z)), nt, e)
  {
    assert tx.(zc := Some(z)).Held() == tx.Held();
  }

  lemma PipeKeeps(rx: Rx, tx: TxSide, nt: Notify, e: Env, e': Env)
    requires Base(rx, tx, nt, e) && e.TxFree() && e.chain.NoChain? && e' == e.(pipe := e'.pipe)
    ensures Base(rx, tx, nt, e')
  {
  }

  lemma ReleaseKeeps(rx: Rx, tx: TxSide, nt: Notify, e: Env, tx': TxSide)
    requires Base(rx, tx, nt, e) && e.TxFree() && e.chain.NoChain? && tx.zc.Some? && tx.pendingZc.None?
    requires tx'.zc.None? && tx'.pendingZc.None?
    ensures Base(rx, tx', nt, Released(e, tx.zc.value.plan.fd))
  {
    assert tx'.Held() == [] && tx.Held() == [tx.zc.value.plan.fd];
  }

  lemma PromiseKeeps(rx: Rx, tx: TxSide, nt: Notify, e: Env, tx': TxSide, e': Env)
    requires Base(rx, tx, nt, e) && Filled(tx, e, 0) && tx.zc.value.got > 0
    requires tx'.zc.Some? && tx'.zc.value.plan == tx.zc.value.plan && tx'.pendingZc.None?
    requires tx'.buf == ReadRespPrefix(tx.zc.value.plan, tx.zc.value.got) && tx'.off == 0
    requires e' == Commit(e, tx'.buf + e.pipe, |e.requests| - 1)
    ensures Base(rx, tx', nt, e') && SendReady(tx', e') && e'.Extends(e) && e'.owed == e.owed
  {
    ReadReplyFramed(tx.zc.value.plan, tx.zc.value.got, e.pipe);
    CommitKeeps(rx, e, tx'.buf + e.pipe, |e.requests| - 1);
    assert tx'.Held() == tx.Held() && tx'.buf[0..] == tx'.buf;
  }

  /** Posting the inotify read concerns neither direction of the socket. */
  lemma InotifyKeeps(rx: Rx, tx: TxSide, nt: Notify, e: Env, nt': Notify)
    requires Base(rx, tx, nt, e) && TxShape(tx, e) && RxShape(rx, tx, e) && AllFramed(nt'.deferred)
    ensures var e' := PostInotify(e);
            Base(rx, tx, nt', e') && TxShape(tx, e') && RxShape(rx, tx, e')
  {
  }

  /** Accounting for a completion keeps the books. */
  lemma AccountKeeps(rx: Rx, tx: TxSide, nt: Notify, e: Env, ev: Cqe, tx': TxSide)
    requires Base(rx, tx, nt, e) && KernelAllows(tx, e, ev) && tx' == Counting(tx, ev)
    ensures Base(rx, tx', nt, Retire(tx, e, ev)) && Retire(tx, e, ev).Grows(e)
  {
    RetireKeeps(rx, tx, nt, e, ev);
    BaseTx(rx, tx, nt, Retire(tx, e, ev), tx');
  }

  /** The transmit side once `ev` is counted. */
  function Counting(tx: TxSide, ev: Cqe): TxSide {
    if Notes(ev) > 0 then tx.(notifPending := tx.notifPending + 1) else tx
  }

  lemma AccountAll(
    rx: Rx, tx: TxSide, nt: Notify, e: Env, inflight: nat, serial: nat, taken: nat, ev: Cqe,
    tx': TxSide, e': Env, left: nat)
    requires Accounted(rx, tx, nt, e, inflight, serial, taken) && inflight > 0 && KernelAllows(tx, e, ev)
    requires tx' == Counting(tx, ev) && e' == Retire(tx, e, ev) && left == Max(inflight + Notes(ev) - 1, 0)
    ensures Accounted(rx, tx', nt, e', left, serial, taken) && (!ev.SendDone? ==> tx' == tx)
    ensures e'.Follows(e, ev) && e'.owed == After(e.owed, ev)
    ensures ViewOf(rx, tx', nt, e', serial, taken) == ViewOf(rx, tx, nt, e', serial, taken)
  {
    AccountKeeps(rx, tx, nt, e, ev, tx');
    RetireCounts(rx, tx, e, ev);
    PromisedMore(e.done, ev);
  }

  lemma LandedUnread(rx: Rx, data: bytes, r: Rx)
    requires rx.Sane() && rx.len + |data| <= |rx.buf| && r == Landed(rx, data)
    ensures r.Sane() && r.Unread() == rx.Unread() + data
    ensures data == [] ==> r.Unread() == rx.Unread()
  {
  }

  lemma LandedKeeps(rx: Rx, tx: TxSide, nt: Notify, e: Env, data: bytes, r: Rx, e': Env)
    requires Base(rx, tx, nt, e) && e.owed.recv == 0 && rx.len + |data| <= |rx.buf|
    requires r == Landed(rx, data) && e' == e.(received := e.received + data)
    ensures Base(r, tx, nt, e') && r.Unread() == rx.Unread() + data
    ensures data == [] ==> r.Unread() == rx.Unread()
  {
    LandedUnread(rx, data, r);
    Assoc(Flatten(e.requests), rx.Unread(), data);
  }

  /** After a send outside a chain completes, the unsent rest is what the source will resubmit. */
  lemma SendLeaves(rx: Rx, tx: TxSide, nt: Notify, e: Env, ev: Cqe, tx': TxSide, e': Env)
    requires Base(rx, tx, nt, e) && TxShape(tx, e) && KernelAllows(tx, e, ev) && ev.SendDone? && !Linked(tx)
    requires tx' == Counting(tx, ev) && e' == Retire(tx, e, ev)
    ensures tx'.buf == tx.buf && tx'.off == tx.off < |tx.buf| && Paused(tx'.(off := tx'.off + Max(ev.res, 0)), e')
  {
  }

  /** What completes on the transmit side is no concern of the receive side. */
  lemma StillListens(rx: Rx, tx: TxSide, nt: Notify, e: Env, ev: Cqe, tx': TxSide, e': Env)
    requires Base(rx, tx, nt, e) && KernelAllows(tx, e, ev) && !ev.RecvDone? && !ev.InotifyDone?
    requires RxShape(rx, tx, e) && Receiving(rx, nt, e)
    requires tx' == Counting(tx, ev) && e' == Retire(tx, e, ev)
    ensures RxShape(rx, tx', e') && Receiving(rx, nt, e')
  {
  }

  lemma NotifLeaves(rx: Rx, tx: TxSide, nt: Notify, e: Env, e': Env)
    requires Base(rx, tx, nt, e) && TxShape(tx, e) && e.owed.notif > 0 && e' == Retire(tx, e, SendNotif)
    ensures Notified(tx, e')
  {
  }

  lemma SpliceLeaves(rx: Rx, tx: TxSide, nt: Notify, e: Env, ev: Cqe, e': Env)
    requires Base(rx, tx, nt, e) && TxShape(tx, e) && KernelAllows(tx, e, ev)
    requires !Linked(tx) && e' == Retire(tx, e, ev)
    ensures ev.SpliceInDone? ==> Filled(tx, e', Max(ev.res, 0)) && tx.zc.value.got < tx.zc.value.want
    ensures ev.SpliceOutDone? ==> Emptying(tx, e', Max(ev.res, 0))
    ensures ev.SpliceInDone? || ev.SpliceOutDone? ==> e.owed.send == 0 == e.owed.notif
  {
  }

  lemma TakeKeeps(rx: Rx, tx: TxSide, nt: Notify, e: Env, total: nat, rx': Rx)
    requires Base(rx, tx, nt, e) && Gathering(tx, e) && tx.pendingZc.None? && HeadAt(rx, total)
    requires rx' == rx.(off := rx.off + total, established := rx'.established)
    ensures var e' := Consume(rx, e, total);
            Base(rx', tx, nt, e') && Gathering(tx, e') && e'.AwaitingRead() && e'.Extends(e)
  {
    ConsumeKeeps(rx, e, total);
    assert rx'.Unread() == rx.(off := rx.off + total).Unread();
  }

  lemma TakeAccounted(
    rx: Rx, tx: TxSide, nt: Notify, e: Env, inflight: nat, serial: nat, taken: nat, total: nat, rx': Rx, e': Env)
    requires Accounted(rx, tx, nt, e, inflight, serial, taken) && Receiving(rx, nt, e)
    requires Gathering(tx, e) && tx.pendingZc.None? && HeadAt(rx, total)
    requires rx' == rx.(off := rx.off + total, established := rx'.established) && e' == Consume(rx, e, total)
    ensures Accounted(rx', tx, nt, e', inflight, serial, taken + 1) && Receiving(rx', nt, e') && Gathering(tx, e')
    ensures e'.AwaitingRead() && e'.Extends(e) && e'.owed == e.owed
  {
    TakeKeeps(rx, tx, nt, e, total, rx');
  }

  lemma RoomyKeeps(rx: Rx, tx: TxSide, nt: Notify, e: Env, r: Rx)
    requires Base(rx, tx, nt, e) && e.owed.recv == 0 && Roomy(rx, r) && Receiving(rx, nt, e)
    ensures Base(r, tx, nt, e) && Receiving(r, nt, e)
    ensures r.len < |r.buf| ==>
              var p := r.(armed := true);
              Base(p, tx, nt, PostRecv(r, e)) && Receiving(p, nt, PostRecv(r, e)) && p.Unread() == rx.Unread()
  {
    assert r.(armed := true).Sane() && r.(armed := true).Unread() == r.Unread();
  }
}
