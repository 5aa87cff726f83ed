/** The io_uring reactor's per-connection machine (src/uring.rs): `Conn` carries the
    source's connection fields and, in one ghost field, the environment of `Ring`.
    Each completion handler keeps the invariant stated there.
 */
module Reactor {
  import opened Wire
  import opened Response
  import opened Ring
  import opened Driving
  import opened Ledger
  import opened Reactions

  class Conn {
    var rx: Rx
    var tx: TxSide
    var nt: Notify
    /** Submitted operations that have not completed; teardown waits for zero. */
    var inflight: nat
    var closing: bool
    /** The connection and its buffers have been freed. */
    var dropped: bool
    const sendZcOk: bool
    const idx: nat
    const gen: nat
    /** READ descriptors duplicated and requests taken so far on this connection. */
    var serial: nat
    var taken: nat
    const proto: Protocol
    ghost var e: Env

    /** A live connection always has a completion to wait for, and none of the
        buffers the kernel references has been freed. */
    ghost predicate Valid()
      reads this
    {
      if dropped then
        closing && inflight == 0 == e.owed.Total() && EachOnce(e.closed, 0, serial) && Streams(rx, e) && Balanced(e)
      else
        && Counted() && 0 < inflight
        && (!closing ==> TxShape(tx, e) && RxShape(rx, tx, e) && (nt.inotify <==> e.owed.inotify == 1))
    }

    /** Serving, with the receive side as it is between completions. */
    ghost predicate Listening()
      reads this
    {
      Serving() && RxShape(rx, tx, e)
    }

    /** Serving, while responses are gathered. */
    ghost predicate Batching()
      reads this
    {
      Serving() && Gathering(tx, e)
    }

    /** Serving, with a transmission under way. */
    ghost predicate Sending()
      reads this
    {
      Serving() && TxShape(tx, e)
    }

    ghost predicate Pausing()
      reads this
    {
      Listening() && Paused(tx, e)
    }

    /** The same once `n` more bytes are counted as sent. */
    ghost predicate PausingAt(n: nat)
      reads this
    {
      Listening() && Paused(tx.(off := tx.off + n), e)
    }

    ghost predicate FillingPipe(n: nat)
      reads this
    {
      Listening() && Filled(tx, e, n)
    }

    ghost predicate EmptyingPipe(n: nat)
      reads this
    {
      Listening() && Emptying(tx, e, n)
    }

    ghost function Now(): View
      requires rx.Sane()
      reads this
    {
      ViewOf(rx, tx, nt, e, serial, taken)
    }

    ghost predicate Counted()
      reads this
    {
      !dropped && Accounted(rx, tx, nt, e, inflight, serial, taken)
    }

    ghost predicate Serving()
      reads this
    {
      Counted() && !closing && Receiving(rx, nt, e)
    }

    /** Buffers referenced by a posted recv or a parked inotify read are not touched. */
    twostate predicate Pinned()
      reads this
    {
      && (old(e.owed.recv) == 1 ==> e.owed.recv == 1 && rx.buf == old(rx.buf) && rx.len == old(rx.len))
      && (old(e.owed.inotify) == 1 ==> e.owed.inotify == 1 && nt.ibuf == old(nt.ibuf))
    }

    /** Histories only grow, and referenced buffers stay. */
    twostate predicate Onward()
      reads this
    {
      e.Extends(old(e)) && Pinned()
    }

    ghost function Stands(): Standing
      reads this
    {
      Standing(rx, tx, nt, e, closing)
    }

    /** What holds between any two completions of any run: the in-flight count is what the kernel
        owes, which is what was submitted and promised and has not completed; the socket has carried a prefix of whole frames in request order; the bytes
        received are the requests taken and the unread tail; every descriptor duplicated for
        a READ has been closed once or, before the connection is freed, is held; and the pipe is empty unless a READ is being spliced. */
    lemma Guarantees()
      requires Valid()
      ensures inflight == e.owed.Total() == e.posted + Promised(e.done) - |e.done| && (dropped ==> inflight == 0)
      ensures e.wire <= Stream(e.frames) && WholeInOrder(e.frames, |e.requests|)
      ensures rx.Sane() && e.received == Flatten(e.requests) + rx.Unread() && AllFramed(e.requests)
      // each descriptor duplicated was closed exactly once or, unless the connection is freed, is still held
      ensures EachOnce(if dropped then e.closed else e.closed + tx.Held(), 0, serial)
      ensures !closing && (tx.mode.Idle? || tx.mode.Send? || tx.mode.Drain?) ==> e.pipe == []
    {
      assert e.wire + e.rest == Stream(e.frames);
    }

    /** A posted recv always has room, and as long as no frame was taken since it was posted the
        buffer can hold the whole frame at its front. */
    lemma ArmedRoom()
      requires Valid() && !closing && rx.armed
      ensures rx.len < |rx.buf|
      ensures rx.off == 0 && rx.len >= 4 ==> 4 + NbtLength(rx.buf) <= |rx.buf|
    {
    }

    /** Only a connection that has not been freed is owed a completion. */
    lemma OwedIsLive(ev: Cqe)
      requires Valid() && KernelAllows(tx, e, ev)
      ensures !dropped
    {
    }

    constructor (zcOk: bool, idx: nat, gen: nat, proto: Protocol)
      ensures this.idx == idx && this.gen == gen
      ensures Counted() && !closing && inflight == 0 && e.requests == [] && e.frames == [] && e.wire == []
      ensures Sending() && rx.len == rx.off == 0
    {
      rx := Rx(Zeros(RX_INITIAL), 0, 0, false, false);
      tx := TxSide([], 0, Idle, None, false, 0, None, 0, false, false, false);
      nt := Notify(false, [], [], false);
      this.sendZcOk, this.idx, this.gen, this.proto := zcOk, idx, gen, proto;
      inflight, closing, dropped, serial, taken := 0, false, false, 0, 0;
      e := Env(Owed(0, 0, 0, 0, 0, 0), 0, 0, 0, 0, 0, 0, NoChain, [], [], [], [], [], [], 0, [], 0, []);
    }

    /** Begin teardown; the connection is freed once nothing is owed. */
    method CloseConn()
      requires Counted()
      modifies this
      ensures Valid() && closing && Onward()
      ensures rx == old(rx) && tx == old(tx) && nt.ibuf == old(nt.ibuf) && e == old(e).(closed := e.closed)
      ensures Steady(old(rx), old(nt), old(e), rx, nt, e)
    {
      closing := true;
      if nt.inotify && !nt.cancelled {
        nt := nt.(cancelled := true);
      }
      if inflight == 0 {
        FinalizeClose();
      }
    }

    /** Free the connection: every descriptor it still holds is closed. */
    method FinalizeClose()
      requires Counted() && closing && inflight == 0
      modifies this
      ensures Valid() && dropped && e.Extends(old(e)) && EachOnce(e.closed, 0, serial)
      ensures rx == old(rx) && tx == old(tx) && nt == old(nt) && e == old(e).(closed := e.closed)
    {
      dropped := true;
      e := e.(closed := e.closed + tx.Held());
    }

    // ---------------------------------------------------------- receive

    /** Keep a recv posted whenever there is, or can be made, room. When it posts
        one, the buffer can hold the whole head frame; it declines only when a
        whole frame is already buffered. */
    method MaybeArmRecv()
      requires Serving()
      modifies this
      ensures Onward() && tx == old(tx) && Steady(old(rx), old(nt), old(e), rx, nt, e)
      ensures closing ==> Valid() && FrameTotal(old(rx.Unread()), old(rx.established)).Desync?
      ensures !closing ==>
                && Serving() && nt == old(nt) && rx.Unread() == old(rx.Unread())
                && e == old(e).(owed := e.owed, recvAt := e.recvAt, recvLen := e.recvLen, posted := e.posted)
                && e.owed == old(e.owed).(recv := e.owed.recv)
                && (rx.armed || tx.closeAfterSend || WholeHead(rx.Unread()))
                && (rx.armed && !old(rx.armed) ==> rx.off == 0 && e.recvAt == rx.len < |rx.buf|)
    {
      if !rx.armed && !closing && !tx.closeAfterSend {
        var ready := Prepared(rx);
        if ready.None? {
          CloseConn();
        } else {
          ArmRecv(ready.value);
        }
      }
    }

    /** Keep receiving alongside whatever the transmit side is doing. */
    method KeepReceiving()
      requires Sending() && (tx.mode.Idle? ==> !WholeHead(rx.Unread()))
      modifies this
      ensures Valid() && Onward() && tx == old(tx) && Steady(old(rx), old(nt), old(e), rx, nt, e)
      ensures closing ==> FrameTotal(old(rx.Unread()), old(rx.established)).Desync?
    {
      MaybeArmRecv();
    }

    method ArmRecv(ready: Rx)
      requires Serving() && !rx.armed && Roomy(rx, ready)
      modifies `rx, `inflight, `e
      ensures Serving() && rx.Unread() == old(rx.Unread()) && rx.established == old(rx.established)
      ensures e == old(e) || (rx.len < |rx.buf| && e == PostRecv(rx, old(e)))
      ensures rx.armed || WholeHead(rx.Unread())
      ensures rx.armed ==> rx.off == 0 && e.recvAt == rx.len < |rx.buf|
    {
      RoomyKeeps(rx, tx, nt, e, ready);
      if ready.len < |ready.buf| {
        rx, e := ready.(armed := true), PostRecv(ready, e);
        inflight := inflight + 1;
      } else {
        rx := ready;
      }
    }

    // --------------------------------------------------------- transmit

    /** Submit the unsent part of tx, by zero-copy send when it is large enough. */
    method SubmitSend(more: bool)
      requires Counted() && SendReady(tx, e)
      modifies this
      ensures Counted() && rx == old(rx) && nt == old(nt) && closing == old(closing)
      ensures e == PostSend(old(tx), old(e))
      ensures tx == old(tx).(copyNext := false, sendIsZc := tx.sendIsZc)
      ensures tx.sendIsZc <==> sendZcOk && !old(tx.copyNext) && !more && |tx.buf| - tx.off >= ZC_SEND_MIN
    {
      var zcSend := sendZcOk && !tx.copyNext && !more && |tx.buf| - tx.off >= ZC_SEND_MIN;
      PostSendKeeps(rx, tx, nt, e, tx.(copyNext := false, sendIsZc := zcSend));
      e := PostSend(tx, e);
      tx := tx.(copyNext := false, sendIsZc := zcSend);
      inflight := inflight + 1;
    }

    method StartSend()
      requires Batching() && tx.buf != []
      modifies this
      ensures Sending() && tx.mode.Send?
      ensures rx == old(rx) && nt == old(nt)
      ensures tx == old(tx).(mode := Send, copyNext := false, sendIsZc := tx.sendIsZc)
      ensures e == PostSend(old(tx), old(e))
    {
      tx := tx.(mode := Send);
      assert tx.buf[0..] + [] == tx.buf;
      SubmitSend(false);
    }

    // ------------------------------------------------ zero-copy READ

    /** Answer a READ with an error and close its descriptor. */
    method RefuseRead(plan: ReadPlan, st: nat)
      requires Serving() && tx.Held() == [plan.fd] && e.TxFree() && e.chain.NoChain?
      requires e.rest == [] && e.pipe == [] && e.AwaitingRead() && tx.notifPending == 0
      requires !tx.closeAfterSend && (tx.pipe ==> 0 < tx.pipeCap)
      modifies this
      ensures Sending() && tx.mode.Send? && !tx.closeAfterSend
      ensures rx == old(rx) && nt == old(nt) && e.Extends(old(e)) && e.owed.recv == old(e.owed.recv)
      ensures e.requests == old(e.requests) && e.received == old(e.received)
      ensures plan.fd in e.closed && tx.zc.None? && tx.pendingZc.None?
    {
      var tx' := tx.(buf := ReadErr(plan, st), off := 0, zc := None, pendingZc := None, mode := Send);
      RefusedKeeps(rx, tx, nt, e, plan, st, tx');
      tx, e := tx', Refused(e, plan, st);
      assert tx.buf[0..] + [] == tx.buf;
      SubmitSend(false);
    }

    /** Serve the waiting READ: build the pipe on first use, then run the linked
        chain for a read that cannot hit end of file and fits the pipe, else fill
        the pipe step by step. Without a pipe, answer with an error. */
    method StartZc()
      requires Batching() && tx.buf == [] && tx.pendingZc.Some? && !tx.closeAfterSend
      modifies this
      ensures Sending() && !tx.mode.Idle? && !tx.closeAfterSend
      ensures rx == old(rx) && nt == old(nt) && e.Extends(old(e)) && e.owed.recv == old(e.owed.recv)
      ensures e.requests == old(e.requests) && e.received == old(e.received)
      ensures Begun(old(tx), Stands())
    {
      var plan := tx.pendingZc.value;
      var havePipe, cap := tx.pipe, tx.pipeCap;
      if !havePipe {
        havePipe := *;
        cap :| cap > 0;
      }
      if havePipe {
        BeginZc(plan, cap);
      } else {
        assert tx.Held() == [plan.fd];
        RefuseRead(plan, INSUFFICIENT_RESOURCES);
      }
    }

    method BeginZc(plan: ReadPlan, cap: nat)
      requires Batching() && tx.buf == [] && tx.pendingZc == Some(plan) && !tx.closeAfterSend
      requires cap > 0
      modifies this
      ensures Sending() && !tx.mode.Idle? && !tx.closeAfterSend
      ensures rx == old(rx) && nt == old(nt) && e.Extends(old(e)) && e.owed.recv == old(e.owed.recv)
      ensures e.requests == old(e.requests) && e.received == old(e.received)
      ensures tx.pendingZc.None? && tx.zc.Some? && tx.zc.value.plan == plan
      ensures tx.zc.value.linked <==> plan.linked && plan.length <= cap
    {
      assert tx.Held() == [plan.fd];
      if plan.linked && plan.length <= cap {
        BeginLinked(plan, cap);
      } else {
        BeginFill(plan, cap);
      }
    }

    /** Splice in, send the header and splice out as one linked chain. */
    method BeginLinked(plan: ReadPlan, cap: nat)
      requires Batching() && tx.buf == [] && tx.pendingZc == Some(plan) && !tx.closeAfterSend
      requires tx.Held() == [plan.fd] && 0 < plan.length <= cap
      modifies `tx, `e, `inflight
      ensures Sending() && e == PostChain(old(e), plan.length, 84)
      ensures tx == old(tx).(buf := ReadRespPrefix(plan, plan.length), pendingZc := None, mode := ZcOut, pipe := true, pipeCap := cap,
                             zc := Some(Zc(plan, plan.length, plan.length, plan.length, true, 3, false)))
    {
      var z := Zc(plan, plan.length, plan.length, plan.length, true, 3, false);
      var tx' := tx.(buf := ReadRespPrefix(plan, plan.length), pendingZc := None, zc := Some(z), mode := ZcOut,
                     pipe := true, pipeCap := cap);
      PostChainKeeps(rx, tx, nt, e, plan, tx');
      tx, e := tx', PostChain(e, plan.length, |tx'.buf|);
      inflight := inflight + 3;
    }

    /** Fill the pipe step by step, as far as it goes. */
    method BeginFill(plan: ReadPlan, cap: nat)
      requires Batching() && tx.buf == [] && tx.pendingZc == Some(plan) && !tx.closeAfterSend && cap > 0
      modifies `tx, `e, `inflight
      ensures Sending() && e == PostSpliceIn(old(e), Min(plan.length, cap))
      ensures tx == old(tx).(pendingZc := None, mode := ZcIn, pipe := true, pipeCap := cap,
                             zc := Some(Zc(plan, Min(plan.length, cap), 0, 0, false, 0, false)))
    {
      var want := Min(plan.length, cap);
      var tx' := tx.(pendingZc := None, zc := Some(Zc(plan, want, 0, 0, false, 0, false)), mode := ZcIn,
                     pipe := true, pipeCap := cap);
      assert tx'.Held() == tx.Held();
      PostSpliceInKeeps(rx, tx, nt, e, want, tx');
      tx, e := tx', PostSpliceIn(e, want);
      inflight := inflight + 1;
    }

    // --------------------------------------------------------- driving

    /** Queue notify completions; the first watch creates the inotify instance. */
    method ServiceNotify(finals: seq<bytes>, watch: bool)
      requires Serving() && AllFramed(finals)
      modifies `nt, `e, `inflight
      ensures Serving()
      ensures Now() == Queued(old(Now()), finals)
      ensures Onward() && e == old(e).(owed := old(e.owed).(inotify := e.owed.inotify), posted := e.posted)
    {
      var made: bool := *;
      if watch && !nt.inotify && made {
        StartInotify();
      }
      nt := nt.(deferred := nt.deferred + finals);
    }

    method StartInotify()
      requires Serving() && !nt.inotify
      modifies `nt, `e, `inflight
      ensures Serving() && nt == old(nt).(inotify := true, ibuf := nt.ibuf) && e == PostInotify(old(e))
    {
      nt := nt.(inotify := true, ibuf := Zeros(4096));
      e := PostInotify(e);
      inflight := inflight + 1;
    }

    /** Take the head frame, hand it to the protocol layer and append its reply. */
    method TakeFrame() returns (action: FrameAction)
      requires Batching() && tx.pendingZc.None? && !tx.closeAfterSend && Ready(Now())
      modifies this
      ensures Batching() && !tx.closeAfterSend && tx.mode == old(tx.mode)
      ensures Onward() && e.owed.recv == old(e.owed.recv)
      ensures Now() == Served(proto, old(Now())) && action == AnswerTo(proto, old(Now())).action
    {
      var total, o := ProcessHead();
      action := o.action;
      TakeAndAnswer(total, o);
    }

    method TakeAndAnswer(total: nat, o: Outcome)
      requires Batching() && tx.pendingZc.None? && !tx.closeAfterSend && HeadAt(rx, total) && LegalOutcome(o, serial)
      modifies this
      ensures Batching() && !tx.closeAfterSend && tx.mode == old(tx.mode)
      ensures Onward() && e.owed.recv == old(e.owed.recv)
      ensures var f := old(rx.buf)[old(rx.off)..old(rx.off) + total];
              Now() == Queued(Committed(TakenOff(old(Now()), f, o.established), o), o.finals)
    {
      Take(total, o.established);
      Answer(o);
    }

    /** What the protocol layer makes of the head frame. */
    method ProcessHead() returns (total: nat, o: Outcome)
      requires Serving() && Ready(Now())
      ensures HeadAt(rx, total) && LegalOutcome(o, serial) && o == AnswerTo(proto, Now())
      ensures var f := rx.buf[rx.off..rx.off + total];
              Queued(Committed(TakenOff(Now(), f, o.established), o), o.finals) == Served(proto, Now())
    {
      ReadyHead(Now(), rx);
      total := FrameTotal(rx.buf[rx.off..rx.len], rx.established).n;
      o := proto(taken, rx.buf[rx.off + 4..rx.off + total], serial);
      ServedIs(proto, Now(), rx.buf[rx.off..rx.off + total], o);
    }

    method Answer(o: Outcome)
      requires Batching() && e.AwaitingRead() && tx.pendingZc.None? && !tx.closeAfterSend
      requires LegalOutcome(o, serial)
      modifies this
      ensures Batching() && rx == old(rx) && Onward() && e.owed.recv == old(e.owed.recv)
      ensures tx.mode == old(tx.mode) && !tx.closeAfterSend
      ensures Now() == Queued(Committed(old(Now()), o), o.finals)
    {
      ghost var e0 := e;
      Accept(o);
      ghost var e1 := e;
      ServiceNotify(o.finals, o.watch);
      ExtendsTrans(e0, e1, e);
    }

    method Take(total: nat, established: bool)
      requires Batching() && tx.pendingZc.None? && HeadAt(rx, total)
      modifies `rx, `e, `taken
      ensures Batching() && e.AwaitingRead() && e.Extends(old(e)) && e.owed == old(e.owed)
      ensures rx == old(rx).(off := old(rx.off) + total, established := established)
      ensures Now() == TakenOff(old(Now()), old(rx.buf)[old(rx.off)..old(rx.off) + total], established)
    {
      var rx' := rx.(off := rx.off + total, established := established);
      ghost var e' := Consume(rx, e, total);
      TakenView(rx, tx, nt, e, serial, taken, total, established, rx', e');
      TakeAccounted(rx, tx, nt, e, inflight, serial, taken, total, rx', e');
      rx, e, taken := rx', e', taken + 1;
    }

    /** Record the reply and, for a zero-copy READ, the plan that owns its descriptor. */
    method Accept(o: Outcome)
      requires Batching() && e.AwaitingRead() && tx.pendingZc.None? && !tx.closeAfterSend
      requires LegalOutcome(o, serial)
      modifies `tx, `e, `serial
      ensures Batching() && e.Extends(old(e)) && e.owed == old(e.owed)
      ensures tx == old(tx).(buf := old(tx.buf) + o.reply, pendingZc := ActionPlan(o.action))
      ensures e == Accepted(old(e), o) && Now() == Committed(old(Now()), o)
    {
      var tx' := tx.(buf := tx.buf + o.reply, pendingZc := ActionPlan(o.action));
      AcceptKeeps(rx, tx, nt, e, o, tx');
      CommittedView(rx, tx, nt, e, serial, taken, o, tx');
      tx, e := tx', Accepted(e, o);
      serial := serial + o.dups;
    }

    /** Completed async responses go out ahead of new work, whole and in order, up to one batch. */
    method FlushDeferred()
      requires Batching() && tx.pendingZc.None? && !tx.closeAfterSend
      modifies `tx, `e, `nt
      ensures Batching() && Now() == Flush(old(Now())) && Batched(old(tx), old(nt), old(e), tx, nt, e)
    {
      var full := false;
      while nt.deferred != [] && !full
        invariant Batching() && tx.pendingZc.None? && Batched(old(tx), old(nt), old(e), tx, nt, e)
        invariant Flushing(old(Now()), Now(), full)
        decreases |nt.deferred|
      {
        ghost var v, tx1, nt1, e1 := Now(), tx, nt, e;
        EmitDeferred();
        full := |tx.buf| >= TX_FLUSH;
        FlushOne(old(Now()), v, Now());
        BatchedTrans(old(tx), old(nt), old(e), tx1, nt1, e1, tx, nt, e);
      }
      Flushed(old(Now()), Now(), full);
    }

    method EmitDeferred()
      requires Batching() && tx.pendingZc.None? && nt.deferred != []
      modifies `tx, `e, `nt
      ensures Batching() && tx.pendingZc.None? && Now() == Emitted(old(Now()))
      ensures Batched(old(tx), old(nt), old(e), tx, nt, e)
    {
      var d := nt.deferred[0];
      CommitKeeps(rx, e, d, -1);
      nt := nt.(deferred := nt.deferred[1..]);
      e := Commit(e, d, -1);
      tx := tx.(buf := tx.buf + d);
    }

    /** Process whole frames until the batch is full, more bytes are needed, or a
        frame asks for something other than a buffered reply. */
    method Gather() returns (action: FrameAction)
      requires Batching() && tx.pendingZc.None? && !tx.closeAfterSend
      modifies this
      ensures Batching() && !tx.closeAfterSend && tx.mode == old(tx.mode)
      ensures Onward() && e.owed.recv == old(e.owed.recv)
      ensures (Now(), action) == Gathers(proto, old(Now())) && tx.pendingZc == ActionPlan(action)
    {
      action := Respond;
      var more := true;
      while more && |tx.buf| - tx.off < TX_FLUSH
        invariant Batching() && !tx.closeAfterSend && tx.mode == old(tx.mode)
        invariant Onward() && e.owed.recv == old(e.owed.recv)
        invariant tx.pendingZc == ActionPlan(action) && (more ==> action.Respond?)
        invariant (if more then Gathers(proto, Now()) else (Now(), action)) == Gathers(proto, old(Now()))
        decreases rx.len - rx.off, more
      {
        action, more := GatherOne();
      }
    }

    /** Look at the head of what is unread: take a whole frame, or stop. */
    method GatherOne() returns (action: FrameAction, more: bool)
      requires Batching() && tx.pendingZc.None? && !tx.closeAfterSend && |tx.buf| < TX_FLUSH
      modifies this
      ensures Batching() && !tx.closeAfterSend && tx.mode == old(tx.mode)
      ensures Onward() && e.owed.recv == old(e.owed.recv)
      ensures tx.pendingZc == ActionPlan(action) && (more ==> action.Respond? && rx.len - rx.off < old(rx.len) - old(rx.off))
      ensures rx.len - rx.off <= old(rx.len) - old(rx.off)
      ensures (if more then Gathers(proto, Now()) else (Now(), action)) == Gathers(proto, old(Now()))
    {
      var head := FrameTotal(rx.buf[rx.off..rx.len], rx.established);
      if head.Desync? {
        action, more := CloseNow, false;
      } else if head.Total? && head.n <= rx.len - rx.off {
        action := TakeFrame();
        more := action.Respond?;
      } else {
        action, more := Respond, false;
      }
    }

    /** Answer what has arrived, then start the transmission it calls for and keep
        a recv posted. */
    method Drive()
      requires Batching() && tx.buf == [] && tx.pendingZc.None? && !tx.closeAfterSend && tx.mode.Idle?
      modifies this
      ensures Valid() && Onward() && Drove(proto, old(Now()), Stands())
    {
      ghost var e0 := e;
      FlushDeferred();
      ghost var e1 := e;
      GathersLeaves(proto, Now());
      var action := Gather();
      ExtendsTrans(e0, e1, e);
      ghost var e2 := e;
      Transmit(action);
      ExtendsTrans(e0, e2, e);
    }

    /** Start the transmission that the requests call for. */
    method Transmit(action: FrameAction)
      requires Batching() && !tx.closeAfterSend && tx.mode.Idle? && tx.pendingZc == ActionPlan(action)
      requires action.Respond? && tx.buf == [] ==> !WholeHead(rx.Unread())
      modifies this
      ensures Valid() && Onward() && Steady(old(rx), old(nt), old(e), rx, nt, e)
      ensures (MustClose(old(Now()), action) ==> closing) && (closing ==> MayClose(old(Now()), action))
    {
      match action
      case CloseNow => CloseConn();
      case Respond => SendBatch();
      case RespondClose => SendLast();
      case ZcRead(_) => SendThenRead();
    }

    /** Send what was gathered, if anything, and keep receiving. */
    method SendBatch()
      requires Batching() && tx.pendingZc.None? && !tx.closeAfterSend && tx.mode.Idle?
      requires tx.buf == [] ==> !WholeHead(rx.Unread())
      modifies this
      ensures Valid() && Onward() && Steady(old(rx), old(nt), old(e), rx, nt, e)
      ensures closing ==> FrameTotal(old(rx.Unread()), old(rx.established)).Desync?
      ensures tx == if old(tx.buf) == [] then old(tx) else old(tx).(mode := Send, copyNext := false, sendIsZc := tx.sendIsZc)
    {
      if tx.buf != [] {
        StartSend();
      }
      KeepReceiving();
    }

    /** Send what was gathered, read nothing more, and close once it has gone out. */
    method SendLast()
      requires Batching() && tx.pendingZc.None?
      modifies this
      ensures Valid() && Onward() && Steady(old(rx), old(nt), old(e), rx, nt, e)
      ensures old(tx.buf) == [] ==> closing && tx.buf == []
      ensures old(tx.buf) != [] ==> !closing && tx.closeAfterSend && tx.mode.Send? && tx.buf == old(tx.buf) && e.owed.send == 1
    {
      tx := tx.(closeAfterSend := true);
      if tx.buf == [] {
        CloseConn();
      } else {
        StartSend();
      }
    }

    /** Run a zero-copy READ, behind the buffered responses if there are any. */
    method SendThenRead()
      requires Batching() && tx.pendingZc.Some?
      modifies this
      ensures Valid() && Onward() && Steady(old(rx), old(nt), old(e), rx, nt, e)
      ensures closing ==> FrameTotal(old(rx.Unread()), old(rx.established)).Desync?
      ensures old(tx.buf) != [] ==> tx.mode.Send? && tx.buf == old(tx.buf) && tx.pendingZc == old(tx.pendingZc)
      ensures old(tx.buf) == [] ==> Begun(old(tx), Stands())
    {
      if tx.buf == [] {
        StartZc();
      } else {
        StartSend();
      }
      KeepReceiving();
    }

    // ----------------------------------------------- completion handlers

    /** tx has gone out and nothing references it: release it and go on with the
        READ queued behind it, or with the next requests. */
    method FinishSend()
      requires Listening() && SendDrained(tx, e)
      modifies this
      ensures Valid() && Onward() && WentOn(proto, old(tx), old(Now()), Stands())
    {
      if tx.closeAfterSend {
        CloseConn();
      } else {
        tx := tx.(buf := [], off := 0);
        if tx.pendingZc.Some? {
          StartZc();
        } else {
          tx := tx.(mode := Idle);
          Drive();
        }
      }
    }

    /** Handle the completion of a send outside a linked chain: resubmit what is
        left, fall back to a copying send, fail, or move on. */
    method OnSend(res: int)
      requires PausingAt(Max(res, 0)) && tx.off < |tx.buf|
      modifies this
      ensures Valid() && Onward()
      ensures old(e.owed.notif) > 0 ==> tx.buf == old(tx.buf)
      // an interrupted send, or a zero-copy send short of memory, is repeated; any other failure closes;
      // after a partial send exactly the rest is submitted
      ensures AfterSend(proto, old(tx), old(Now()), res, false, Stands())
    {
      if res == EINTR {
        Resend();
      } else if (res == ENOMEM || res == ENOBUFS) && tx.sendIsZc {
        ResendByCopy();
      } else if res <= 0 {
        CloseConn();
      } else {
        Advance(res);
      }
    }

    method ResendByCopy()
      requires Pausing() && tx.off < |tx.buf|
      modifies this
      ensures Valid() && Onward() && tx.buf == old(tx.buf)
      ensures !closing && tx.off == old(tx.off) && tx.mode == old(tx.mode) && e.owed.send == 1 && !tx.sendIsZc
    {
      BaseTx(rx, tx, nt, e, tx.(copyNext := true));
      tx := tx.(copyNext := true);
      Resend();
    }

    method Advance(n: nat)
      requires PausingAt(n)
      modifies this
      ensures Valid() && Onward()
      ensures old(e.owed.notif) > 0 ==> tx.buf == old(tx.buf)
      ensures n > 0 ==> AfterSend(proto, old(tx), old(Now()), n, false, Stands())
    {
      var tx' := tx.(off := tx.off + n);
      BaseTx(rx, tx, nt, e, tx');
      tx := tx';
      if tx.off < |tx.buf| {
        Resend();
      } else {
        SentAll();
      }
    }

    /** Submit the rest of tx; a READ header keeps promising more. */
    method Resend()
      requires Pausing() && tx.off < |tx.buf|
      modifies this
      ensures Valid() && Onward() && tx.buf == old(tx.buf)
      ensures !closing && tx.off == old(tx.off) && tx.mode == old(tx.mode) && e.owed.send == 1
      ensures old(tx.copyNext) ==> !tx.sendIsZc
    {
      SubmitSend(tx.mode.ZcHdr?);
    }

    method SentAll()
      requires Pausing() && tx.off == |tx.buf|
      modifies this
      ensures Valid() && Onward()
      ensures old(e.owed.notif) > 0 ==> tx.buf == old(tx.buf)
      ensures if old(tx.mode).ZcHdr? then !closing && tx.mode.ZcOut? && e.owed.spliceOut == 1
              else if old(tx.notifPending) > 0 then !closing && tx.mode.Drain? && e == old(e)
              else WentOn(proto, old(tx), old(Now()), Stands())
    {
      if tx.mode.ZcHdr? {
        StartSplice();
      } else if tx.notifPending > 0 {
        tx := tx.(mode := Drain);
      } else {
        FinishSend();
      }
    }

    /** The READ header has gone out: splice the pipe out behind it. */
    method StartSplice()
      requires Pausing() && tx.off == |tx.buf| && tx.mode.ZcHdr?
      modifies `tx, `e, `inflight
      ensures Valid() && Onward() && !closing && tx == old(tx).(mode := ZcOut) && e.owed.spliceOut == 1
    {
      PausedDone(tx, e);
      BaseTx(rx, tx, nt, e, tx.(mode := ZcOut));
      tx := tx.(mode := ZcOut);
      SubmitSpliceOut();
    }

    /** A zero-copy send's buffer region was released; when the last one is and
        everything had been sent, tx may be reused. */
    method OnSendNotif()
      requires Listening() && Notified(tx, e)
      modifies this
      ensures Valid() && Onward()
      ensures old(e.owed.send) + old(e.owed.notif) > 0 ==> tx.buf == old(tx.buf)
      ensures AfterNotif(proto, old(tx), old(Now()), Stands())
    {
      CountNotif();
      if tx.notifPending == 0 && tx.mode.Drain? {
        FinishSend();
      }
    }

    method CountNotif()
      requires Listening() && tx.notifPending > 0
      modifies `tx
      ensures Listening() && tx == old(tx).(notifPending := old(tx.notifPending) - 1)
    {
      BaseTx(rx, tx, nt, e, tx.(notifPending := tx.notifPending - 1));
      tx := tx.(notifPending := tx.notifPending - 1);
    }

    method SubmitSpliceOut()
      requires Counted() && e.TxFree() && e.chain.NoChain? && e.rest == e.pipe
      modifies `inflight, `e
      ensures Counted() && e == PostSpliceOut(old(e))
    {
      PostSpliceOutKeeps(rx, tx, nt, e, tx);
      e := PostSpliceOut(e);
      inflight := inflight + 1;
    }

    /** One completion of a linked chain. */
    method OnLinked(out: bool, res: int)
      requires Listening() && Linking(tx, e, out, res)
      modifies this
      ensures Valid() && Onward()
      ensures old(e.owed.send) > 0 ==> tx.buf == old(tx.buf)
      ensures AfterLink(proto, old(tx), old(Now()), out, res, Stands())
    {
      var z := Noted(tx.zc.value, out, res);
      NoteChain(z);
      if z.chain == 0 {
        if z.err {
          CloseConn();
        } else {
          ChainDone(z);
        }
      }
    }

    method NoteChain(z: Zc)
      requires Listening() && tx.zc.Some? && !e.chain.Filling? && z.plan.fd == tx.zc.value.plan.fd
      modifies `tx
      ensures Listening() && tx == old(tx).(zc := Some(z))
    {
      NoteKeeps(rx, tx, nt, e, z);
      tx := tx.(zc := Some(z));
    }

    /** A linked chain ended without an error: finish what the socket did not take. */
    method ChainDone(z: Zc)
      requires Listening() && tx.mode.ZcOut? && tx.zc.Some?
      requires z.plan.fd == tx.zc.value.plan.fd
      requires e.TxFree() && e.chain.NoChain? && e.rest == e.pipe && |e.pipe| == z.outLeft
      requires tx.notifPending == 0 && tx.pendingZc.None? && !tx.closeAfterSend && tx.pipe && 0 < tx.pipeCap
      modifies this
      ensures Valid() && Onward()
      ensures z.outLeft > 0 ==> !closing && tx == old(tx).(zc := Some(z.(linked := false))) && e.owed.spliceOut == 1
      ensures z.outLeft == 0 ==> z.plan.fd in e.closed && Drove(proto, old(Now()).(buf := []), Stands())
    {
      if z.outLeft > 0 {
        SpliceRest(z.(linked := false));
      } else {
        FinishRead();
      }
    }

    method SpliceRest(z: Zc)
      requires Listening() && tx.mode.ZcOut? && tx.zc.Some?
      requires !z.linked && z.plan.fd == tx.zc.value.plan.fd
      requires e.TxFree() && e.chain.NoChain? && e.rest == e.pipe && 0 < |e.pipe| == z.outLeft
      requires tx.notifPending == 0 && tx.pendingZc.None? && !tx.closeAfterSend && tx.pipe && 0 < tx.pipeCap
      modifies this
      ensures Valid() && Onward()
      ensures !closing && tx == old(tx).(zc := Some(z)) && e.owed.spliceOut == 1
    {
      NoteKeeps(rx, tx, nt, e, z);
      tx := tx.(zc := Some(z));
      SubmitSpliceOut();
    }

    /** The READ has gone out whole: close its descriptor and go on. */
    method FinishRead()
      requires Listening() && ReadDone(tx, e)
      modifies this
      ensures Valid() && Onward()
      ensures old(tx.zc.value.plan.fd) in e.closed && Drove(proto, old(Now()).(buf := []), Stands())
    {
      ghost var e0, fd := e, tx.zc.value.plan.fd;
      var tx' := tx.(zc := None, buf := [], off := 0, mode := Idle);
      ReleaseKeeps(rx, tx, nt, e, tx');
      e := Released(e, tx.zc.value.plan.fd);
      tx := tx';
      ghost var e1 := e;
      Drive();
      ExtendsTrans(e0, e1, e);
      assert fd in e1.closed;
    }

    /** A step of filling the pipe completed: keep filling, send the header for
        what arrived, or give up. */
    method OnSpliceIn(res: int)
      requires FillingPipe(Max(res, 0)) && (res < 0 ==> tx.zc.value.got < tx.zc.value.want)
      modifies this
      ensures Valid() && Onward()
      ensures AfterSpliceIn(old(tx), res, Stands())
    {
      if res == EINTR || res == EAGAIN {
        Refill();
      } else if res < 0 {
        var st: nat := *;  // the NT status this errno maps to
        ZcFail(st);
      } else {
        Arrived(res);
      }
    }

    method Arrived(n: nat)
      requires FillingPipe(n)
      modifies this
      ensures Valid() && Onward()
      ensures !closing && Settled(WithGot(old(tx), n), n > 0 && old(tx.zc.value.got) + n < old(tx.zc.value.want), Stands())
    {
      CountIn(n);
      Decide(n > 0 && tx.zc.value.got < tx.zc.value.want);
    }

    /** What has arrived is counted: fill on, refuse, or promise it. */
    method Decide(more: bool)
      requires FillingPipe(0) && (more ==> tx.zc.value.got < tx.zc.value.want)
      modifies this
      ensures Valid() && Onward() && !closing
      ensures Settled(old(tx), more, Stands())
    {
      var z := tx.zc.value;
      if more {
        Refill();
      } else if z.got == 0 || z.got < z.plan.minCount {
        ZcFail(END_OF_FILE);
      } else {
        SendHeader();
      }
    }

    method CountIn(n: nat)
      requires FillingPipe(n)
      modifies `tx
      ensures FillingPipe(0)
      ensures tx == WithGot(old(tx), n)
    {
      var z := tx.zc.value;
      NoteKeeps(rx, tx, nt, e, z.(got := z.got + n));
      tx := tx.(zc := Some(z.(got := z.got + n)));
    }

    method Refill()
      requires FillingPipe(0) && tx.zc.value.got < tx.zc.value.want
      modifies `inflight, `e
      ensures Valid() && Onward()
      ensures e == PostSpliceIn(old(e), tx.zc.value.want - tx.zc.value.got)
    {
      var z := tx.zc.value;
      PostSpliceInKeeps(rx, tx, nt, e, z.want - z.got, tx);
      e := PostSpliceIn(e, z.want - z.got);
      inflight := inflight + 1;
    }

    /** Promise exactly the bytes now in the pipe. */
    method SendHeader()
      requires FillingPipe(0) && tx.zc.value.got > 0
      modifies this
      ensures Valid() && Onward()
      ensures !closing && tx.mode.ZcHdr? && tx.buf == ReadRespPrefix(old(tx.zc.value.plan), old(tx.zc.value.got))
      ensures tx.zc == Some(old(tx.zc.value).(outLeft := old(tx.zc.value.got)))
    {
      var z := tx.zc.value;
      var tx' := tx.(zc := Some(z.(outLeft := z.got)), buf := ReadRespPrefix(z.plan, z.got), off := 0, mode := ZcHdr);
      ghost var e' := Commit(e, tx'.buf + e.pipe, |e.requests| - 1);
      PromiseKeeps(rx, tx, nt, e, tx', e');
      tx, e := tx', e';
      SubmitSend(true);
    }

    /** Abort a READ: empty the pipe, then answer with an error. */
    method ZcFail(st: nat)
      requires FillingPipe(0)
      modifies this
      ensures Valid() && Onward()
      ensures !closing && tx.mode.Send? && old(tx.zc.value.plan.fd) in e.closed
    {
      ghost var e0 := e;
      EmptyPipe();
      ghost var e1 := e;
      assert tx.Held() == [tx.zc.value.plan.fd];
      RefuseRead(tx.zc.value.plan, st);
      ExtendsTrans(e0, e1, e);
    }

    /** Read and discard what was spliced in; the pipe holds exactly that much. */
    method EmptyPipe()
      requires Serving() && Filled(tx, e, 0)
      modifies `e
      ensures Serving() && e == old(e).(pipe := [])
    {
      var left := tx.zc.value.got;
      while left > 0
        invariant e == old(e).(pipe := e.pipe) && |e.pipe| == left
      {
        var n: nat :| 1 <= n <= left && n <= 16384;
        e := e.(pipe := e.pipe[n..]);
        left := left - n;
      }
      PipeKeeps(rx, tx, nt, old(e), e);
    }

    /** A step of draining the pipe completed. */
    method OnSpliceOut(res: int)
      requires EmptyingPipe(Max(res, 0))
      modifies this
      ensures Valid() && Onward()
      ensures AfterSpliceOut(proto, old(tx), old(Now()), res, Stands())
    {
      if res > 0 {
        Left(res);
      } else if res == EINTR || res == EAGAIN {
        SpliceAgain();
      } else {
        CloseConn();
      }
    }

    /** `n` bytes left the pipe for the socket. */
    method Left(n: nat)
      requires EmptyingPipe(n) && n > 0
      modifies this
      ensures Valid() && Onward()
      ensures AfterSpliceOut(proto, old(tx), old(Now()), n, Stands())
    {
      var z := tx.zc.value;
      ChainDone(z.(outLeft := z.outLeft - Min(n, z.outLeft)));
    }

    method SpliceAgain()
      requires EmptyingPipe(0)
      modifies `inflight, `e
      ensures Valid() && Onward() && !closing && e.owed.spliceOut == 1
    {
      SubmitSpliceOut();
    }

    /** Bytes arrived: process them if the transmit side is idle. */
    method OnRecv(res: int, data: bytes)
      requires Counted() && !closing && TxShape(tx, e) && (nt.inotify <==> e.owed.inotify == 1)
      requires e.owed.recv == 0 && rx.len + Max(res, 0) <= |rx.buf| && |data| == Max(res, 0)
      requires tx.mode.Idle? ==> !WholeHead(rx.Unread())
      modifies this
      ensures Valid() && e.Extends(old(e))
      ensures AfterRecv(proto, old(tx), old(Now()), res, data, Stands())
      ensures old(e.owed.inotify) == 1 ==> nt.ibuf == old(nt.ibuf)
      ensures old(e.owed.send) + old(e.owed.notif) > 0 ==> tx.buf == old(tx.buf)
      ensures old(e.received) + data <= e.received
    {
      if res <= 0 && res != EINTR {
        CloseConn();
      } else {
        ghost var e0 := e;
        Land(data);
        ghost var e1 := e;
        if tx.mode.Idle? && res > 0 {
          Drive();
        } else {
          KeepReceiving();
        }
        ExtendsTrans(e0, e1, e);
      }
    }

    method Land(data: bytes)
      requires Counted() && !closing && TxShape(tx, e) && (nt.inotify <==> e.owed.inotify == 1)
      requires e.owed.recv == 0 && rx.len + |data| <= |rx.buf|
      modifies `rx, `e
      ensures Sending() && rx == Landed(old(rx), data)
      ensures e == old(e).(received := old(e.received) + data)
      ensures rx.Unread() == old(rx.Unread()) + data && (data == [] ==> rx.Unread() == old(rx.Unread()))
    {
      var rx' := Landed(rx, data);
      LandedKeeps(rx, tx, nt, e, data, rx', e.(received := e.received + data));
      rx := rx';
      e := e.(received := e.received + data);
    }

    /** The inotify read returned: queue the completions it caused and read on. */
    method OnInotify(res: int, finals: seq<bytes>)
      requires Counted() && !closing && TxShape(tx, e) && RxShape(rx, tx, e) && nt.inotify && e.owed.inotify == 0
      requires AllFramed(finals)
      modifies this
      ensures Valid() && e.Extends(old(e))
      ensures old(e.owed.recv) == 1 ==> rx.buf == old(rx.buf) && rx.len == old(rx.len)
      ensures old(e.owed.send) + old(e.owed.notif) > 0 ==> tx.buf == old(tx.buf)
      ensures AfterInotify(proto, old(tx), old(Now()), res, finals, Stands()) && (res > 0 ==> Holds(finals, Stands()))
      ensures res <= 0 && res != EINTR && res != EAGAIN ==> nt == old(nt).(inotify := false)
      ensures !old(tx.mode).Idle? && (res > 0 || res == EINTR || res == EAGAIN) ==>
                nt == old(nt).(deferred := old(nt.deferred) + if res > 0 then finals else []) && e.owed.inotify == 1
    {
      if res == EINTR || res == EAGAIN {
        ArmInotify([]);
      } else if res <= 0 {
        nt := nt.(inotify := false);
      } else {
        QueueFinals(finals);
      }
    }

    method QueueFinals(finals: seq<bytes>)
      requires Counted() && !closing && TxShape(tx, e) && RxShape(rx, tx, e) && nt.inotify && e.owed.inotify == 0
      requires AllFramed(finals)
      modifies this
      ensures Valid() && e.Extends(old(e)) && Holds(finals, Stands()) && AfterInotify(proto, old(tx), old(Now()), 1, finals, Stands())
      ensures old(e.owed.recv) == 1 ==> rx.buf == old(rx.buf) && rx.len == old(rx.len)
      ensures old(e.owed.send) + old(e.owed.notif) > 0 ==> tx.buf == old(tx.buf)
      ensures !old(tx.mode).Idle? ==> nt == old(nt).(deferred := old(nt.deferred) + finals) && e.owed.inotify == 1
    {
      ghost var v, e0 := Now(), e;
      ArmInotify(finals);
      if tx.mode.Idle? && nt.deferred != [] {
        ghost var e1 := e;
        Drive();
        DroveHolds(proto, v, finals, Stands());
        ExtendsTrans(e0, e1, e);
      }
    }

    method ArmInotify(finals: seq<bytes>)
      requires Counted() && !closing && TxShape(tx, e) && RxShape(rx, tx, e) && nt.inotify && e.owed.inotify == 0
      requires AllFramed(finals)
      modifies `nt, `e, `inflight
      ensures Valid() && Serving() && nt == old(nt).(deferred := old(nt.deferred) + finals)
      ensures e == PostInotify(old(e))
    {
      var nt' := nt.(deferred := nt.deferred + finals);
      InotifyKeeps(rx, tx, nt, e, nt');
      e := PostInotify(e);
      inflight := inflight + 1;
      nt := nt';
    }

    /** Queue a lease break behind what is on the wire, or send it now. */
    method DeliverBreak(frame: bytes)
      requires Valid() && !dropped && Framed(frame)
      modifies this
      ensures Valid() && !dropped && Onward()
      ensures old(closing) ==> nt == old(nt) && e == old(e)
      ensures !old(closing) && !old(tx.mode).Idle? ==> nt == old(nt).(deferred := old(nt.deferred) + [frame]) && e == old(e)
      ensures !old(closing) ==> frame in nt.deferred || Out(frame, -1) in e.frames
      ensures !old(closing) ==> if old(tx.mode).Idle? then Drove(proto, Queued(old(Now()), [frame]), Stands()) else !closing
    {
      if !closing {
        nt := nt.(deferred := nt.deferred + [frame]);
        if tx.mode.Idle? {
          DriveKeeps(proto, Now(), frame);
          Drive();
        }
      }
    }

    // ------------------------------------------------- one completion

    /** Handle one completion. The count never saturates, the connection is freed
        only when nothing is owed, and no buffer that an outstanding operation
        references changes. */
    method HandleCqe(ev: Cqe)
      requires Valid() && !dropped && KernelAllows(tx, e, ev)
      modifies this
      ensures Valid() && e.Follows(old(e), ev)
      ensures !old(closing) ==> Reacted(proto, old(tx), old(Retired(ev)), ev, Stands())
      ensures !old(closing) && ev.InotifyDone? && ev.res > 0 ==> Holds(ev.finals, Stands())
      ensures var o := After(old(e.owed), ev);
              && (o.send + o.notif > 0 ==> tx.buf == old(tx.buf))
              && (o.recv > 0 ==> rx.buf == old(rx.buf) && rx.len == old(rx.len))
              && (o.inotify > 0 ==> nt.ibuf == old(nt.ibuf))
      ensures !old(closing) && ev.RecvDone? ==> old(e.received) + ev.data <= e.received
    {
      if closing {
        DrainOne(ev);
      } else if ev.RecvDone? {
        CompleteRecv(ev);
      } else if ev.SendNotif? {
        CompleteNotif();
      } else if ev.InotifyDone? {
        CompleteInotify(ev);
      } else if Linked(tx) {
        CompleteLinked(ev);
      } else if ev.SendDone? {
        CompleteSend(ev);
      } else {
        CompleteSplice(ev);
      }
    }

    /** What the connection holds once the operation that `ev` completes is retired. */
    ghost function Retired(ev: Cqe): View
      requires Counted() && KernelAllows(tx, e, ev)
      reads this
    {
      ViewOf(rx, tx, nt, Retire(tx, e, ev), serial, taken)
    }

    /** Retire one in-flight operation; F_MORE announces one more completion. */
    method Account(ev: Cqe)
      requires Counted() && inflight > 0 && KernelAllows(tx, e, ev)
      modifies `tx, `e, `inflight
      ensures Counted() && e == Retire(old(tx), old(e), ev) && e.Follows(old(e), ev) && e.owed == After(old(e.owed), ev)
      ensures tx == Counting(old(tx), ev) && (!ev.SendDone? ==> tx == old(tx)) && Now() == old(Retired(ev))
    {
      ghost var e' := Retire(tx, e, ev);
      var tx', left := Counting(tx, ev), Max(inflight + Notes(ev) - 1, 0);  // saturating
      AccountAll(rx, tx, nt, e, inflight, serial, taken, ev, tx', e', left);
      tx, e, inflight := tx', e', left;
    }

    /** A completion on the transmit side leaves the receive side listening. */
    method AccountTx(ev: Cqe)
      requires Valid() && !dropped && !closing && KernelAllows(tx, e, ev) && !ev.RecvDone? && !ev.InotifyDone?
      modifies `tx, `e, `inflight
      ensures Listening() && e == Retire(old(tx), old(e), ev) && e.Follows(old(e), ev) && e.owed == After(old(e.owed), ev)
      ensures tx == Counting(old(tx), ev) && (!ev.SendDone? ==> tx == old(tx)) && Now() == old(Retired(ev))
    {
      ghost var tx0, e0 := tx, e;
      Account(ev);
      StillListens(rx, tx0, nt, e0, ev, tx, e);
    }

    /** While closing, completions are only counted; the last one frees the connection. */
    method DrainOne(ev: Cqe)
      requires Valid() && !dropped && closing && KernelAllows(tx, e, ev)
      modifies this
      ensures Valid() && e.Follows(old(e), ev) && tx.buf == old(tx.buf) && rx == old(rx) && nt == old(nt)
      ensures dropped <==> After(old(e.owed), ev).Total() == 0
    {
      ghost var e0 := e;
      Account(ev);
      ghost var e1 := e;
      if inflight == 0 {
        FinalizeClose();
      }
      FollowsTrans(e0, e1, e, ev);
    }

    method CompleteRecv(ev: Cqe)
      requires Valid() && !dropped && !closing && KernelAllows(tx, e, ev) && ev.RecvDone?
      modifies this
      ensures Valid() && e.Follows(old(e), ev) && Reacted(proto, old(tx), old(Retired(ev)), ev, Stands())
      ensures old(e.owed.inotify) == 1 ==> nt.ibuf == old(nt.ibuf)
      ensures old(e.owed.send) + old(e.owed.notif) > 0 ==> tx.buf == old(tx.buf)
      ensures old(e.received) + ev.data <= e.received
    {
      ghost var e0 := e;
      Account(ev);
      ghost var e1 := e;
      OnRecv(ev.res, ev.data);
      FollowsTrans(e0, e1, e, ev);
    }

    method CompleteInotify(ev: Cqe)
      requires Valid() && !dropped && !closing && KernelAllows(tx, e, ev) && ev.InotifyDone?
      modifies this
      ensures Valid() && e.Follows(old(e), ev) && Reacted(proto, old(tx), old(Retired(ev)), ev, Stands())
      ensures ev.res > 0 ==> Holds(ev.finals, Stands())
      ensures old(e.owed.recv) == 1 ==> rx.buf == old(rx.buf) && rx.len == old(rx.len)
      ensures old(e.owed.send) + old(e.owed.notif) > 0 ==> tx.buf == old(tx.buf)
    {
      ghost var e0 := e;
      Account(ev);
      ghost var e1 := e;
      OnInotify(ev.res, ev.finals);
      FollowsTrans(e0, e1, e, ev);
    }

    method CompleteNotif()
      requires Valid() && !dropped && !closing && KernelAllows(tx, e, SendNotif)
      modifies this
      ensures Valid() && e.Follows(old(e), SendNotif) && Pinned() && Reacted(proto, old(tx), old(Retired(SendNotif)), SendNotif, Stands())
      ensures old(e.owed.send) + old(e.owed.notif) > 1 ==> tx.buf == old(tx.buf)
    {
      ghost var e0 := e;
      AccountNotif();
      ghost var e1 := e;
      OnSendNotif();
      FollowsTrans(e0, e1, e, SendNotif);
    }

    method AccountNotif()
      requires Valid() && !dropped && !closing && KernelAllows(tx, e, SendNotif)
      modifies `tx, `e, `inflight
      ensures Listening() && Notified(tx, e) && tx == old(tx) && Now() == old(Retired(SendNotif))
      ensures e.Follows(old(e), SendNotif) && e.owed == After(old(e.owed), SendNotif)
    {
      ghost var tx0, e0 := tx, e;
      AccountTx(SendNotif);
      NotifLeaves(rx, tx0, nt, e0, e);
    }

    method CompleteSend(ev: Cqe)
      requires Valid() && !dropped && !closing && KernelAllows(tx, e, ev) && ev.SendDone?
      requires !Linked(tx)
      modifies this
      ensures Valid() && e.Follows(old(e), ev) && Pinned() && Reacted(proto, old(tx), old(Retired(ev)), ev, Stands())
      ensures old(e.owed.notif) > 0 || ev.more ==> tx.buf == old(tx.buf)
    {
      ghost var e0 := e;
      AccountSend(ev);
      ghost var e1 := e;
      OnSend(ev.res);
      SendCounted(proto, old(tx), old(Retired(ev)), ev, Stands());
      FollowsTrans(e0, e1, e, ev);
    }

    method AccountSend(ev: Cqe)
      requires Valid() && !dropped && !closing && KernelAllows(tx, e, ev) && ev.SendDone?
      requires !Linked(tx)
      modifies `tx, `e, `inflight
      ensures PausingAt(Max(ev.res, 0)) && tx.off < |tx.buf| && tx.buf == old(tx.buf)
      ensures e.Follows(old(e), ev) && e.owed == After(old(e.owed), ev) && Now() == old(Retired(ev))
      ensures tx == Counting(old(tx), ev)
    {
      ghost var tx0, e0 := tx, e;
      AccountTx(ev);
      SendLeaves(rx, tx0, nt, e0, ev, tx, e);
    }

    method CompleteSplice(ev: Cqe)
      requires Valid() && !dropped && !closing && KernelAllows(tx, e, ev) && (ev.SpliceInDone? || ev.SpliceOutDone?)
      requires !Linked(tx)
      modifies this
      ensures Valid() && e.Follows(old(e), ev) && Pinned() && Reacted(proto, old(tx), old(Retired(ev)), ev, Stands())
      ensures old(e.owed.send) == 0 && old(e.owed.notif) == 0
    {
      ghost var e0 := e;
      AccountSplice(ev);
      ghost var e1 := e;
      if ev.SpliceInDone? {
        OnSpliceIn(ev.res);
      } else {
        OnSpliceOut(ev.res);
      }
      FollowsTrans(e0, e1, e, ev);
    }

    method AccountSplice(ev: Cqe)
      requires Valid() && !dropped && !closing && KernelAllows(tx, e, ev) && (ev.SpliceInDone? || ev.SpliceOutDone?)
      requires !Linked(tx)
      modifies `tx, `e, `inflight
      ensures Listening() && tx == old(tx) && Now() == old(Retired(ev))
      ensures ev.SpliceInDone? ==> Filled(tx, e, Max(ev.res, 0)) && tx.zc.value.got < tx.zc.value.want
      ensures ev.SpliceOutDone? ==> Emptying(tx, e, Max(ev.res, 0))
      ensures e.Follows(old(e), ev) && e.owed == After(old(e.owed), ev) && old(e.owed.send) == 0 == old(e.owed.notif)
    {
      ghost var tx0, e0 := tx, e;
      AccountTx(ev);
      SpliceLeaves(rx, tx0, nt, e0, ev, e);
    }

    method CompleteLinked(ev: Cqe)
      requires Valid() && !dropped && !closing && KernelAllows(tx, e, ev)
      requires ev.SpliceInDone? || ev.SpliceOutDone? || ev.SendDone?
      requires Linked(tx)
      modifies this
      ensures Valid() && e.Follows(old(e), ev) && Pinned() && Reacted(proto, old(tx), old(Retired(ev)), ev, Stands())
      ensures After(old(e.owed), ev).send > 0 ==> tx.buf == old(tx.buf)
      ensures After(old(e.owed), ev).notif == 0
    {
      ghost var e0 := e;
      AccountLinked(ev);
      ghost var e1 := e;
      OnLinked(ev.SpliceOutDone?, ev.res);
      FollowsTrans(e0, e1, e, ev);
    }

    method AccountLinked(ev: Cqe)
      requires Valid() && !dropped && !closing && KernelAllows(tx, e, ev) && Linked(tx)
      requires ev.SpliceInDone? || ev.SpliceOutDone? || ev.SendDone?
      modifies `tx, `e, `inflight
      ensures Listening() && Linking(tx, e, ev.SpliceOutDone?, ev.res) && tx == old(tx) && Now() == old(Retired(ev))
      ensures e.Follows(old(e), ev) && e.owed == After(old(e.owed), ev)
    {
      ghost var tx0, e0 := tx, e;
      AccountTx(ev);
      LinkedRetire(rx, tx0, nt, e0, ev, e);
    }
  }
}
