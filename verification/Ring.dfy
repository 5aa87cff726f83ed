/** The state of one connection of the io_uring reactor (src/uring.rs) and what holds of it.

    The source's connection fields are grouped into a receive side, a transmit
    side and a notify side. Beside them stands the environment: the completions
    the kernel still owes, the buffer regions those operations reference, the
    bytes in the splice pipe and the histories of the socket. The kernel is
    nondeterministic: every submitted operation yields one completion, a
    zero-copy send flagged F_MORE yields one later notification, sends and
    splices move any number of bytes up to the request, and a failed or short
    member of a linked chain cancels the rest.
 */
module Ring {
  import opened Wire
  import opened Response

  const RX_INITIAL := 68 * 1024
  const RX_MIN_ROOM := 16 * 1024
  const MAX_FRAME := MAX_TRANSACT + 0x1_1000
  const RX_CAP := MAX_FRAME + 4 + RX_MIN_ROOM
  const PREAUTH_MAX_FRAME := 128 * 1024
  const TX_FLUSH := 0x10_0000
  const ZC_SEND_MIN := 64 * 1024

  const EINTR := -4
  const EAGAIN := -11
  const ENOMEM := -12
  const ENOBUFS := -105

  const INSUFFICIENT_RESOURCES := 0xC000_009A
  const END_OF_FILE := 0xC000_0011

  /** Transmit-side state: one response stream is in flight at a time. */
  datatype Mode = Idle | Send | Drain | ZcIn | ZcHdr | ZcOut

  /** A zero-copy READ in progress. */
  datatype Zc = Zc(plan: ReadPlan, want: nat, got: nat, outLeft: nat, linked: bool, chain: nat, err: bool)

  /** Completions the kernel owes, by kind. */
  datatype Owed = Owed(recv: nat, send: nat, notif: nat, spliceIn: nat, spliceOut: nat, inotify: nat) {
    function Total(): nat { recv + send + notif + spliceIn + spliceOut + inotify }
  }

  /** Where the kernel stands in a linked splice-in, send, splice-out chain. */
  datatype Chain = NoChain | Filling | Header | Draining | Broken

  /** One completion. A non-negative `res` is a byte count; `data` are the bytes it moved in. */
  datatype Cqe =
    | RecvDone(res: int, data: bytes)
    | SendDone(res: int, more: bool)
    | SendNotif
    | SpliceInDone(res: int, data: bytes)
    | SpliceOutDone(res: int)
    | InotifyDone(res: int, finals: seq<bytes>)

  /** One emitted frame and the request it answers (negative for async frames). */
  datatype Out = Out(frame: bytes, req: int)

  function Stream(fs: seq<Out>): bytes {
    if fs == [] then [] else Stream(fs[..|fs| - 1]) + fs[|fs| - 1].frame
  }

  /** Whole frames only, and answers appear in the order of their requests, all below `n`. */
  predicate WholeInOrder(fs: seq<Out>, n: int) {
    fs == [] ||
    var o := fs[|fs| - 1];
    Framed(o.frame) && o.req < n && WholeInOrder(fs[..|fs| - 1], if o.req >= 0 then o.req else n)
  }

  /** Said of any two frames. */
  lemma {:induction false} InOrderMeans(fs: seq<Out>, n: int)
    ensures WholeInOrder(fs, n) <==>
            && (forall i :: 0 <= i < |fs| ==> Framed(fs[i].frame) && fs[i].req < n)
            && (forall i, j :: 0 <= i < j < |fs| && fs[i].req >= 0 && fs[j].req >= 0 ==> fs[i].req < fs[j].req)
  {
    if fs != [] {
      var k := |fs| - 1;
      var o, init := fs[k], fs[..k];
      InOrderMeans(init, if o.req >= 0 then o.req else n);
      assert forall i :: 0 <= i < k ==> init[i] == fs[i];
    }
  }

  lemma {:induction false} InOrderBelow(fs: seq<Out>, m: int, n: int)
    requires WholeInOrder(fs, m) && m <= n
    ensures WholeInOrder(fs, n)
  {
    if fs != [] {
      var o := fs[|fs| - 1];
      InOrderBelow(fs[..|fs| - 1], if o.req >= 0 then o.req else m, if o.req >= 0 then o.req else n);
    }
  }

  lemma StreamSnoc(fs: seq<Out>, o: Out)
    ensures Stream(fs + [o]) == Stream(fs) + o.frame
  {
    assert (fs + [o])[..|fs|] == fs;
  }

  lemma AppendOut(fs: seq<Out>, o: Out, n: int)
    requires Framed(o.frame) && n >= 0
    requires (WholeInOrder(fs, n) && o.req < 0) || (WholeInOrder(fs, n - 1) && o.req == n - 1)
    ensures WholeInOrder(fs + [o], n)
    ensures Stream(fs + [o]) == Stream(fs) + o.frame
  {
    StreamSnoc(fs, o);
    assert (fs + [o])[..|fs|] == fs;
    if WholeInOrder(fs, n - 1) { InOrderBelow(fs, n - 1, n); }
  }

  /** Sending `n` bytes of `t[at..]` moves them from what is left to what has gone out. */
  lemma SendMoves(w: bytes, t: bytes, at: nat, n: nat, p: bytes, s: bytes)
    requires at + n <= |t| && w + (t[at..] + p) == s
    ensures (w + t[at..at + n]) + (t[at + n..] + p) == s
  {
    assert t[at..] == t[at..at + n] + t[at + n..];
  }

  /** `reply` is appended to tx; `established` is whether a session is established
      afterwards; `finals` are the notify completions the frame produced; `dups` READ
      descriptors were duplicated and those in `closed` closed again. */
  datatype Outcome = Outcome(
    action: FrameAction, reply: bytes, established: bool, finals: seq<bytes>, watch: bool, dups: nat, closed: seq<int>)

  /** A reply is absent or one whole frame; closing and zero-copy actions buffer nothing; every
      descriptor duplicated was closed once or leaves with the plan. */
  ghost predicate LegalOutcome(o: Outcome, serial: nat) {
    && AllFramed(o.finals)
    && (o.reply == [] || Framed(o.reply))
    && (o.action.CloseNow? || o.action.ZcRead? ==> o.reply == [])
    && (o.action.ZcRead? ==> ZC_MIN_READ <= o.action.plan.length <= MAX_READ_TARGET)
    && EachOnce(o.closed + PlanFds(ActionPlan(o.action)), serial, o.dups)
  }

  /** The protocol layer as the reactor sees it: what it makes of the n-th request on a connection,
      given how many descriptors were duplicated before. */
  type Protocol = p: (nat, bytes, nat) -> Outcome | LegalProtocol(p)
    ghost witness Silence()

  ghost predicate LegalProtocol(p: (nat, bytes, nat) -> Outcome) {
    forall n, f, serial :: LegalOutcome(p(n, f, serial), serial)
  }

  ghost function Silence(): (p: (nat, bytes, nat) -> Outcome)
    ensures LegalProtocol(p)
  {
    (n, f, serial) => Outcome(Respond, [], false, [], false, 0, [])
  }

  /** The frame at the head of the receive buffer. */
  datatype Head = Partial | Total(n: nat) | Desync

  function FrameTotal(b: bytes, established: bool): (h: Head)
    ensures h.Total? ==> 4 <= h.n <= MAX_FRAME + 4 && |b| >= 4 && h.n == 4 + NbtLength(b) && b[0] == 0
    ensures h.Total? && !established ==> h.n <= PREAUTH_MAX_FRAME + 4
    ensures h.Partial? ==> |b| < 4
  {
    if |b| < 4 then Partial
    else if b[0] != 0 then Desync
    else if NbtLength(b) > (if established then MAX_FRAME else PREAUTH_MAX_FRAME) then Desync
    else Total(4 + NbtLength(b))
  }

  predicate WholeHead(b: bytes) {
    |b| >= 4 && 4 + NbtLength(b) <= |b|
  }

  // ----------------------------------------------------------- the state

  /** Receive side: `buf[off..len]` holds unread bytes. */
  datatype Rx = Rx(buf: bytes, off: nat, len: nat, armed: bool, established: bool) {
    ghost predicate Sane() { off <= len <= |buf| <= RX_CAP }

    ghost function Unread(): bytes
      requires Sane()
    {
      buf[off..len]
    }
  }

  /** Transmit side. */
  datatype TxSide = TxSide(
    buf: bytes, off: nat, mode: Mode, pendingZc: Option<ReadPlan>, pipe: bool, pipeCap: nat, zc: Option<Zc>,
    notifPending: nat, sendIsZc: bool, copyNext: bool, closeAfterSend: bool)
  {
    /** READ descriptors this side must still close. */
    function Held(): seq<int> {
      (if zc.Some? then [zc.value.plan.fd] else []) + PlanFds(pendingZc)
    }
  }

  /** CHANGE_NOTIFY side. */
  datatype Notify = Notify(inotify: bool, ibuf: bytes, deferred: seq<bytes>, cancelled: bool)

  /** The environment: what the kernel owes and references, and the histories.
      `wire` is what the socket accepted, `rest` what is committed but not yet
      accepted, `frames` every frame committed, `requests` every request frame
      consumed, `received` every byte delivered, `dups` how many READ descriptors
      were duplicated, `closed` every close of one, `posted` how many operations
      were submitted and `done` every completion delivered. */
  datatype Env = Env(
    owed: Owed, recvAt: nat, recvLen: nat, sendAt: nat, sendLen: nat, spliceInLen: nat, spliceOutLen: nat,
    chain: Chain, pipe: bytes,
    wire: bytes, rest: bytes, frames: seq<Out>, requests: seq<bytes>, received: bytes,
    dups: nat, closed: seq<int>, posted: nat, done: seq<Cqe>)
  {
    /** Histories only grow. */
    ghost predicate Grows(e: Env) {
      && e.wire <= wire && e.frames <= frames && e.requests <= requests && e.received <= received
      && e.dups <= dups && e.closed <= closed && e.posted <= posted
    }

    /** Histories grow and nothing completes. */
    ghost predicate Extends(e: Env) {
      Grows(e) && done == e.done
    }

    /** Histories grow and exactly `ev` completes. */
    ghost predicate Follows(e: Env, ev: Cqe) {
      Grows(e) && done == e.done + [ev]
    }

    /** No operation references the transmit buffer. */
    ghost predicate TxFree() {
      owed.send == 0 && owed.notif == 0 && owed.spliceIn == 0 && owed.spliceOut == 0
    }

    /** The zero-copy READ being served answers the last request taken. */
    ghost predicate AwaitingRead() {
      requests != [] && WholeInOrder(frames, |requests| - 1)
    }
  }

  lemma ExtendsTrans(a: Env, b: Env, c: Env)
    requires b.Extends(a) && c.Extends(b)
    ensures c.Extends(a)
  {
  }

  lemma FollowsTrans(a: Env, b: Env, c: Env, ev: Cqe)
    requires b.Follows(a, ev) && c.Extends(b)
    ensures c.Follows(a, ev)
  {
  }

  /** Notifications that completions have promised (F_MORE). */
  function Promised(done: seq<Cqe>): nat {
    if done == [] then 0 else Promised(done[..|done| - 1]) + Notes(done[|done| - 1])
  }

  /** What the kernel owes is what was submitted and promised and has not completed. */
  ghost predicate Balanced(e: Env) {
    e.owed.Total() + |e.done| == e.posted + Promised(e.done)
  }

  lemma PromisedMore(done: seq<Cqe>, ev: Cqe)
    ensures Promised(done + [ev]) == Promised(done) + Notes(ev)
  {
    assert (done + [ev])[..|done|] == done;
  }

  // ------------------------------------------------------- the invariant

  /** The socket has carried a prefix of whole frames in request order, and the
      bytes received are the frames consumed followed by the unread tail. */
  ghost predicate Streams(rx: Rx, e: Env) {
    && rx.Sane()
    && WholeInOrder(e.frames, |e.requests|)
    && e.wire + e.rest == Stream(e.frames)
    && AllFramed(e.requests)
    && e.received == Flatten(e.requests) + rx.Unread()
  }

  ghost predicate ChainOk(tx: TxSide, e: Env) {
    match e.chain
    case NoChain => e.owed.send + e.owed.spliceIn + e.owed.spliceOut <= 1
    case Filling =>
      && e.owed.spliceIn == 1 && e.owed.send == 1 && e.owed.spliceOut == 1
      && tx.zc.Some? && tx.buf == ReadRespPrefix(tx.zc.value.plan, e.spliceInLen)
      && 0 < e.spliceInLen <= MAX_READ_TARGET && e.spliceOutLen == e.spliceInLen
      && e.sendAt == 0 && e.sendLen == |tx.buf|
      && e.pipe == [] && e.rest == [] && e.AwaitingRead()
    case Header =>
      && e.owed.spliceIn == 0 && e.owed.send == 1 && e.owed.spliceOut == 1
      && e.sendAt == 0 && |e.pipe| == e.spliceOutLen
    case Draining => e.owed.spliceIn == 0 && e.owed.send == 0 && e.owed.spliceOut == 1
    case Broken => e.owed.spliceIn == 0
  }

  /** Every outstanding operation's buffer region is intact, and what the kernel
      would write next is exactly the next committed bytes. */
  ghost predicate Regions(rx: Rx, tx: TxSide, e: Env) {
    && e.owed.recv <= 1 && e.owed.send <= 1 && e.owed.spliceIn <= 1 && e.owed.spliceOut <= 1 && e.owed.inotify <= 1
    && (e.owed.recv == 1 ==> e.recvAt == rx.len && 0 < e.recvLen && e.recvAt + e.recvLen <= |rx.buf|)
    && (e.owed.send == 1 && (e.chain.NoChain? || e.chain.Header?) ==>
          && 0 < e.sendLen && e.sendAt + e.sendLen == |tx.buf|
          && e.rest == tx.buf[e.sendAt..] + e.pipe)
    && (e.owed.spliceOut == 1 && (e.chain.NoChain? || e.chain.Draining?) ==>
          e.rest == e.pipe && e.spliceOutLen == |e.pipe|)
    && ChainOk(tx, e)
  }

  /** Every descriptor ever duplicated has been closed once or is still held, never both. */
  ghost predicate Fds(tx: TxSide, e: Env) {
    EachOnce(e.closed + tx.Held(), 0, e.dups)
  }

  /** Nothing was read or queued: the same bytes wait to be read, the same frames to be sent, and
      the same requests were taken. */
  ghost predicate Steady(rx0: Rx, nt0: Notify, e0: Env, rx: Rx, nt: Notify, e: Env) {
    && rx0.Sane() && rx.Sane() && rx.Unread() == rx0.Unread() && rx.established == rx0.established
    && nt.deferred == nt0.deferred && e.requests == e0.requests && e.received == e0.received
  }

  /** Frames moved from the queue to the batch, and nothing else changed. */
  ghost predicate Batched(tx0: TxSide, nt0: Notify, e0: Env, tx: TxSide, nt: Notify, e: Env) {
    && tx == tx0.(buf := tx.buf) && nt == nt0.(deferred := nt.deferred)
    && e == e0.(frames := e.frames, rest := e.rest) && e0.frames <= e.frames
  }

  lemma BatchedTrans(tx0: TxSide, nt0: Notify, e0: Env, tx1: TxSide, nt1: Notify, e1: Env, tx: TxSide, nt: Notify, e: Env)
    requires Batched(tx0, nt0, e0, tx1, nt1, e1) && Batched(tx1, nt1, e1, tx, nt, e)
    ensures Batched(tx0, nt0, e0, tx, nt, e)
  {
  }

  /** The flags say which reads are posted, and a posted recv at the front can complete its frame. */
  ghost predicate Receiving(rx: Rx, nt: Notify, e: Env) {
    && (nt.inotify <==> e.owed.inotify == 1) && (rx.armed <==> e.owed.recv == 1)
    && (rx.armed && rx.off == 0 && rx.len >= 4 && rx.len <= |rx.buf| ==> 4 + NbtLength(rx.buf) <= |rx.buf|)
  }

  ghost predicate PlanOk(p: ReadPlan) {
    0 < p.length <= MAX_READ_TARGET
  }

  ghost predicate LinkedShape(z: Zc, e: Env) {
    && z.linked && z.want == z.plan.length && 0 < z.outLeft == z.want
    && (z.err ==> e.chain.Broken?)
    && z.chain == e.owed.spliceIn + e.owed.send + e.owed.spliceOut > 0
    && !e.chain.NoChain?
    && (e.chain.Filling? ==> e.spliceInLen == z.want)
    && (e.chain.Header? || e.chain.Draining? ==> e.spliceOutLen == z.want)
  }

  /** The transmit side between completions, mode by mode. */
  ghost predicate TxShape(tx: TxSide, e: Env) {
    && (tx.zc.Some? ==> tx.pipe && tx.pendingZc.None?) && (tx.pipe ==> 0 < tx.pipeCap)
    && (tx.closeAfterSend ==> tx.mode.Send? || tx.mode.Drain?)
    && (tx.pendingZc.Some? ==> e.AwaitingRead() && PlanOk(tx.pendingZc.value) && !tx.closeAfterSend)
    && match tx.mode
       case Idle =>
         && e.TxFree() && e.chain.NoChain? && tx.buf == [] && tx.off == 0 && tx.notifPending == 0
         && tx.zc.None? && tx.pendingZc.None? && e.pipe == [] && e.rest == []
       case Send =>
         && e.chain.NoChain? && e.owed.send == 1 && e.sendAt == tx.off
         && tx.zc.None? && e.pipe == [] && tx.notifPending == e.owed.notif
       case Drain =>
         && e.chain.NoChain? && e.owed.send == 0 && e.owed.spliceIn == 0 && e.owed.spliceOut == 0
         && tx.off == |tx.buf| && e.rest == []
         && tx.zc.None? && e.pipe == [] && tx.notifPending == e.owed.notif > 0
       case ZcIn =>
         && e.chain.NoChain? && e.owed.notif == 0 && e.owed.spliceIn == 1
         && tx.notifPending == 0 && tx.buf == [] && tx.off == 0 && e.rest == []
         && tx.zc.Some? && !tx.zc.value.linked && tx.zc.value.got < tx.zc.value.want <= MAX_READ_TARGET
         && e.spliceInLen == tx.zc.value.want - tx.zc.value.got && |e.pipe| == tx.zc.value.got
         && e.AwaitingRead()
       case ZcHdr =>
         && e.chain.NoChain? && e.owed.send == 1 && e.owed.notif == 0
         && tx.notifPending == 0 && e.sendAt == tx.off && !tx.sendIsZc
         && tx.zc.Some? && !tx.zc.value.linked && 0 < tx.zc.value.outLeft == |e.pipe|
       case ZcOut =>
         && tx.notifPending == 0 && e.owed.notif == 0 && tx.zc.Some?
         && (tx.zc.value.linked ==> LinkedShape(tx.zc.value, e))
         && (!tx.zc.value.linked ==>
               e.chain.NoChain? && e.owed.spliceOut == 1 && 0 < tx.zc.value.outLeft == |e.pipe|)
  }

  /** A recv is posted unless a whole frame already waits behind a busy transmit
      side, and a posted recv can complete the frame at the front of the buffer. */
  ghost predicate RxShape(rx: Rx, tx: TxSide, e: Env)
    requires rx.Sane()
  {
    && (rx.armed <==> e.owed.recv == 1)
    && (!tx.closeAfterSend && !rx.armed ==> WholeHead(rx.Unread()))
    && (tx.mode.Idle? ==> rx.armed && !WholeHead(rx.Unread()))
    && (rx.armed && rx.off == 0 && rx.len >= 4 ==> 4 + NbtLength(rx.buf) <= |rx.buf|)
  }

  /** The completion is one the kernel owes, with a result it may give. */
  ghost predicate KernelAllows(tx: TxSide, e: Env, ev: Cqe) {
    match ev
    case RecvDone(res, data) => e.owed.recv > 0 && res <= e.recvLen && |data| == Max(res, 0)
    case SendDone(res, more) =>
      && e.owed.send > 0 && res <= e.sendLen && !e.chain.Filling?
      && (e.chain.Broken? ==> res < 0)
      && (more ==> tx.sendIsZc && e.chain.NoChain?)
    case SendNotif => e.owed.notif > 0
    case SpliceInDone(res, data) => e.owed.spliceIn > 0 && res <= e.spliceInLen && |data| == Max(res, 0)
    case SpliceOutDone(res) =>
      && e.owed.spliceOut > 0 && res <= e.spliceOutLen && !e.chain.Filling? && !e.chain.Header?
      && (e.chain.Broken? ==> res < 0)
    case InotifyDone(res, finals) => e.owed.inotify > 0 && AllFramed(finals)
  }

  // -------------------------------------------------- the kernel's steps

  /** Completions that `ev` announces on top of itself (F_MORE). */
  function Notes(ev: Cqe): nat {
    if ev.SendDone? && ev.more then 1 else 0
  }

  /** What is still owed once `ev` has been delivered. */
  function After(o: Owed, ev: Cqe): Owed {
    match ev
    case RecvDone(_, _) => o.(recv := 0)
    case SendDone(_, more) => o.(send := 0, notif := if more then o.notif + 1 else o.notif)
    case SendNotif => o.(notif := Max(o.notif - 1, 0))
    case SpliceInDone(_, _) => o.(spliceIn := 0)
    case SpliceOutDone(_) => o.(spliceOut := 0)
    case InotifyDone(_, _) => o.(inotify := 0)
  }

  /** What one completion does outside the server: bytes move between file, pipe
      and socket, and the operation stops referencing its buffer. */
  ghost function Retire(tx: TxSide, e: Env, ev: Cqe): Env
    requires KernelAllows(tx, e, ev)
    requires e.sendAt + e.sendLen <= |tx.buf| || !ev.SendDone? || e.chain.Broken?
    requires e.spliceOutLen <= |e.pipe| || !ev.SpliceOutDone? || e.chain.Broken?
  {
    var e := e.(owed := After(e.owed, ev), done := e.done + [ev]);
    match ev
    case SendDone(res, _) =>
      if e.chain.Broken? then e
      else
        var n := Max(res, 0);
        e.(wire := e.wire + tx.buf[e.sendAt..e.sendAt + n],
           rest := tx.buf[e.sendAt + n..] + e.pipe,
           chain := if e.chain.NoChain? then NoChain else if res == e.sendLen then Draining else Broken)
    case SpliceInDone(res, data) =>
      var e := e.(pipe := e.pipe + data);
      if e.chain.NoChain? then e
      else if res == e.spliceInLen then
        e.(chain := Header, rest := tx.buf + data, frames := e.frames + [Out(tx.buf + data, |e.requests| - 1)])
      else e.(chain := Broken)
    case SpliceOutDone(res) =>
      if e.chain.Broken? then e
      else
        var n := Max(res, 0);
        e.(wire := e.wire + e.pipe[..n], rest := e.pipe[n..], pipe := e.pipe[n..], chain := NoChain)
    case _ => e
  }

  /** The kernel here cancels a chain whose header went out short. The source sends the header without
      MSG_WAITALL, under which a kernel may let the chain go on: the payload then follows `n` bytes of the
      header, and what the socket carried is the promised stream, whatever the payload, exactly when the
      header went out whole. */
  lemma HeaderWhole(w: bytes, hdr: bytes, n: nat)
    requires n <= |hdr|
    ensures (forall data: bytes :: w + hdr[..n] + data <= w + hdr + data) <==> n == |hdr|
  {
    if n < |hdr| {
      var data: bytes := [if hdr[n] == 0 then 1 else 0];
      assert (w + hdr[..n] + data)[|w| + n] == data[0] && (w + hdr + data)[|w| + n] == hdr[n];
    } else {
      assert hdr[..n] == hdr;
    }
  }

  /** One completion retires one owed completion, or replaces it by the promised notification. */
  lemma RetireCounts(rx: Rx, tx: TxSide, e: Env, ev: Cqe)
    requires Regions(rx, tx, e) && KernelAllows(tx, e, ev)
    ensures var e' := Retire(tx, e, ev);
            && e'.owed == After(e.owed, ev) && e'.dups == e.dups && e'.requests == e.requests
            && e'.posted == e.posted && e'.done == e.done + [ev]
            && e'.owed.Total() == e.owed.Total() + Notes(ev) - 1
  {
  }

  // ------------------------------------------------------ the connection

  /** Append one whole frame to the stream. */
  ghost function Commit(e: Env, f: bytes, req: int): Env {
    e.(frames := e.frames + [Out(f, req)], rest := e.rest + f)
  }

  lemma CommitKeeps(rx: Rx, e: Env, f: bytes, req: int)
    requires Streams(rx, e) && Framed(f)
    requires req < 0 || (req == |e.requests| - 1 && WholeInOrder(e.frames, req))
    ensures Streams(rx, Commit(e, f, req))
  {
    AppendOut(e.frames, Out(f, req), |e.requests|);
    assert e.wire + (e.rest + f) == (e.wire + e.rest) + f;
  }

  /** A request's reply is committed, and its descriptors are duplicated and closed. */
  ghost function Accepted(e: Env, o: Outcome): Env {
    var e := if o.reply == [] then e else Commit(e, o.reply, |e.requests| - 1);
    e.(dups := e.dups + o.dups, closed := e.closed + o.closed)
  }

  /** The transmit side while responses are being gathered: tx is exactly what is
      committed and not yet sent. A READ plan may be waiting for it to go out. */
  ghost predicate Gathering(tx: TxSide, e: Env) {
    && e.TxFree() && e.chain.NoChain? && tx.off == 0 && tx.buf == e.rest && e.pipe == []
    && tx.notifPending == 0 && tx.zc.None? && (tx.pipe ==> 0 < tx.pipeCap)
    && (tx.pendingZc.Some? ==> e.AwaitingRead() && PlanOk(tx.pendingZc.value) && !tx.closeAfterSend)
  }

  /** A send of the unsent part of tx may be submitted. */
  ghost predicate SendReady(tx: TxSide, e: Env) {
    && e.owed.send == 0 && e.owed.spliceIn == 0 && e.owed.spliceOut == 0 && e.chain.NoChain?
    && tx.off < |tx.buf| && e.rest == tx.buf[tx.off..] + e.pipe
  }

  ghost function PostSend(tx: TxSide, e: Env): Env
    requires tx.off <= |tx.buf|
  {
    e.(owed := e.owed.(send := 1), sendAt := tx.off, sendLen := |tx.buf| - tx.off, posted := e.posted + 1)
  }

  /** Refuse a READ: its error reply is committed and its descriptor closed. */
  ghost function Refused(e: Env, p: ReadPlan, st: nat): Env {
    Commit(e, ReadErr(p, st), |e.requests| - 1).(closed := e.closed + [p.fd])
  }

  /** Submit splice-in, header send and splice-out as one linked chain. */
  ghost function PostChain(e: Env, n: nat, hdr: nat): Env {
    e.(owed := e.owed.(spliceIn := 1, send := 1, spliceOut := 1), chain := Filling,
       spliceInLen := n, spliceOutLen := n, sendAt := 0, sendLen := hdr, posted := e.posted + 3)
  }

  ghost function PostSpliceIn(e: Env, n: nat): Env {
    e.(owed := e.owed.(spliceIn := 1), spliceInLen := n, posted := e.posted + 1)
  }

  ghost function PostSpliceOut(e: Env): Env {
    e.(owed := e.owed.(spliceOut := 1), spliceOutLen := |e.pipe|, posted := e.posted + 1)
  }

  ghost function PostInotify(e: Env): Env {
    e.(owed := e.owed.(inotify := 1), posted := e.posted + 1)
  }

  /** Mid-stream with no send outstanding: `tx.buf[tx.off..]`, and behind it the
      pipe when a READ header is going out, is what remains to be sent. */
  ghost predicate Paused(tx: TxSide, e: Env) {
    && e.chain.NoChain? && e.owed.send == 0 && e.owed.spliceIn == 0 && e.owed.spliceOut == 0
    && tx.off <= |tx.buf| && e.rest == tx.buf[tx.off..] + e.pipe
    && tx.notifPending == e.owed.notif && (tx.pipe ==> 0 < tx.pipeCap)
    && (tx.pendingZc.Some? ==> e.AwaitingRead() && PlanOk(tx.pendingZc.value) && !tx.closeAfterSend)
    && (tx.mode.Send? || tx.mode.ZcHdr?)
    && (tx.mode.Send? ==> tx.zc.None? && e.pipe == [])
    && (tx.mode.ZcHdr? ==>
          && tx.zc.Some? && tx.pipe && !tx.zc.value.linked && 0 < tx.zc.value.outLeft == |e.pipe|
          && tx.pendingZc.None? && tx.notifPending == 0 && !tx.closeAfterSend && !tx.sendIsZc)
  }

  /** tx has gone out entirely and is no longer referenced. */
  ghost predicate SendDrained(tx: TxSide, e: Env) {
    && e.TxFree() && e.chain.NoChain? && tx.off == |tx.buf| && e.rest == [] && e.pipe == []
    && tx.zc.None? && tx.notifPending == 0 && (tx.pipe ==> 0 < tx.pipeCap) && (tx.mode.Send? || tx.mode.Drain?)
    && (tx.pendingZc.Some? ==> e.AwaitingRead() && PlanOk(tx.pendingZc.value) && !tx.closeAfterSend)
  }

  /** A zero-copy READ whose last byte has gone out. */
  ghost predicate ReadDone(tx: TxSide, e: Env) {
    && e.TxFree() && e.chain.NoChain? && e.rest == [] && e.pipe == []
    && tx.zc.Some? && tx.pendingZc.None? && tx.notifPending == 0 && !tx.closeAfterSend && tx.pipe && 0 < tx.pipeCap
  }

  /** A zero-copy READ runs as a linked chain. */
  predicate Linked(tx: TxSide) {
    tx.mode.ZcOut? && tx.zc.Some? && tx.zc.value.linked
  }

  /** A send that is repeated: interrupted, or zero-copy and short of memory. */
  predicate Retried(tx: TxSide, res: int) {
    res == EINTR || ((res == ENOMEM || res == ENOBUFS) && tx.sendIsZc)
  }

  /** The bookkeeping for one completion of a linked chain. */
  function Noted(z: Zc, out: bool, res: int): Zc
    requires z.chain > 0
  {
    z.(chain := z.chain - 1,
       outLeft := if out && res > 0 then Max(z.outLeft - res, 0) else z.outLeft,
       err := z.err || res < 0)
  }

  /** One operation of a linked chain has completed with `res` and is still to be noted. */
  ghost predicate Linking(tx: TxSide, e: Env, out: bool, res: int) {
    && Linked(tx) && tx.zc.value.chain > 0 && tx.notifPending == 0 == e.owed.notif && tx.pendingZc.None? && !tx.closeAfterSend
    && tx.pipe && 0 < tx.pipeCap && !e.chain.Filling?
    && var z := Noted(tx.zc.value, out, res);
       && (z.chain > 0 ==> LinkedShape(z, e))
       && (z.chain == 0 && !z.err ==> e.TxFree() && e.chain.NoChain? && e.rest == e.pipe && |e.pipe| == z.outLeft)
  }

  /** A notification has arrived and is still to be counted. */
  ghost predicate Notified(tx: TxSide, e: Env) {
    && tx.notifPending == e.owed.notif + 1
    && (e.owed.notif > 0 || !tx.mode.Drain? ==> TxShape(tx.(notifPending := e.owed.notif), e))
    && (e.owed.notif == 0 && tx.mode.Drain? ==> SendDrained(tx.(notifPending := 0), e))
  }

  /** Close one descriptor. */
  ghost function Released(e: Env, fd: int): Env {
    e.(closed := e.closed + [fd])
  }

  /** The pipe is being filled and no splice is outstanding; `n` bytes just arrived. */
  ghost predicate Filled(tx: TxSide, e: Env, n: nat) {
    && e.TxFree() && e.chain.NoChain? && e.rest == [] && e.AwaitingRead()
    && tx.mode.ZcIn? && tx.buf == [] && tx.off == 0 && tx.notifPending == 0 && tx.pendingZc.None?
    && !tx.closeAfterSend && tx.pipe && 0 < tx.pipeCap
    && tx.zc.Some? && !tx.zc.value.linked && tx.zc.value.got + n <= tx.zc.value.want <= MAX_READ_TARGET
    && |e.pipe| == tx.zc.value.got + n
  }

  /** A READ being spliced out by one splice at a time, `n` bytes of it just accepted. */
  ghost predicate Emptying(tx: TxSide, e: Env, n: nat) {
    && e.TxFree() && e.chain.NoChain? && e.rest == e.pipe
    && tx.mode.ZcOut? && tx.notifPending == 0 && tx.pendingZc.None? && !tx.closeAfterSend && tx.pipe && 0 < tx.pipeCap
    && tx.zc.Some? && !tx.zc.value.linked && 0 < tx.zc.value.outLeft == |e.pipe| + n
  }

  /** Received bytes land in the posted region and extend the unread tail. */
  function Landed(rx: Rx, data: bytes): Rx
    requires rx.len + |data| <= |rx.buf|
  {
    rx.(armed := false, buf := rx.buf[..rx.len] + data + rx.buf[rx.len + |data|..], len := rx.len + |data|)
  }

  /** A whole frame of `total` bytes is at the head of the receive buffer. */
  ghost predicate HeadAt(rx: Rx, total: nat) {
    rx.Sane() && 4 <= total <= rx.len - rx.off && rx.buf[rx.off] == 0 && total == 4 + NbtLength(rx.Unread())
  }

  /** Cutting the head frame off the unread bytes. */
  lemma CutHead(requests: seq<bytes>, received: bytes, buf: bytes, off: nat, len: nat, total: nat)
    requires off + 4 <= off + total <= len <= |buf|
    requires buf[off] == 0 && total == 4 + NbtLength(buf[off..len])
    requires AllFramed(requests) && received == Flatten(requests) + buf[off..len]
    ensures var f := buf[off..off + total];
            AllFramed(requests + [f]) && received == Flatten(requests + [f]) + buf[off + total..len]
  {
    var f := buf[off..off + total];
    FlattenSnoc(requests, f);
    assert buf[off..len] == f + buf[off + total..len];
    assert Framed(f);
  }

  /** Consuming the head frame moves it from the unread bytes to the requests. */
  lemma ConsumeKeeps(rx: Rx, e: Env, total: nat)
    requires Streams(rx, e) && HeadAt(rx, total)
    ensures Streams(rx.(off := rx.off + total), Consume(rx, e, total))
    ensures Consume(rx, e, total).AwaitingRead()
  {
    CutHead(e.requests, e.received, rx.buf, rx.off, rx.len, total);
    InOrderBelow(e.frames, |e.requests|, |e.requests| + 1);
  }

  ghost function Consume(rx: Rx, e: Env, total: nat): Env
    requires rx.off + total <= |rx.buf|
  {
    e.(requests := e.requests + [rx.buf[rx.off..rx.off + total]])
  }

  /** Move the unread bytes to the front of the buffer. */
  function Compacted(rx: Rx): (r: Rx)
    requires rx.off <= rx.len <= |rx.buf| <= RX_CAP
    ensures r.Sane() && r.off == 0 && r.Unread() == r.buf[..r.len] == rx.Unread()
    ensures r.armed == rx.armed && r.established == rx.established
  {
    var live := rx.buf[rx.off..rx.len];
    rx.(buf := live + rx.buf[|live|..], len := |live|, off := 0)
  }

  /** Extend the buffer to `needed` bytes, up to the hard cap. */
  function Grown(rx: Rx, needed: nat): (r: Rx)
    requires rx.off == 0 && rx.len <= |rx.buf| <= RX_CAP
    ensures r.Sane() && r.off == 0 && r.len == rx.len && r.Unread() == r.buf[..r.len] == rx.Unread()
    ensures |r.buf| >= Min(needed, RX_CAP)
    ensures r.armed == rx.armed && r.established == rx.established
  {
    if |rx.buf| < needed then rx.(buf := rx.buf + Zeros(Min(needed, RX_CAP) - |rx.buf|)) else rx
  }

  /** `r` holds what `rx` held, at the front of a buffer that can hold the whole head frame;
      only a buffer filled by a whole frame has no room left. */
  ghost predicate Roomy(rx: Rx, r: Rx)
    requires rx.Sane()
  {
    && r.Sane() && r.off == 0 && r.Unread() == rx.Unread() && r.armed == rx.armed && r.established == rx.established
    && (r.len >= 4 ==> 4 + NbtLength(r.buf) <= |r.buf|)
    && (r.len == |r.buf| ==> WholeHead(r.Unread()))
  }

  /** The room a recv is given: a declared frame fits whole, and otherwise at
      least RX_MIN_ROOM bytes are free. */
  function Prepared(rx: Rx): (r: Option<Rx>)
    requires rx.off <= rx.len <= |rx.buf| <= RX_CAP
    ensures r.None? <==> FrameTotal(rx.buf[rx.off..rx.len], rx.established).Desync?
    ensures r.Some? ==> Roomy(rx, r.value)
  {
    var c := Compacted(rx);
    match FrameTotal(c.buf[..c.len], c.established)
    case Desync => None
    case Total(n) => Some(Grown(c, Max(n, c.len + RX_MIN_ROOM)))
    case Partial => Some(Grown(c, c.len + RX_MIN_ROOM))
  }

  /** Post a recv, then receive `data`. */
  function Received(rx: Rx, data: bytes): (r: Option<Rx>)
    requires rx.off <= rx.len <= |rx.buf| <= RX_CAP
  {
    var r := Prepared(rx);
    if r.None? || r.value.len + |data| > |r.value.buf| then None else Some(Landed(r.value, data))
  }

  /** A buffer of the initial size that starts with `b`. */
  ghost predicate Starts(rx: Rx, b: bytes) {
    && rx.off == 0 && rx.len == |b| <= |rx.buf| == RX_INITIAL && rx.buf[..|b|] == b
    && !rx.armed && !rx.established
  }

  lemma ReceivedStarts(rx: Rx, b: bytes, data: bytes)
    requires Starts(rx, b) && |b| <= 8 && |data| <= 8 && (|b| >= 4 ==> b[..4] == [0, 0, 0, 0])
    ensures Received(rx, data).Some? && Starts(Received(rx, data).value, b + data)
    ensures Prepared(rx).Some? && Starts(Prepared(rx).value, b)
  {
    var c := Compacted(rx);
    assert c.buf == rx.buf;
    var r := Landed(Prepared(rx).value, data);
    assert r.buf[..|b| + |data|] == b + data;
  }

  /** Not so once a frame was taken while the recv is out. While a response is being sent, an empty
      frame arrives, then the header of a large one, and a recv is posted behind both; the response has
      gone out and the empty frame is taken: the next frame is larger than the buffer, which grows only
      when the recv completes. */
  lemma RoomLostExample()
    ensures var first := Received(Rx(Zeros(RX_INITIAL), 0, 0, false, false), [0, 0, 0, 0]);
            && first.Some? && first.value.Sane()
            && var second := Received(first.value, [0, 0x02, 0, 0]);
               && second.Some? && second.value.Sane()
               && var posted := Prepared(second.value);
                  && posted.Some? && posted.value.Sane() && posted.value.len < |posted.value.buf|
                  && FrameTotal(posted.value.Unread(), false) == Total(4)
                  && var rx := posted.value.(off := 4, armed := true);
                     rx.Sane() && FrameTotal(rx.Unread(), false).Total? && FrameTotal(rx.Unread(), false).n > |rx.buf|
  {
    var start := Rx(Zeros(RX_INITIAL), 0, 0, false, false);
    ReceivedStarts(start, [], [0, 0, 0, 0]);
    var first := Received(start, [0, 0, 0, 0]).value;
    assert [] + [0, 0, 0, 0] == [0, 0, 0, 0];
    ReceivedStarts(first, [0, 0, 0, 0], [0, 0x02, 0, 0]);
    var second := Received(first, [0, 0x02, 0, 0]).value;
    ReceivedStarts(second, [0, 0, 0, 0, 0, 0x02, 0, 0], []);
    HeaderNext(Prepared(second).value);
  }

  lemma HeaderNext(rx: Rx)
    requires Starts(rx, [0, 0, 0, 0, 0, 0x02, 0, 0])
    ensures FrameTotal(rx.Unread(), false) == Total(4)
    ensures var r := rx.(off := 4, armed := true); r.Sane() && FrameTotal(r.Unread(), false) == Total(4 + 0x2_0000)
  {
    assert rx.Unread() == rx.buf[..8];
    assert rx.(off := 4, armed := true).Unread() == rx.buf[..8][4..];
  }

  /** Post a recv into the free tail of the buffer. */
  ghost function PostRecv(rx: Rx, e: Env): Env
    requires rx.len <= |rx.buf|
  {
    e.(owed := e.owed.(recv := 1), recvAt := rx.len, recvLen := |rx.buf| - rx.len, posted := e.posted + 1)
  }
}
