/** Processing one frame of requests (src/smb2/mod.rs, process_plain): the loop that dispatches the
    members, lays out and signs their replies, and the READ handler's part in it.
 */
module Processing {
  import opened Wire
  import opened Response
  import opened Frames
  import opened Compound

  /** Pad behind the cells `cs`, which links the last of them, and append a reply. */
  method PlaceBehind(b: Buf, ghost pre: bytes, base: nat, ghost cs: seq<bytes>, ghost linked: seq<bytes>, ghost start: nat,
                     reply: bytes, cmd: nat, sess: nat, key: Option<nat>) returns (c: Buf)
    requires Laid(b, pre, cs) && base == |pre| && StartsAt(|pre|, |b.tx|, start) && Fresh(reply)
    requires Relinked(cs) == linked && |Flatten(linked)| % 8 == 0
    ensures Laid(c, pre, Appended(linked, reply))
    ensures |c.tx| == start + |reply|
    ensures Noted(b.recs, c.recs, start, reply, cmd, sess, key)
  {
    var tx := Align(b, pre, base, cs, start);
    c := Emit(b.(tx := tx), pre, linked, reply, cmd, sess, key);
  }

  /** Lay out one member's reply. */
  method Place(b: Buf, ghost pre: bytes, base: nat, ghost rs: seq<bytes>, ghost silent: bool, ghost start: nat,
               reply: bytes, cmd: nat, sess: nat, key: Option<nat>) returns (c: Buf)
    requires Dispatched(b, pre, rs, silent) && base == |pre| && StartsAt(|pre|, |b.tx|, start) && Fresh(reply)
    ensures Dispatched(c, pre, Appended(rs, reply), reply == [])
    ensures |c.tx| == start + |reply|
    ensures Noted(b.recs, c.recs, start, reply, cmd, sess, key)
  {
    RelinkedCells(rs, silent);
    LinkedAligned(rs);
    AppendedReplies(rs, reply);
    PlacedCells(rs, reply);
    c := PlaceBehind(b, pre, base, Cells(rs, silent), Cells(rs, true), start, reply, cmd, sess, key);
  }

  /** Dispatch one member. */
  method Step(r: Run, ghost pre: bytes, base: nat, ghost ds: seq<Dispatch>, m: Member, cmd: nat) returns (s: Run)
    requires Holds(r, pre, ds) && base == |pre| && Fresh(m.reply)
    ensures Holds(s, pre, ds + [Dispatch(cmd, m)])
  {
    ghost var start;
    var buf;
    buf, start := PlaceMember(r.buf, pre, base, RepliesOf(Answering(ds)), Silent(ds), ds, Dispatch(cmd, m));
    s := Counted(r, buf, m);
    HoldsMore(r, buf, pre, ds, Dispatch(cmd, m), start);
  }

  lemma HoldsMore(r: Run, buf: Buf, pre: bytes, ds: seq<Dispatch>, d: Dispatch, start: nat)
    requires Holds(r, pre, ds) && Placed(r.buf, buf, pre, RepliesOf(Answering(ds)), d, start)
    requires |pre| + SizeOf(ds + [d]) == start + |d.m.reply|
    ensures Holds(Counted(r, buf, d.m), pre, ds + [d])
  {
    LaidOutMore(r.buf, buf, pre, ds, d, start);
    TalliedMore(r, buf, ds, d);
  }

  method PlaceMember(b: Buf, ghost pre: bytes, base: nat, ghost rs: seq<bytes>, ghost silent: bool, ghost ds: seq<Dispatch>,
                     d: Dispatch) returns (c: Buf, ghost start: nat)
    requires Dispatched(b, pre, rs, silent) && base == |pre| && |b.tx| == |pre| + SizeOf(ds) && Fresh(d.m.reply)
    ensures Placed(b, c, pre, rs, d, start) && |pre| + SizeOf(ds + [d]) == start + |d.m.reply|
  {
    SizeMore(ds, d);
    start := |pre| + Up8(SizeOf(ds));
    StartsBehind(|pre|, SizeOf(ds), |b.tx|, start);
    c := PlaceAt(b, pre, base, rs, silent, start, d);
  }

  method PlaceAt(b: Buf, ghost pre: bytes, base: nat, ghost rs: seq<bytes>, ghost silent: bool, ghost start: nat,
                 d: Dispatch) returns (c: Buf)
    requires Dispatched(b, pre, rs, silent) && base == |pre| && StartsAt(|pre|, |b.tx|, start) && Fresh(d.m.reply)
    ensures Placed(b, c, pre, rs, d, start)
  {
    c := Place(b, pre, base, rs, silent, start, d.m.reply, d.cmd, d.m.sess, SavedKey(d));
  }

  /** Look at the request at `off`, with `members` dispatched and `size` bytes of replies before it. */
  method Inspect(frame: bytes, off: nat, members: nat, size: nat, ghost disp: nat -> Member, ghost ds: seq<Dispatch>)
    returns (v: Verdict)
    requires OnTrack(frame, disp, Some(off), ds, false) && members == |ds| && size == SizeOf(ds)
    ensures v.Go? ==> OnTrack(frame, disp, v.next, ds + [Dispatch(v.cmd, disp(members))], false)
    ensures v.Go? && v.next.Some? ==> off < v.next.value
    ensures !v.Go? ==> OnTrack(frame, disp, None, ds, v.Over?)
  {
    ChainStep(frame, off, disp, ds);
    var h := ParseHdr(frame[off..]);
    if h.None? {
      v := Stop;
    } else if members == MAX_COMPOUND || size + 4 > COMPOUND_RESP_CAP {
      v := Over;
    } else if 0 < h.value.next < HDR_LEN {
      v := Stop;
    } else if h.value.next == 0 || off + h.value.next + HDR_LEN > |frame| {
      v := Go(h.value.command, None);
    } else {
      v := Go(h.value.command, Some(off + h.value.next));
    }
  }

  /** Dispatch the members of a frame and lay their replies out behind `pre`: exactly the members
      the frame's links reach, with their replies, plans, closes and descriptors. */
  method DispatchAll(frame: bytes, pre: bytes, disp: nat -> Member) returns (r: Run, over: bool)
    requires Lawful(disp, frame)
    ensures Holds(r, pre, Members(frame, disp)) && over == TooLarge(frame, disp)
  {
    r, over := Run(Buf(pre, [], None), None, false, [], 0), false;
    var at: Option<nat>, members: nat := Some(0), 0;
    ghost var ds: seq<Dispatch> := [];
    while at.Some?
      invariant OnTrack(frame, disp, at, ds, over) && Holds(r, pre, ds) && members == |ds|
      decreases if at.Some? then |frame| - at.value + 1 else 0
    {
      var v := Inspect(frame, at.value, members, |r.buf.tx| - |pre|, disp, ds);
      if v.Go? {
        r := Step(r, pre, |pre|, ds, disp(members), v.cmd);
        ds := ds + [Dispatch(v.cmd, disp(members))];
        members := members + 1;
        at, over := v.next, false;
      } else {
        at, over := None, v.Over?;
      }
    }
  }

  /** Process a frame of requests: what is appended to `tx0` is what the frame comes to. */
  method ProcessPlain(frame: bytes, tx0: bytes, w: World) returns (d: Done, tx: bytes)
    requires Legal(w, frame)
    ensures d == Plain(frame, w) && tx == tx0 + d.reply
  {
    if IsSmb1(frame) {
      d := Smb1Done(w);
      tx := tx0 + d.reply;
      return;
    }
    var run, over := DispatchAll(frame, tx0 + Zeros(4), w.disp);
    ghost var ds := Members(frame, w.disp);
    PlainIs(frame, w);
    if over || run.close {
      d, tx := Done([], CloseNow, run.closed + PlanFds(run.plan), run.dups), tx0;
    } else if run.plan.Some? {
      d, tx := Done([], ZcRead(run.plan.value), run.closed, run.dups), tx0;
    } else {
      tx := Finish(run.buf, tx0, w, ds);
      d := Done(tx[|tx0|..], Respond, run.closed, run.dups);
    }
  }

  /** Sign the replies and stamp the frame's length. */
  method Finish(b: Buf, tx0: bytes, w: World, ghost ds: seq<Dispatch>) returns (tx: bytes)
    requires IsMac(w.mac) && Bounded(ds)
    requires Dispatched(b, tx0 + Zeros(4), RepliesOf(Answering(ds)), Silent(ds)) && Named(b.recs, Answering(ds))
    requires |b.tx| == |tx0 + Zeros(4)| + SizeOf(ds)
    requires forall i :: 0 <= i < |Answering(ds)| ==> |Answering(ds)[i].m.reply| >= HDR_LEN
    ensures tx == tx0 + ReplyTo(w, ds)
  {
    ghost var rs, keys := RepliesOf(Answering(ds)), SignKeys(w.keyNow, w.encrypted, Answering(ds));
    KeysAgree(b.recs, Answering(ds), w.keyNow, w.encrypted);
    AnswerSigned(w.mac, rs, keys, Silent(ds));
    tx := SignAll(b, w.mac, w.keyNow, w.encrypted, tx0 + Zeros(4), Cells(rs, Silent(ds)), Answer(w.mac, rs, keys, Silent(ds)));
    FinishExact(tx0, w.mac, rs, keys, Silent(ds), tx, b.tx);
    tx := FinishNbt(tx, |tx0|);
  }

  // ----------------------------------------------------------- READ's plan

  const FILE_CLOSED := 0xC000_0128
  const INVALID_DEVICE_REQUEST := 0xC000_0010
  const NO_RESOURCES := 0xC000_009A
  const END_OF_FILE := 0xC000_0011

  /** What a READ meets: the open it names (and whether it is a directory), the descriptor
      duplicated for it (negative on failure), whether it is the frame's only request, whether its
      reply must be signed or sealed, the connection's read limit, the file's size, and what
      reading gives: bytes, or an error status. */
  datatype ReadEnv = ReadEnv(
    isDir: Option<bool>, dup: int, single: bool, mustSign: bool, maxRead: nat, size: Option<nat>, data: Option<bytes>, errno: nat)

  /** The descriptor was duplicated. */
  predicate Duplicated(v: ReadEnv) { v.isDir == Some(false) && v.dup >= 0 }

  /** A READ answers from a buffer or leaves a plan for the reactor; either way the descriptor it
      duplicated is closed once, here or with the plan. */
  method Read(h: ReqHdr, related: bool, length: nat, offset: nat, minCount: nat, v: ReadEnv)
    returns (reply: bytes, plan: Option<ReadPlan>, closed: seq<int>)
    requires v.maxRead <= MAX_READ_TARGET && (v.data.Some? ==> |v.data.value| <= Min(length, v.maxRead))
    ensures plan.Some? <==> Duplicated(v) && v.single && !v.mustSign && Min(length, v.maxRead) >= ZC_MIN_READ
    ensures plan.Some? ==> reply == [] && plan.value.fd == v.dup && ZC_MIN_READ <= plan.value.length <= MAX_READ_TARGET
    ensures plan.Some? && plan.value.linked ==> v.size.Some? && offset + plan.value.length <= v.size.value
    ensures plan.None? ==> reply != [] && Fresh(reply)
    ensures closed == if Duplicated(v) && plan.None? then [v.dup] else []
    ensures v.dup >= 0 ==> EachOnce(closed + PlanFds(plan), v.dup, if Duplicated(v) then 1 else 0)
    ensures Duplicated(v) && plan.None? && v.data.Some? && |v.data.value| >= Max(minCount, Min(1, Min(length, v.maxRead))) ==>
              |reply| == HDR_LEN + 16 + |v.data.value| && reply[HDR_LEN + 16..] == v.data.value
  {
    plan, closed := None, [];
    var n := Min(length, v.maxRead);
    if v.isDir != Some(false) {
      reply := ErrReply(h, related, if v.isDir.None? then FILE_CLOSED else INVALID_DEVICE_REQUEST);
    } else if v.dup < 0 {
      reply := ErrReply(h, related, NO_RESOURCES);
    } else if v.single && n >= ZC_MIN_READ && !v.mustSign {
      var linked := v.size.Some? && offset + n <= v.size.value;
      plan := Some(ReadPlan(v.dup, offset, n, minCount, h.msgId, h.creditCharge, h.credits, h.treeId, h.sessionId, linked));
      reply := [];
    } else {
      closed := [v.dup];
      if v.data.None? {
        reply := ErrReply(h, related, v.errno);
      } else if (v.data.value == [] && n > 0) || |v.data.value| < minCount {
        reply := ErrReply(h, related, END_OF_FILE);
      } else {
        reply := DataReply(h, related, v.data.value);
      }
    }
  }

  function ErrReply(h: ReqHdr, related: bool, st: nat): (r: bytes)
    ensures Fresh(r) && r != []
  {
    BeginRespFresh(h, st, related, h.treeId, h.sessionId, ErrBody());
    BeginResp(h, st, related, h.treeId, h.sessionId) + ErrBody()
  }

  function DataReply(h: ReqHdr, related: bool, data: bytes): (r: bytes)
    requires |data| <= MAX_READ_TARGET
    ensures Fresh(r) && |r| == HDR_LEN + 16 + |data| && r[HDR_LEN + 16..] == data
  {
    var body := Le(17, 2) + [80, 0] + Le(|data|, 4) + Le(0, 4) + Le(0, 4) + data;
    BeginRespFresh(h, STATUS_SUCCESS, related, h.treeId, h.sessionId, body);
    BeginResp(h, STATUS_SUCCESS, related, h.treeId, h.sessionId) + body
  }
}
