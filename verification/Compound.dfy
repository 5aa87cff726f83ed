/** One frame of requests (src/smb2/mod.rs, process_plain): the compound loop and what becomes of the
    replies, plans and descriptors of its members. The command handlers are a parameter.
 */
module Compound {
  import opened Wire
  import opened Response
  import opened Frames

  const MAX_COMPOUND := 128

  // --------------------------------------------------------- what is dispatched

  /** What one dispatched member did: the reply it appended, the plan it handed back, whether
      it broke the protocol, the session it ran under, the signing key that session had before,
      how many READ descriptors it duplicated and those it closed again. */
  datatype Member = Member(
    reply: bytes, plan: Option<ReadPlan>, close: bool, sess: nat, key: Option<nat>, dups: nat, closed: seq<int>)

  /** A dispatched member and its command. */
  datatype Dispatch = Dispatch(cmd: nat, m: Member)

  datatype Hdr = Hdr(command: nat, next: nat)

  function ParseHdr(b: bytes): Option<Hdr> {
    if |b| >= HDR_LEN && b[..4] == PROTOCOL_ID && FromLe(b[4..6]) == 64
    then Some(Hdr(FromLe(b[12..14]), FromLe(b[20..24]))) else None
  }

  /** A single request, the only kind that may be answered by a zero-copy plan. */
  predicate Single(frame: bytes) {
    ParseHdr(frame).Some? && ParseHdr(frame).value.next == 0
  }

  /** Bytes the replies of `ds` take: each starts on a multiple of eight. */
  function SizeOf(ds: seq<Dispatch>): nat {
    if ds == [] then 0 else Up8(SizeOf(ds[..|ds| - 1])) + |ds[|ds| - 1].m.reply|
  }

  /** The frame may not take another member. */
  predicate Full(ds: seq<Dispatch>) {
    |ds| == MAX_COMPOUND || SizeOf(ds) + 4 > COMPOUND_RESP_CAP
  }

  /** The members a frame dispatches from offset `off` on, behind `ds`, and whether it was cut off
      for being too large. */
  function Chain(frame: bytes, off: nat, disp: nat -> Member, ds: seq<Dispatch>): (seq<Dispatch>, bool)
    requires off <= |frame|
    decreases |frame| - off
  {
    match ParseHdr(frame[off..])
    case None => (ds, false)
    case Some(h) =>
      if Full(ds) then (ds, true)
      else if 0 < h.next < HDR_LEN then (ds, false)
      else
        var ds' := ds + [Dispatch(h.command, disp(|ds|))];
        if h.next == 0 || off + h.next + HDR_LEN > |frame| then (ds', false)
        else Chain(frame, off + h.next, disp, ds')
  }

  /** The members of a whole frame. */
  function Members(frame: bytes, disp: nat -> Member): seq<Dispatch> { Chain(frame, 0, disp, []).0 }

  function TooLarge(frame: bytes, disp: nat -> Member): bool { Chain(frame, 0, disp, []).1 }

  /** The members that wrote a reply, in order. */
  function Answering(ds: seq<Dispatch>): seq<Dispatch> {
    if ds == [] then []
    else Answering(ds[..|ds| - 1]) + if ds[|ds| - 1].m.reply == [] then [] else [ds[|ds| - 1]]
  }

  function RepliesOf(ds: seq<Dispatch>): (rs: seq<bytes>)
    ensures |rs| == |ds|
  {
    seq(|ds|, i requires 0 <= i < |ds| => ds[i].m.reply)
  }

  /** The last member wrote nothing. */
  predicate Silent(ds: seq<Dispatch>) { ds != [] && ds[|ds| - 1].m.reply == [] }

  predicate Closes(ds: seq<Dispatch>) { exists i :: 0 <= i < |ds| && ds[i].m.close }

  /** The plan handed back last. */
  function PlanOf(ds: seq<Dispatch>): Option<ReadPlan> {
    if ds == [] then None
    else if ds[|ds| - 1].m.plan.Some? then ds[|ds| - 1].m.plan
    else PlanOf(ds[..|ds| - 1])
  }

  function ClosedBy(ds: seq<Dispatch>): seq<int> {
    if ds == [] then [] else ClosedBy(ds[..|ds| - 1]) + ds[|ds| - 1].m.closed
  }

  function DupsBy(ds: seq<Dispatch>): nat {
    if ds == [] then 0 else DupsBy(ds[..|ds| - 1]) + ds[|ds| - 1].m.dups
  }

  /** The key saved with a reply: only LOGOFF's, whose handler removes the channel. */
  function SavedKey(d: Dispatch): Option<nat> { if d.cmd == CMD_LOGOFF then d.m.key else None }

  /** The key a member's reply is signed with: the one its session has now, or LOGOFF's saved one. */
  function SignKey(keyNow: nat -> Option<nat>, encrypted: bool, d: Dispatch): Option<nat> {
    if encrypted then None else if keyNow(d.m.sess).Some? then keyNow(d.m.sess) else SavedKey(d)
  }

  function SignKeys(keyNow: nat -> Option<nat>, encrypted: bool, ds: seq<Dispatch>): (ks: seq<Option<nat>>)
    ensures |ks| == |ds|
  {
    seq(|ds|, i requires 0 <= i < |ds| => SignKey(keyNow, encrypted, ds[i]))
  }


  /** Handlers append fresh replies, and hand back a plan only for a single request, in
      place of a reply. */
  ghost predicate Lawful(disp: nat -> Member, frame: bytes) {
    forall i :: Fresh(disp(i).reply) && (disp(i).plan.Some? ==> disp(i).reply == [] && Single(frame))
  }

  // ------------------------------------------------- what the chain comes to

  /** Where the next request of a chain starts. */
  function NextAt(frame: bytes, off: nat): Option<nat>
    requires off <= |frame|
  {
    match ParseHdr(frame[off..])
    case None => None
    case Some(h) => if h.next == 0 || off + h.next + HDR_LEN > |frame| then None else Some(off + h.next)
  }

  /** Where the chain goes on behind the requests at `offs`. */
  function Onward(frame: bytes, offs: seq<nat>): Option<nat> {
    if offs == [] then Some(0)
    else if offs[|offs| - 1] > |frame| then None
    else NextAt(frame, offs[|offs| - 1])
  }

  /** The member at `off` is not dispatched: no header, too much already, or a link into its own header. */
  predicate Refused(frame: bytes, off: nat, ds: seq<Dispatch>)
    requires off <= |frame|
  {
    var h := ParseHdr(frame[off..]);
    h.None? || Full(ds) || 0 < h.value.next < HDR_LEN
  }

  /** The members `ds` are at `offs`: the first at the start, each other where the link of the one
      before it leads, none of them refused, and the n-th of them handled n-th. */
  ghost predicate Dispatches(frame: bytes, disp: nat -> Member, offs: seq<nat>, ds: seq<Dispatch>) {
    && |offs| == |ds|
    && (ds != [] ==>
          var k := |ds| - 1;
          && Dispatches(frame, disp, offs[..k], ds[..k])
          && offs[k] <= |frame| && Onward(frame, offs[..k]) == Some(offs[k]) && !Refused(frame, offs[k], ds[..k])
          && ds[k] == MemberAt(frame, offs[k], disp, ds[..k]))
  }

  /** The chain ends behind `ds`: no link leads on, or to a member that is refused; it is too large
      exactly when there is a further request for which the frame is full. */
  ghost predicate Ends(frame: bytes, offs: seq<nat>, ds: seq<Dispatch>, over: bool) {
    var next := Onward(frame, offs);
    && (next.Some? ==> next.value <= |frame| && Refused(frame, next.value, ds))
    && (over <==> next.Some? && ParseHdr(frame[next.value..]).Some? && Full(ds))
  }

  /** The member at `off`, dispatched behind `ds`. */
  function MemberAt(frame: bytes, off: nat, disp: nat -> Member, ds: seq<Dispatch>): Dispatch
    requires off <= |frame| && !Refused(frame, off, ds)
  {
    Dispatch(ParseHdr(frame[off..]).value.command, disp(|ds|))
  }

  lemma DispatchesMore(frame: bytes, off: nat, disp: nat -> Member, offs: seq<nat>, ds: seq<Dispatch>)
    requires Dispatches(frame, disp, offs, ds) && Onward(frame, offs) == Some(off) && off <= |frame| && !Refused(frame, off, ds)
    ensures Dispatches(frame, disp, offs + [off], ds + [MemberAt(frame, off, disp, ds)])
    ensures Onward(frame, offs + [off]) == NextAt(frame, off)
  {
    var d := MemberAt(frame, off, disp, ds);
    assert (offs + [off])[..|offs|] == offs && (ds + [d])[..|ds|] == ds;
  }

  /** One step along a chain. */
  lemma ChainStep(frame: bytes, off: nat, disp: nat -> Member, ds: seq<Dispatch>)
    requires off <= |frame|
    ensures Refused(frame, off, ds) ==> Chain(frame, off, disp, ds) == (ds, ParseHdr(frame[off..]).Some? && Full(ds))
    ensures !Refused(frame, off, ds) ==>
              var ds' := ds + [MemberAt(frame, off, disp, ds)];
              match NextAt(frame, off)
              case None => Chain(frame, off, disp, ds) == (ds', false)
              case Some(next) => off < next <= |frame| && Chain(frame, off, disp, ds) == Chain(frame, next, disp, ds')
  {
  }

  lemma {:induction false} ChainRuns(frame: bytes, off: nat, disp: nat -> Member, offs: seq<nat>, ds: seq<Dispatch>)
    returns (offs': seq<nat>)
    requires off <= |frame| && Dispatches(frame, disp, offs, ds) && Onward(frame, offs) == Some(off)
    ensures var (all, over) := Chain(frame, off, disp, ds);
            Dispatches(frame, disp, offs', all) && Ends(frame, offs', all, over)
    decreases |frame| - off
  {
    offs' := offs;
    ChainStep(frame, off, disp, ds);
    if !Refused(frame, off, ds) {
      DispatchesMore(frame, off, disp, offs, ds);
      offs' := offs + [off];
      if NextAt(frame, off).Some? {
        offs' := ChainRuns(frame, NextAt(frame, off).value, disp, offs', ds + [MemberAt(frame, off, disp, ds)]);
      }
    }
  }

  /** A frame dispatches exactly the requests its links reach, in order, until the chain ends. */
  lemma MembersExact(frame: bytes, disp: nat -> Member) returns (offs: seq<nat>)
    ensures Dispatches(frame, disp, offs, Members(frame, disp))
    ensures Ends(frame, offs, Members(frame, disp), TooLarge(frame, disp))
  {
    offs := ChainRuns(frame, 0, disp, [], []);
  }

  /** A single request is one member. */
  lemma SingleOne(frame: bytes, disp: nat -> Member)
    requires Single(frame)
    ensures Members(frame, disp) == [Dispatch(ParseHdr(frame).value.command, disp(0))] && !TooLarge(frame, disp)
  {
    assert frame[0..] == frame;
  }

  /** Every member was handled by `disp`, at most 128 of them, and the replies stay within the cap. */
  lemma {:induction false} ChainBounds(frame: bytes, off: nat, disp: nat -> Member, ds: seq<Dispatch>)
    requires off <= |frame| && Bounded(ds) && forall i :: |disp(i).reply| <= REPLY_MAX
    ensures Bounded(Chain(frame, off, disp, ds).0)
    decreases |frame| - off
  {
    ChainStep(frame, off, disp, ds);
    if !Refused(frame, off, ds) {
      var d := MemberAt(frame, off, disp, ds);
      PadUp(SizeOf(ds));
      assert (ds + [d])[..|ds|] == ds;
      if NextAt(frame, off).Some? {
        ChainBounds(frame, NextAt(frame, off).value, disp, ds + [d]);
      }
    }
  }

  predicate Bounded(ds: seq<Dispatch>) {
    |ds| <= MAX_COMPOUND && SizeOf(ds) < COMPOUND_RESP_CAP + REPLY_MAX + 8
  }

  // ------------------------------------------------------------ the loop

  datatype Run = Run(buf: Buf, plan: Option<ReadPlan>, close: bool, closed: seq<int>, dups: nat)

  /** The records name the members that replied, in order. */
  ghost predicate Named(recs: seq<RespRec>, ds: seq<Dispatch>) {
    && |recs| == |ds|
    && (ds != [] ==>
          var k := |ds| - 1;
          && Named(recs[..k], ds[..k])
          && recs[k].cmd == ds[k].cmd && recs[k].sess == ds[k].m.sess && recs[k].key == SavedKey(ds[k]))
  }

  lemma {:induction false} NamedAt(recs: seq<RespRec>, ds: seq<Dispatch>, i: nat)
    requires Named(recs, ds) && i < |ds|
    ensures |recs| == |ds| && recs[i].cmd == ds[i].cmd && recs[i].sess == ds[i].m.sess && recs[i].key == SavedKey(ds[i])
  {
    var k := |ds| - 1;
    if i < k { NamedAt(recs[..k], ds[..k], i); }
  }

  /** What the loop has gathered once the members `ds` were dispatched behind `pre`. */
  ghost predicate Holds(r: Run, pre: bytes, ds: seq<Dispatch>) {
    LaidOut(r.buf, pre, ds) && |r.buf.tx| == |pre| + SizeOf(ds) && Tallied(r, ds)
  }

  /** The replies of `ds` are laid out behind `pre`, with their records. */
  ghost predicate LaidOut(b: Buf, pre: bytes, ds: seq<Dispatch>) {
    Dispatched(b, pre, RepliesOf(Answering(ds)), Silent(ds)) && Named(b.recs, Answering(ds))
  }

  predicate Tallied(r: Run, ds: seq<Dispatch>) {
    r.plan == PlanOf(ds) && r.close == Closes(ds) && r.closed == ClosedBy(ds) && r.dups == DupsBy(ds)
  }

  lemma AnsweringSnoc(ds: seq<Dispatch>, d: Dispatch)
    ensures var all := ds + [d];
            && Silent(all) == (d.m.reply == [])
            && Answering(all) == (if d.m.reply == [] then Answering(ds) else Answering(ds) + [d])
            && RepliesOf(Answering(all)) == Appended(RepliesOf(Answering(ds)), d.m.reply)
  {
    var all := ds + [d];
    assert all[..|ds|] == ds && all[|ds|] == d;
  }

  lemma Snoc(ds: seq<Dispatch>, d: Dispatch)
    ensures var all := ds + [d];
            && SizeOf(all) == Up8(SizeOf(ds)) + |d.m.reply|
            && PlanOf(all) == (if d.m.plan.Some? then d.m.plan else PlanOf(ds))
            && Closes(all) == (Closes(ds) || d.m.close)
            && ClosedBy(all) == ClosedBy(ds) + d.m.closed && DupsBy(all) == DupsBy(ds) + d.m.dups
  {
    var all := ds + [d];
    assert all[..|ds|] == ds && all[|ds|] == d;
    assert Closes(ds) || d.m.close ==> Closes(all) by {
      if Closes(ds) { var i :| 0 <= i < |ds| && ds[i].m.close; assert all[i] == ds[i]; }
      if d.m.close { assert all[|ds|].m.close; }
    }
  }

  lemma NamedMore(was: seq<RespRec>, now: seq<RespRec>, start: nat, as_: seq<Dispatch>, d: Dispatch)
    requires Named(was, as_) && Noted(was, now, start, d.m.reply, d.cmd, d.m.sess, SavedKey(d))
    ensures Named(now, if d.m.reply == [] then as_ else as_ + [d])
  {
    if d.m.reply != [] { assert now[..|was|] == was && (as_ + [d])[..|as_|] == as_; }
  }

  /** A member's reply was laid out at `start`, behind the replies `rs`. */
  ghost predicate Placed(b: Buf, c: Buf, pre: bytes, rs: seq<bytes>, d: Dispatch, start: nat) {
    && Dispatched(c, pre, Appended(rs, d.m.reply), d.m.reply == [])
    && |c.tx| == start + |d.m.reply|
    && Noted(b.recs, c.recs, start, d.m.reply, d.cmd, d.m.sess, SavedKey(d))
  }

  lemma LaidOutMore(b: Buf, c: Buf, pre: bytes, ds: seq<Dispatch>, d: Dispatch, start: nat)
    requires Named(b.recs, Answering(ds)) && Noted(b.recs, c.recs, start, d.m.reply, d.cmd, d.m.sess, SavedKey(d))
    requires Dispatched(c, pre, Appended(RepliesOf(Answering(ds)), d.m.reply), d.m.reply == [])
    ensures LaidOut(c, pre, ds + [d])
  {
    AnsweringSnoc(ds, d);
    NamedMore(b.recs, c.recs, start, Answering(ds), d);
  }

  /** The tally with another member. */
  function Counted(r: Run, buf: Buf, m: Member): Run {
    Run(buf, if m.plan.Some? then m.plan else r.plan, r.close || m.close, r.closed + m.closed, r.dups + m.dups)
  }

  lemma TalliedMore(r: Run, buf: Buf, ds: seq<Dispatch>, d: Dispatch)
    requires Tallied(r, ds)
    ensures Tallied(Counted(r, buf, d.m), ds + [d])
  {
    Snoc(ds, d);
  }

  lemma SizeMore(ds: seq<Dispatch>, d: Dispatch)
    ensures SizeOf(ds + [d]) == Up8(SizeOf(ds)) + |d.m.reply|
  {
    Snoc(ds, d);
  }

  /** What to do with the request at an offset: stop, give up on a frame that is too large, or
      dispatch a command and go on. */
  datatype Verdict = Stop | Over | Go(cmd: nat, next: Option<nat>)

  /** Following the chain from `at`, behind the members `ds`, comes to the members of the frame. */
  ghost predicate OnTrack(frame: bytes, disp: nat -> Member, at: Option<nat>, ds: seq<Dispatch>, over: bool) {
    && (at.Some? ==> at.value <= |frame|)
    && (if at.Some? then Chain(frame, at.value, disp, ds) else (ds, over)) == (Members(frame, disp), TooLarge(frame, disp))
  }

  // ---------------------------------------------------------- the whole frame

  /** What the server makes of an SMB1 message: not an SMB1 NEGOTIATE, or one that comes too
      late; a refusal of a client that speaks only SMB1; or the wildcard reply. */
  datatype Smb1 = Violation | Refuse(reply: bytes) | Wildcard(reply: bytes)

  predicate IsSmb1(frame: bytes) {
    |frame| >= 4 && frame[..4] == [0xFF, 0x53, 0x4D, 0x42]
  }

  /** What a frame meets: the handlers, the MAC, the signing keys sessions have after them,
      and whether the frame arrived sealed. */
  datatype World = World(disp: nat -> Member, mac: Mac, keyNow: nat -> Option<nat>, encrypted: bool, smb1: Smb1)

  ghost predicate Legal(w: World, frame: bytes) {
    && Lawful(w.disp, frame) && IsMac(w.mac)
    && (w.smb1.Violation? || |w.smb1.reply| <= REPLY_MAX)
  }

  /** Everything a caller sees of one frame: the bytes appended, the action, the descriptors
      closed on the way and how many were duplicated. */
  datatype Done = Done(reply: bytes, action: FrameAction, closed: seq<int>, dups: nat)

  /** An SMB1 message is answered only before SMB2 was negotiated and never inside a seal. */
  function Smb1Done(w: World): Done {
    if w.encrypted then Done([], CloseNow, [], 0)
    else
      match w.smb1
      case Violation => Done([], CloseNow, [], 0)
      case Refuse(r) => Done(NbtPrefix(|r|) + r, RespondClose, [], 0)
      case Wildcard(r) => Done(NbtPrefix(|r|) + r, Respond, [], 0)
  }

  /** The frame that answers the members `ds`. */
  function ReplyTo(w: World, ds: seq<Dispatch>): bytes
    requires forall i :: 0 <= i < |Answering(ds)| ==> |Answering(ds)[i].m.reply| >= HDR_LEN
  {
    FrameOf(w.mac, RepliesOf(Answering(ds)), SignKeys(w.keyNow, w.encrypted, Answering(ds)), Silent(ds))
  }

  /** What one frame of requests comes to. */
  ghost function Plain(frame: bytes, w: World): Done
    requires Legal(w, frame)
  {
    if IsSmb1(frame) then Smb1Done(w)
    else
      var ds := Members(frame, w.disp);
      AnsweringFresh(frame, w.disp);
      if TooLarge(frame, w.disp) || Closes(ds) then Done([], CloseNow, ClosedBy(ds) + PlanFds(PlanOf(ds)), DupsBy(ds))
      else if PlanOf(ds).Some? then Done([], ZcRead(PlanOf(ds).value), ClosedBy(ds), DupsBy(ds))
      else Done(ReplyTo(w, ds), Respond, ClosedBy(ds), DupsBy(ds))
  }

  lemma FreshMore(ds: seq<Dispatch>, d: Dispatch)
    requires Replies(RepliesOf(Answering(ds))) && Fresh(d.m.reply)
    ensures Replies(RepliesOf(Answering(ds + [d])))
  {
    AnsweringSnoc(ds, d);
    AppendedReplies(RepliesOf(Answering(ds)), d.m.reply);
  }

  lemma {:induction false} ChainFresh(frame: bytes, off: nat, disp: nat -> Member, ds: seq<Dispatch>)
    requires off <= |frame| && Lawful(disp, frame) && Replies(RepliesOf(Answering(ds)))
    ensures Replies(RepliesOf(Answering(Chain(frame, off, disp, ds).0)))
    decreases |frame| - off
  {
    ChainStep(frame, off, disp, ds);
    if !Refused(frame, off, ds) {
      var d := MemberAt(frame, off, disp, ds);
      FreshMore(ds, d);
      if NextAt(frame, off).Some? { ChainFresh(frame, NextAt(frame, off).value, disp, ds + [d]); }
    }
  }

  lemma AnsweringFresh(frame: bytes, disp: nat -> Member)
    requires Lawful(disp, frame)
    ensures var rs := RepliesOf(Answering(Members(frame, disp)));
            Replies(rs) && forall i :: 0 <= i < |rs| ==> |Answering(Members(frame, disp))[i].m.reply| >= HDR_LEN
  {
    ChainFresh(frame, 0, disp, []);
    var as_ := Answering(Members(frame, disp));
    assert forall i :: 0 <= i < |as_| ==> RepliesOf(as_)[i] == as_[i].m.reply;
  }

  lemma KeysAgree(recs: seq<RespRec>, ds: seq<Dispatch>, keyNow: nat -> Option<nat>, encrypted: bool)
    requires Named(recs, ds)
    ensures Keys(recs, keyNow, encrypted) == SignKeys(keyNow, encrypted, ds)
  {
    forall i | 0 <= i < |ds| ensures Keys(recs, keyNow, encrypted)[i] == SignKeys(keyNow, encrypted, ds)[i] {
      NamedAt(recs, ds, i);
    }
  }

  lemma PlainIs(frame: bytes, w: World)
    requires Legal(w, frame) && !IsSmb1(frame)
    ensures var ds := Members(frame, w.disp);
            && Replies(RepliesOf(Answering(ds))) && (forall i :: 0 <= i < |Answering(ds)| ==> |Answering(ds)[i].m.reply| >= HDR_LEN)
            && Bounded(ds)
            && (TooLarge(frame, w.disp) || Closes(ds) ==>
                  Plain(frame, w) == Done([], CloseNow, ClosedBy(ds) + PlanFds(PlanOf(ds)), DupsBy(ds)))
            && (!(TooLarge(frame, w.disp) || Closes(ds)) && PlanOf(ds).Some? ==>
                  Plain(frame, w) == Done([], ZcRead(PlanOf(ds).value), ClosedBy(ds), DupsBy(ds)))
            && (!(TooLarge(frame, w.disp) || Closes(ds)) && PlanOf(ds).None? ==>
                  Plain(frame, w) == Done(ReplyTo(w, ds), Respond, ClosedBy(ds), DupsBy(ds)))
  {
    AnsweringFresh(frame, w.disp);
    ChainBounds(frame, 0, w.disp, []);
  }

  // ------------------------------------------------------ what a client sees

  /** What a frame adds is nothing or one whole frame, of bounded size, and nothing beside a close
      or a zero-copy READ. Only a single request is answered by a zero-copy READ. */
  lemma PlainFramed(frame: bytes, w: World)
    requires Legal(w, frame)
    ensures var d := Plain(frame, w);
            && (d.reply == [] || Framed(d.reply)) && |d.reply| < COMPOUND_RESP_CAP + REPLY_MAX + 12
            && (d.action.CloseNow? || d.action.ZcRead? ==> d.reply == [])
            && (d.action.ZcRead? ==> Single(frame) && w.disp(0).plan == Some(d.action.plan))
  {
    if IsSmb1(frame) {
      if !w.smb1.Violation? { FramedIff(w.smb1.reply); }
    } else {
      PlainIs(frame, w);
      var ds := Members(frame, w.disp);
      PlanSingle(frame, w.disp);
      if PlanOf(ds).None? && !(TooLarge(frame, w.disp) || Closes(ds)) {
        ReplyFramed(w, ds);
      }
    }
  }

  lemma ReplyFramed(w: World, ds: seq<Dispatch>)
    requires IsMac(w.mac) && Bounded(ds) && Replies(RepliesOf(Answering(ds)))
    requires forall i :: 0 <= i < |Answering(ds)| ==> |Answering(ds)[i].m.reply| >= HDR_LEN
    ensures var r := ReplyTo(w, ds);
            (r == [] <==> Answering(ds) == []) && (r != [] ==> Framed(r)) && |r| < COMPOUND_RESP_CAP + REPLY_MAX + 12
  {
    var rs, keys := RepliesOf(Answering(ds)), SignKeys(w.keyNow, w.encrypted, Answering(ds));
    SizeExact(ds);
    FinishExact([], w.mac, rs, keys, Silent(ds), [] + Zeros(4) + Flatten(Answer(w.mac, rs, keys, Silent(ds))),
                [] + Zeros(4) + Flatten(Cells(rs, Silent(ds))));
  }

  /** The bytes counted are the bytes laid out. */
  lemma {:induction false} SizeExact(ds: seq<Dispatch>)
    requires Replies(RepliesOf(Answering(ds)))
    ensures |Flatten(Cells(RepliesOf(Answering(ds)), Silent(ds)))| == SizeOf(ds)
  {
    if ds != [] {
      var k := |ds| - 1;
      var init, d := ds[..k], ds[k];
      assert ds == init + [d];
      AnsweringSnoc(init, d);
      var rs := RepliesOf(Answering(init));
      AppendedInit(rs, d.m.reply);
      SizeExact(init);
      AppendedSize(rs, Silent(init), d.m.reply);
    }
  }

  lemma AppendedSize(rs: seq<bytes>, silent: bool, reply: bytes)
    requires Replies(rs) && (reply != [] ==> |reply| >= HDR_LEN && Fresh(reply)) && Replies(Appended(rs, reply))
    ensures |Flatten(Cells(Appended(rs, reply), reply == []))| == Up8(|Flatten(Cells(rs, silent))|) + |reply|
  {
    LinkedSize(rs, silent);
    if reply != [] {
      SnocCells(rs, reply);
      FlattenSnoc(Cells(rs, true), reply);
    }
  }

  lemma AppendedInit(rs: seq<bytes>, reply: bytes)
    requires Replies(Appended(rs, reply))
    ensures Replies(rs) && (reply != [] ==> |reply| >= HDR_LEN && Fresh(reply))
  {
    assert reply != [] ==> Appended(rs, reply)[|rs|] == reply;
    assert forall i :: 0 <= i < |rs| ==> Appended(rs, reply)[i] == rs[i];
  }

  lemma LinkedSize(rs: seq<bytes>, silent: bool)
    requires Replies(rs)
    ensures |Flatten(Cells(rs, true))| == Up8(|Flatten(Cells(rs, silent))|)
  {
    if rs == [] {
    } else {
      var k := |rs| - 1;
      var cs, ls := Cells(rs, silent), Cells(rs, true);
      SameInit(rs, silent);
      FlatAligned(ls[..k]);
      LastSize(|Flatten(ls[..k])|, rs[k], silent);
    }
  }

  lemma LastSize(a: nat, r: bytes, silent: bool)
    requires a % 8 == 0 && |r| >= HDR_LEN
    ensures a + |Link(r)| == Up8(a + |if silent then Link(r) else r|)
  {
    PadSame(a, |r|);
    PadSame(a, |Link(r)|);
    PadUp(|Link(r)|);
  }

  /** A plan comes from the only request of its frame. */
  lemma PlanSingle(frame: bytes, disp: nat -> Member)
    requires Lawful(disp, frame)
    ensures PlanOf(Members(frame, disp)).Some? ==>
              && Single(frame) && |Members(frame, disp)| == 1 && !TooLarge(frame, disp)
              && PlanOf(Members(frame, disp)) == disp(0).plan
  {
    if PlanOf(Members(frame, disp)).Some? {
      var offs := MembersExact(frame, disp);
      SomePlan(frame, disp, offs, Members(frame, disp));
      SingleOne(frame, disp);
    }
  }

  lemma {:induction false} SomePlan(frame: bytes, disp: nat -> Member, offs: seq<nat>, ds: seq<Dispatch>)
    requires Lawful(disp, frame) && Dispatches(frame, disp, offs, ds) && PlanOf(ds).Some?
    ensures Single(frame)
  {
    var k := |ds| - 1;
    if ds[k].m.plan.None? { SomePlan(frame, disp, offs[..k], ds[..k]); }
  }

  /** `c` carries the reply `r`: only NextCommand, the flags and the signature may differ, and
      padding may follow. */
  predicate Carries(c: bytes, r: bytes) {
    && HDR_LEN <= |r| <= |c| < |r| + 8
    && c[..16] == r[..16] && c[24..48] == r[24..48] && c[64..|r|] == r[64..]
  }

  lemma CellCarries(mac: Mac, r: bytes, linked: bool, key: Option<nat>)
    requires IsMac(mac) && Fresh(r) && r != []
    ensures Carries(SignedIf(mac, key, if linked then Link(r) else r), r)
  {
    var c := if linked then Link(r) else r;
    PadUp(|r|);
    var p := r + Zeros(Pad8(|r|));
    assert linked ==> c[..16] == p[..16] && c[24..48] == p[24..48] && c[64..|r|] == p[64..|r|];
    assert p[..16] == r[..16] && p[24..48] == r[24..48] && p[64..|r|] == r[64..];
    if key.Some? { SignedCarries(mac, key.value, c, |r|); }
  }

  lemma SignedCarries(mac: Mac, key: nat, c: bytes, n: nat)
    requires IsMac(mac) && HDR_LEN <= n <= |c|
    ensures var s := Signed(mac, key, c);
            |s| == |c| && s[..16] == c[..16] && s[24..48] == c[24..48] && s[64..n] == c[64..n]
  {
    var d := Flagged(c);
    assert |mac(key, d)| == 16;
    assert d[..16] == c[..16] && d[24..48] == c[24..48] && d[64..] == c[64..];
    var s := Signed(mac, key, c);
    assert s[..48] == d[..48] && s[64..] == d[64..];
    assert s[..16] == s[..48][..16] && s[24..48] == s[..48][24..] && s[64..n] == s[64..][..n - 64];
    assert d[..16] == d[..48][..16] && d[24..48] == d[..48][24..] && c[64..n] == c[64..][..n - 64];
  }

  /** The answer to the members `ds` as the messages `cs`: one for each member that wrote a reply,
      carrying it, verifying over its own range under the key of its session, and starting on a
      multiple of eight. */
  ghost predicate Answers(w: World, ds: seq<Dispatch>, cs: seq<bytes>) {
    && |cs| == |Answering(ds)|
    && forall i :: 0 <= i < |cs| ==>
         var d, key := Answering(ds)[i], SignKey(w.keyNow, w.encrypted, Answering(ds)[i]);
         && Carries(cs[i], d.m.reply) && (key.Some? ==> Verifies(w.mac, key.value, cs[i]))
         && |Flatten(cs[..i])| % 8 == 0
  }

  lemma AnswersAt(w: World, ds: seq<Dispatch>, i: nat)
    requires IsMac(w.mac) && Replies(RepliesOf(Answering(ds))) && i < |Answering(ds)|
    requires forall i :: 0 <= i < |Answering(ds)| ==> |Answering(ds)[i].m.reply| >= HDR_LEN
    ensures var c := Answer(w.mac, RepliesOf(Answering(ds)), SignKeys(w.keyNow, w.encrypted, Answering(ds)), Silent(ds))[i];
            var d, key := Answering(ds)[i], SignKey(w.keyNow, w.encrypted, Answering(ds)[i]);
            && Carries(c, d.m.reply) && (key.Some? ==> Verifies(w.mac, key.value, c))
            && (if i < |Answering(ds)| - 1 || Silent(ds) then Linked(c) else Last(c))
  {
    var rs, keys := RepliesOf(Answering(ds)), SignKeys(w.keyNow, w.encrypted, Answering(ds));
    AnswerVerifies(w.mac, rs, keys, Silent(ds), i);
    CellCarries(w.mac, rs[i], i < |rs| - 1 || Silent(ds), keys[i]);
  }

  /** What a frame is answered with, member by member. NextCommand walks exactly the messages of
      the answer, ending at zero, if and only if the last member dispatched wrote a reply. */
  lemma PlainAnswers(frame: bytes, w: World) returns (cs: seq<bytes>)
    requires Legal(w, frame) && !IsSmb1(frame) && Plain(frame, w).action.Respond?
    ensures var ds, r := Members(frame, w.disp), Plain(frame, w).reply;
            && Answers(w, ds, cs) && (cs == [] <==> r == [])
            && (cs != [] ==> r == NbtPrefix(|Flatten(cs)|) + Flatten(cs) && (Walk(r[4..]) == Some(cs) <==> !Silent(ds)))
            && (cs != [] && Silent(ds) ==> Walk(r[4..]) == None)
  {
    PlainIs(frame, w);
    var ds := Members(frame, w.disp);
    var rs, keys := RepliesOf(Answering(ds)), SignKeys(w.keyNow, w.encrypted, Answering(ds));
    cs := Answer(w.mac, rs, keys, Silent(ds));
    forall i | 0 <= i < |cs| ensures if i < |cs| - 1 || Silent(ds) then Linked(cs[i]) else Last(cs[i]) {
      AnswersAt(w, ds, i);
    }
    assert Chained(cs, Silent(ds));
    AnswersAll(w, ds, cs);
    if cs != [] {
      WalkExact(cs, Silent(ds));
      var r := Plain(frame, w).reply;
      assert r[4..] == Flatten(cs);
    }
  }

  lemma AnswersAll(w: World, ds: seq<Dispatch>, cs: seq<bytes>)
    requires IsMac(w.mac) && Replies(RepliesOf(Answering(ds))) && Chained(cs, Silent(ds))
    requires forall i :: 0 <= i < |Answering(ds)| ==> |Answering(ds)[i].m.reply| >= HDR_LEN
    requires cs == Answer(w.mac, RepliesOf(Answering(ds)), SignKeys(w.keyNow, w.encrypted, Answering(ds)), Silent(ds))
    ensures Answers(w, ds, cs)
  {
    forall i | 0 <= i < |cs|
      ensures var d, key := Answering(ds)[i], SignKey(w.keyNow, w.encrypted, Answering(ds)[i]);
              && Carries(cs[i], d.m.reply) && (key.Some? ==> Verifies(w.mac, key.value, cs[i]))
              && |Flatten(cs[..i])| % 8 == 0
    {
      AnswersAt(w, ds, i);
      StartsAligned(cs, Silent(ds), i);
    }
  }

  // -------------------------------------------------------------- an example

  /** A request header with nothing but a command and a link. */
  function Request(cmd: nat, next: nat): (b: bytes)
    ensures |b| == HDR_LEN
  {
    PROTOCOL_ID + Le(64, 2) + Zeros(6) + Le(cmd, 2) + Zeros(6) + Le(next, 4) + Zeros(40)
  }

  lemma RequestParses(cmd: nat, next: nat, rest: bytes)
    requires cmd < 0x1_0000 && next < 0x1_0000_0000
    ensures ParseHdr(Request(cmd, next) + rest) == Some(Hdr(cmd, next))
  {
    var b := Request(cmd, next) + rest;
    assert b[..4] == PROTOCOL_ID && b[4..6] == Le(64, 2) && b[12..14] == Le(cmd, 2) && b[20..24] == Le(next, 4);
    PowWidths();
    LeRoundTrip(64, 2);
    LeRoundTrip(cmd, 2);
    LeRoundTrip(next, 4);
  }

  /** An ECHO, padded to eight bytes, and a CANCEL. */
  function EchoCancel(): bytes {
    Request(CMD_ECHO, 72) + (Le(4, 2) + Zeros(6)) + (Request(CMD_CANCEL, 0) + (Le(4, 2) + Zeros(2)))
  }

  /** The reply to an ECHO that is followed by a CANCEL, which has none, points past the end of the
      frame: a client that follows it finds nothing there. */
  lemma DanglingExample(w: World)
    requires Legal(w, EchoCancel()) && w.disp(0).plan.None? && w.disp(1).plan.None? && !w.disp(0).close && !w.disp(1).close
    requires |w.disp(0).reply| == 68 && w.disp(1).reply == []
    ensures var d := Plain(EchoCancel(), w); d.action.Respond? && Framed(d.reply) && Walk(d.reply[4..]) == None
  {
    var f := EchoCancel();
    EchoCancelMembers(w);
    var ds := Members(f, w.disp);
    assert f[..4] == PROTOCOL_ID;
    assert PlanOf(ds[..1]).None? by { assert ds[..1][..0] == []; }
    assert Answering(ds) == [ds[0]] by { assert ds[..1] == [ds[0]] && Answering([ds[0]][..0]) == []; }
    PlainFramed(f, w);
    var cs := PlainAnswers(f, w);
  }

  lemma EchoCancelParses()
    ensures var f := EchoCancel();
            && |f| == 140 && !IsSmb1(f)
            && ParseHdr(f[0..]) == Some(Hdr(CMD_ECHO, 72)) && ParseHdr(f[72..]) == Some(Hdr(CMD_CANCEL, 0))
  {
    var f, mid, tail := EchoCancel(), Le(4, 2) + Zeros(6), Request(CMD_CANCEL, 0) + (Le(4, 2) + Zeros(2));
    RequestParses(CMD_ECHO, 72, mid + tail);
    RequestParses(CMD_CANCEL, 0, Le(4, 2) + Zeros(2));
    Assoc(Request(CMD_ECHO, 72), mid, tail);
    assert f[0..] == f && f[72..] == tail && f[..4] == PROTOCOL_ID;
  }

  lemma EchoCancelMembers(w: World)
    requires |w.disp(0).reply| == 68
    ensures var f := EchoCancel();
            && Members(f, w.disp) == [Dispatch(CMD_ECHO, w.disp(0)), Dispatch(CMD_CANCEL, w.disp(1))]
            && !TooLarge(f, w.disp) && !IsSmb1(f)
  {
    var f := EchoCancel();
    EchoCancelParses();
    var d := Dispatch(CMD_ECHO, w.disp(0));
    assert SizeOf([d]) == 68 by { assert [d][..0] == []; }
    ChainStep(f, 0, w.disp, []);
    ChainStep(f, 72, w.disp, [d]);
  }

  // ------------------------------------------------------------- descriptors

  /** Each member closed the READ descriptors it duplicated, once each, or handed one back with a
      plan; `serial` descriptors were duplicated before. */
  ghost predicate Owned(ds: seq<Dispatch>, serial: nat) {
    ds != [] ==>
      var k := |ds| - 1;
      && Owned(ds[..k], serial)
      && EachOnce(ds[k].m.closed + PlanFds(ds[k].m.plan), serial + DupsBy(ds[..k]), ds[k].m.dups)
  }

  lemma OnceMore(a: seq<int>, b: seq<int>, s: nat, m: nat, n: nat)
    requires EachOnce(a, s, m) && EachOnce(b, s + m, n)
    ensures EachOnce(a + b, s, m + n)
  {
    forall i, j | 0 <= i < j < |a + b| ensures (a + b)[i] != (a + b)[j] {
      if i < |a| <= j { assert a[i] in a && b[j - |a|] in b; }
    }
  }

  lemma {:induction false} NoPlans(ds: seq<Dispatch>, serial: nat)
    requires Owned(ds, serial) && PlanOf(ds).None?
    ensures EachOnce(ClosedBy(ds), serial, DupsBy(ds))
  {
    if ds != [] {
      var k := |ds| - 1;
      NoPlans(ds[..k], serial);
      assert ds[k].m.closed + PlanFds(ds[k].m.plan) == ds[k].m.closed;
      OnceMore(ClosedBy(ds[..k]), ds[k].m.closed, serial, DupsBy(ds[..k]), ds[k].m.dups);
    }
  }

  /** Whatever becomes of a frame, every descriptor duplicated for it is closed exactly once or
      leaves with the plan. */
  lemma PlainFds(frame: bytes, w: World, serial: nat)
    requires Legal(w, frame) && Owned(Members(frame, w.disp), serial)
    ensures var d := Plain(frame, w); EachOnce(d.closed + PlanFds(ActionPlan(d.action)), serial, d.dups)
  {
    if !IsSmb1(frame) {
      PlanSingle(frame, w.disp);
      MemberFds(Members(frame, w.disp), serial);
      PlainTally(frame, w);
    }
  }

  /** A plan holds its descriptor, and so does a frame that was dropped. */
  lemma PlainTally(frame: bytes, w: World)
    requires Legal(w, frame) && !IsSmb1(frame)
    ensures var d, ds := Plain(frame, w), Members(frame, w.disp);
            d.dups == DupsBy(ds) && d.closed + PlanFds(ActionPlan(d.action)) == ClosedBy(ds) + PlanFds(PlanOf(ds))
  {
    var ds := Members(frame, w.disp);
    assert ClosedBy(ds) + PlanFds(PlanOf(ds)) + [] == ClosedBy(ds) + PlanFds(PlanOf(ds));
  }

  lemma MemberFds(ds: seq<Dispatch>, serial: nat)
    requires Owned(ds, serial) && (PlanOf(ds).Some? ==> |ds| == 1)
    ensures EachOnce(ClosedBy(ds) + PlanFds(PlanOf(ds)), serial, DupsBy(ds))
  {
    if PlanOf(ds).None? {
      NoPlans(ds, serial);
      assert ClosedBy(ds) + [] == ClosedBy(ds);
    } else {
      assert ds[..0] == [] && ClosedBy(ds) == [] + ds[0].m.closed == ds[0].m.closed;
    }
  }
}
