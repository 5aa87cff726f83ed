/** Cross-worker delivery of lease breaks (src/lease.rs Mailbox, src/uring.rs
    on_wake and deliver_break) as a state machine over its atomic steps: taking
    the table lock, pushing onto a mailbox, signalling its eventfd, the wakeup
    read completing, draining, delivering and re-arming, interleaved with
    connections coming and going.
 */
module BreakDelivery {
  import opened Wire
  import opened Lease
  import opened Generation

  type SlotId = (nat, nat)  // worker, slot index

  /** The generation of a slot's occupant after `n` recycles. */
  function GenOf(n: nat): nat { After(1, n, BITS16) }

  /** `Taken`: the connection has been moved out for teardown, its grants not yet released. */
  datatype Phase = Empty | Live | Closing | Taken

  datatype Slot = Slot(recycled: nat, phase: Phase)

  /** The worker's wakeup read: posted, completed, or being served. */
  datatype Wake = Armed | Fired | Draining(left: seq<BreakMsg>)

  /** A mailbox: its queue, eventfd counter, posters between push and signal, and
      the owning worker's wakeup read. */
  datatype Box = Box(queue: seq<BreakMsg>, counter: nat, posters: nat, wake: Wake) {
    function Carried(): multiset<BreakMsg> {
      multiset(queue) + (if wake.Draining? then multiset(wake.left) else multiset{})
    }

    /** No lost wakeup. */
    predicate WillWake() {
      queue != [] ==> counter > 0 || posters > 0 || wake.Fired?
    }
  }

  /** `hand`: messages made but not yet pushed. `issued`, `delivered`, `discarded`:
      histories. `reached`: for each delivery, the recycle count of the slot then. */
  datatype Net = Net(
    table: Table, slots: map<SlotId, Slot>, boxes: seq<Box>, hand: multiset<BreakMsg>,
    issued: multiset<BreakMsg>, delivered: multiset<BreakMsg>, discarded: multiset<BreakMsg>,
    reached: set<(BreakMsg, nat)>)

  datatype Step =
    | DoGrant(k: FileKey, g: Grant)
    | DoBreak(k: FileKey, writer: Option<LeaseKey>)
    | DoRelease(k: FileKey, lk: LeaseKey)
    | Push(m: BreakMsg)
    | Signal(w: nat)
    | ReadDone(w: nat, clear: bool)
    | Drain(w: nat)
    | Deliver(w: nat)
    | Rearm(w: nat)
    | Accept(id: SlotId)
    | BeginClose(id: SlotId)
    | Take(id: SlotId)
    | ReleaseConn(id: SlotId)

  function Addressee(m: BreakMsg): SlotId { (m.wid, m.connIdx) }

  /** The delivery guard: the slot is occupied, its generation matches and it is not closing. */
  predicate Deliverable(s: Net, m: BreakMsg) {
    && Addressee(m) in s.slots
    && s.slots[Addressee(m)].phase.Live?
    && GenOf(s.slots[Addressee(m)].recycled) == m.connGen
  }

  predicate Enabled(s: Net, st: Step) {
    match st
    case DoGrant(_, g) =>
      && (g.wid, g.connIdx) in s.slots && s.slots[(g.wid, g.connIdx)] == Slot(g.born, Live)
      && g.connGen == GenOf(g.born) && g.wid < |s.boxes|
    case DoBreak(_, _) => true
    case DoRelease(_, _) => true
    case Push(m) => m in s.hand && m.wid < |s.boxes|
    case Signal(w) => w < |s.boxes| && s.boxes[w].posters > 0
    // an error completion need not clear the counter
    case ReadDone(w, clear) => w < |s.boxes| && s.boxes[w].wake.Armed? && (clear ==> s.boxes[w].counter > 0)
    case Drain(w) => w < |s.boxes| && s.boxes[w].wake.Fired?
    case Deliver(w) => w < |s.boxes| && s.boxes[w].wake.Draining? && s.boxes[w].wake.left != []
    case Rearm(w) => w < |s.boxes| && s.boxes[w].wake == Draining([])
    case Accept(id) => id.0 < |s.boxes| && (id in s.slots ==> s.slots[id].phase.Empty?)
    case BeginClose(id) => id in s.slots && s.slots[id].phase.Live?
    case Take(id) => id in s.slots && s.slots[id].phase.Closing?
    case ReleaseConn(id) => id in s.slots && s.slots[id].phase.Taken?
  }

  function Delivering(s: Net, w: nat): Net
    requires w < |s.boxes| && s.boxes[w].wake.Draining? && s.boxes[w].wake.left != []
  {
    var b := s.boxes[w];
    var m := b.wake.left[0];
    var s' := s.(boxes := s.boxes[w := b.(wake := Draining(b.wake.left[1..]))]);
    if Deliverable(s, m) then
      s'.(delivered := s.delivered + multiset{m}, reached := s.reached + {(m, s.slots[Addressee(m)].recycled)})
    else s'.(discarded := s.discarded + multiset{m})
  }

  function Do(s: Net, st: Step): Net
    requires Enabled(s, st) && WellFormed(s.table)
  {
    match st
    case DoGrant(k, g) => s.(table := Store(s.table, k, Put(Grants(s.table, k), g)))
    case DoBreak(k, writer) =>
      var v, rule := Grants(s.table, k), Exempting(writer);
      var out := multiset(Messages(Dropped(v, rule)));
      s.(table := Store(s.table, k, Kept(v, rule)), hand := s.hand + out, issued := s.issued + out)
    case DoRelease(k, lk) => s.(table := Store(s.table, k, Kept(Grants(s.table, k), Releasing(lk))))
    case Push(m) =>
      var b := s.boxes[m.wid];
      s.(hand := s.hand - multiset{m},
         boxes := s.boxes[m.wid := b.(queue := b.queue + [m], posters := b.posters + 1)])
    case Signal(w) =>
      // a full counter stays as it is, and is not zero
      var b := s.boxes[w];
      s.(boxes := s.boxes[w := b.(posters := b.posters - 1, counter := Min(b.counter + 1, 0xFFFF_FFFF_FFFF_FFFE))])
    case ReadDone(w, clear) =>
      var b := s.boxes[w];
      s.(boxes := s.boxes[w := b.(wake := Fired, counter := if clear then 0 else b.counter)])
    case Drain(w) =>
      var b := s.boxes[w];
      s.(boxes := s.boxes[w := b.(queue := [], wake := Draining(b.queue))])
    case Deliver(w) => Delivering(s, w)
    case Rearm(w) => s.(boxes := s.boxes[w := s.boxes[w].(wake := Armed)])
    case Accept(id) => s.(slots := s.slots[id := if id in s.slots then s.slots[id].(phase := Live) else Slot(0, Live)])
    case BeginClose(id) => s.(slots := s.slots[id := s.slots[id].(phase := Closing)])
    case Take(id) => s.(slots := s.slots[id := s.slots[id].(phase := Taken)])
    case ReleaseConn(id) =>
      var n := s.slots[id].recycled;
      s.(table := Sweep(s.table, Leaving(id.0, id.1, GenOf(n))), slots := s.slots[id := Slot(n + 1, Empty)])
  }

  // ------------------------------------------------------ the invariant

  /** How many copies of `m` the mailboxes and their drains carry. */
  function CountIn(bs: seq<Box>, m: BreakMsg): nat {
    if bs == [] then 0 else CountIn(bs[..|bs| - 1], m) + bs[|bs| - 1].Carried()[m]
  }

  lemma {:induction false} CountUpdate(bs: seq<Box>, i: nat, b: Box, m: BreakMsg)
    requires i < |bs|
    ensures CountIn(bs[i := b], m) == CountIn(bs, m) - bs[i].Carried()[m] + b.Carried()[m]
  {
    var k := |bs| - 1;
    if i < k {
      assert bs[i := b][..k] == bs[..k][i := b];
      CountUpdate(bs[..k], i, b, m);
    } else {
      assert bs[i := b][..k] == bs[..k];
    }
  }

  /** The grant's holder occupies its slot (possibly on its way out). */
  predicate HolderPresent(s: Net, g: Grant) {
    && (g.wid, g.connIdx) in s.slots
    && s.slots[(g.wid, g.connIdx)].recycled == g.born && !s.slots[(g.wid, g.connIdx)].phase.Empty?
    && g.connGen == GenOf(g.born) && g.wid < |s.boxes|
  }

  /** The message names a connection that occupies or used to occupy its slot. */
  predicate Addressed(s: Net, m: BreakMsg) {
    && Addressee(m) in s.slots && m.connGen == GenOf(m.born) && m.wid < |s.boxes|
    && (m.born < s.slots[Addressee(m)].recycled
        || (m.born == s.slots[Addressee(m)].recycled && !s.slots[Addressee(m)].phase.Empty?))
  }

  /** The connection a message was meant for has closed or is closing. */
  predicate HolderGone(s: Net, m: BreakMsg) {
    && Addressee(m) in s.slots
    && (m.born == s.slots[Addressee(m)].recycled ==> !s.slots[Addressee(m)].phase.Live?)
  }

  ghost predicate TableInv(s: Net) {
    WellFormed(s.table) && forall k, g :: k in s.table && g in s.table[k] ==> HolderPresent(s, g)
  }

  ghost predicate MsgInv(s: Net) {
    && (forall m :: m in s.issued ==> Addressed(s, m))
    && (forall m :: m in s.discarded ==> HolderGone(s, m))
    && (forall m :: m in s.delivered ==> exists n :: (m, n) in s.reached)
    && (forall m, n :: (m, n) in s.reached ==> m in s.issued && m.born <= n && GenOf(n) == m.connGen)
    && (forall w, m :: 0 <= w < |s.boxes| && m in s.boxes[w].Carried() ==> m.wid == w)
  }

  /** Every message made is in exactly one place. */
  ghost predicate Conserved(s: Net) {
    forall m :: s.issued[m] == s.hand[m] + CountIn(s.boxes, m) + s.delivered[m] + s.discarded[m]
  }

  ghost predicate WakeInv(s: Net) {
    forall w :: 0 <= w < |s.boxes| ==> s.boxes[w].WillWake()
  }

  ghost predicate Inv(s: Net) {
    TableInv(s) && MsgInv(s) && Conserved(s) && WakeInv(s)
  }

  // ------------------------------------------------- one step keeps it

  lemma TableKept(s: Net, st: Step)
    requires TableInv(s) && Enabled(s, st)
    ensures TableInv(Do(s, st))
  {
    match st
    case DoGrant(k, g) => RewriteKept(s, Do(s, st), k, Put(Grants(s.table, k), g));
    case DoBreak(k, writer) =>
      KeptDistinct(Grants(s.table, k), Exempting(writer));
      RewriteKept(s, Do(s, st), k, Kept(Grants(s.table, k), Exempting(writer)));
    case DoRelease(k, lk) =>
      KeptDistinct(Grants(s.table, k), Releasing(lk));
      RewriteKept(s, Do(s, st), k, Kept(Grants(s.table, k), Releasing(lk)));
    case ReleaseConn(id) => LeavingClears(s, id);
    case _ => SlotsKept(s, Do(s, st));
  }

  lemma RewriteKept(s: Net, s': Net, k: FileKey, v: seq<Grant>)
    requires TableInv(s) && DistinctKeys(v) && forall g :: g in v ==> HolderPresent(s, g)
    requires s'.table == Store(s.table, k, v) && s'.slots == s.slots && |s'.boxes| == |s.boxes|
    ensures TableInv(s')
  {
    var t := s'.table;
    forall k', g | k' in t && g in t[k'] ensures HolderPresent(s', g) {
      if k' != k {
        assert Grants(t, k') == Grants(s.table, k');
      }
      assert HolderPresent(s, g);
    }
  }

  /** Connections coming and going, short of release, leave every holder in its slot. */
  lemma SlotsKept(s: Net, s': Net)
    requires TableInv(s) && s'.table == s.table && |s'.boxes| == |s.boxes|
    requires forall id :: id in s.slots && !s.slots[id].phase.Empty? ==>
               id in s'.slots && s'.slots[id].recycled == s.slots[id].recycled && !s'.slots[id].phase.Empty?
    ensures TableInv(s')
  {
    forall k, g | k in s'.table && g in s'.table[k] ensures HolderPresent(s', g) {
      assert HolderPresent(s, g);
    }
  }

  /** Releasing a connection's leases by its generation removes all of them: the
      only grants naming the slot belong to its present occupant. */
  lemma LeavingClears(s: Net, id: SlotId)
    requires TableInv(s) && Enabled(s, ReleaseConn(id))
    ensures var s' := Do(s, ReleaseConn(id));
            TableInv(s') && forall k, g :: k in s'.table && g in s'.table[k] ==> (g.wid, g.connIdx) != id
  {
    var rule := Leaving(id.0, id.1, GenOf(s.slots[id].recycled));
    SweepWellFormed(s.table, rule);
    var t := Sweep(s.table, rule);
    forall k, g | k in t && g in t[k] ensures HolderPresent(Do(s, ReleaseConn(id)), g) && (g.wid, g.connIdx) != id {
      assert g in s.table[k] && rule.Keeps(g) && HolderPresent(s, g);
    }
  }

  /** Copies of `m` outside the mailboxes. */
  function Outside(s: Net, m: BreakMsg): nat {
    s.hand[m] + s.delivered[m] + s.discarded[m]
  }

  /** A step that changes one mailbox keeps the books if the mailbox gains what the rest loses. */
  lemma Rebalanced(s: Net, s': Net, w: nat)
    requires Conserved(s) && w < |s.boxes| && |s'.boxes| == |s.boxes| && s'.boxes == s.boxes[w := s'.boxes[w]]
    requires s'.issued == s.issued
    requires forall m :: Outside(s', m) + s'.boxes[w].Carried()[m] == Outside(s, m) + s.boxes[w].Carried()[m]
    ensures Conserved(s')
  {
    forall m ensures s'.issued[m] == s'.hand[m] + CountIn(s'.boxes, m) + s'.delivered[m] + s'.discarded[m] {
      CountUpdate(s.boxes, w, s'.boxes[w], m);
      assert Outside(s', m) + s'.boxes[w].Carried()[m] == Outside(s, m) + s.boxes[w].Carried()[m];
    }
  }

  /** Every step moves messages without losing or copying any. */
  lemma ConservedKept(s: Net, st: Step)
    requires Conserved(s) && WellFormed(s.table) && Enabled(s, st)
    ensures Conserved(Do(s, st))
  {
    match st
    case Push(m) => Rebalanced(s, Do(s, st), m.wid);
    case Signal(w) => WorkerConserved(s, st, w);
    case ReadDone(w, _) => WorkerConserved(s, st, w);
    case Drain(w) => WorkerConserved(s, st, w);
    case Rearm(w) => WorkerConserved(s, st, w);
    case Deliver(w) => DeliverConserved(s, w);
    case _ =>
  }

  lemma WorkerConserved(s: Net, st: Step, w: nat)
    requires Conserved(s) && WellFormed(s.table) && Enabled(s, st)
    requires st == Signal(w) || st == Drain(w) || st == Rearm(w) || (st.ReadDone? && st.w == w)
    ensures Conserved(Do(s, st))
  {
    assert Do(s, st).boxes[w].Carried() == s.boxes[w].Carried();
    Rebalanced(s, Do(s, st), w);
  }

  lemma DeliverConserved(s: Net, w: nat)
    requires Conserved(s) && WellFormed(s.table) && Enabled(s, Deliver(w))
    ensures Conserved(Do(s, Deliver(w)))
  {
    var l := s.boxes[w].wake.left;
    assert l == [l[0]] + l[1..];
    Rebalanced(s, Do(s, Deliver(w)), w);
  }

  /** No step loses a wakeup. */
  lemma WakeKept(s: Net, st: Step)
    requires WakeInv(s) && WellFormed(s.table) && Enabled(s, st)
    ensures WakeInv(Do(s, st))
  {
    match st
    case Push(m) => BoxWakes(s, st, m.wid);
    case Signal(w) => BoxWakes(s, st, w);
    case ReadDone(w, _) => BoxWakes(s, st, w);
    case Drain(w) => BoxWakes(s, st, w);
    case Rearm(w) => BoxWakes(s, st, w);
    case Deliver(w) => assert Do(s, st).boxes == s.boxes[w := Do(s, st).boxes[w]];
    case _ => assert Do(s, st).boxes == s.boxes;
  }

  lemma BoxWakes(s: Net, st: Step, w: nat)
    requires WakeInv(s) && WellFormed(s.table) && Enabled(s, st)
    requires st == Signal(w) || st == Drain(w) || st == Rearm(w) || (st.ReadDone? && st.w == w) || (st.Push? && st.m.wid == w)
    ensures WakeInv(Do(s, st))
  {
    var b := Do(s, st).boxes[w];
    assert s.boxes[w].WillWake();
    assert b.WillWake() && Do(s, st).boxes == s.boxes[w := b];
  }

  lemma MsgKept(s: Net, st: Step)
    requires Inv(s) && Enabled(s, st)
    ensures MsgInv(Do(s, st))
  {
    match st
    case DoBreak(k, writer) => BreakMsgKept(s, k, writer);
    case Deliver(w) => DeliverMsgKept(s, w);
    case Push(m) => WorkerStep(s, st, m.wid);
    case Signal(w) => WorkerStep(s, st, w);
    case ReadDone(w, _) => WorkerStep(s, st, w);
    case Drain(w) => WorkerStep(s, st, w);
    case Rearm(w) => WorkerStep(s, st, w);
    case DoGrant(_, _) => SlotMsgKept(s, Do(s, st));
    case DoRelease(_, _) => SlotMsgKept(s, Do(s, st));
    case _ => SlotStep(s, st);
  }

  lemma WorkerStep(s: Net, st: Step, w: nat)
    requires MsgInv(s) && WellFormed(s.table) && Enabled(s, st)
    requires st == Signal(w) || st == Drain(w) || st == Rearm(w) || (st.ReadDone? && st.w == w) || (st.Push? && st.m.wid == w)
    ensures MsgInv(Do(s, st))
  {
    WorkerMsgKept(s, Do(s, st), w);
  }

  lemma SlotStep(s: Net, st: Step)
    requires MsgInv(s) && Conserved(s) && WellFormed(s.table) && Enabled(s, st)
    requires st.Accept? || st.BeginClose? || st.Take? || st.ReleaseConn?
    ensures MsgInv(Do(s, st))
  {
    SlotsLater(s, st);
    SlotMsgKept(s, Do(s, st));
  }

  /** What happens to a slot only moves it on, and touches no message. */
  lemma SlotsLater(s: Net, st: Step)
    requires Enabled(s, st) && WellFormed(s.table)
    requires st.Accept? || st.BeginClose? || st.Take? || st.ReleaseConn?
    ensures var s' := Do(s, st);
            && s' == s.(table := s'.table, slots := s'.slots)
            && forall id :: id in s.slots ==> id in s'.slots && Later(s.slots[id], s'.slots[id])
  {
    var s' := Do(s, st);
    assert st.id in s.slots ==> Later(s.slots[st.id], s'.slots[st.id]);
  }

  /** A message found anywhere was issued. */
  lemma InIssued(s: Net, m: BreakMsg)
    requires Conserved(s)
    requires m in s.hand || m in s.delivered || m in s.discarded || CountIn(s.boxes, m) > 0
    ensures m in s.issued
  {
    assert s.issued[m] == s.hand[m] + CountIn(s.boxes, m) + s.delivered[m] + s.discarded[m];
  }

  lemma {:induction false} CountPositive(bs: seq<Box>, i: nat, m: BreakMsg)
    requires i < |bs| && m in bs[i].Carried()
    ensures CountIn(bs, m) > 0
  {
    var k := |bs| - 1;
    if i < k {
      assert bs[..k][i] == bs[i];
      CountPositive(bs[..k], i, m);
    }
  }

  /** A step inside worker `w` and its mailbox moves only messages addressed to it. */
  lemma WorkerMsgKept(s: Net, s': Net, w: nat)
    requires MsgInv(s) && w < |s.boxes| && |s'.boxes| == |s.boxes|
    requires s' == s.(boxes := s'.boxes, hand := s'.hand) && s'.boxes == s.boxes[w := s'.boxes[w]]
    requires forall m :: m in s'.boxes[w].Carried() ==> m in s.boxes[w].Carried() || m.wid == w
    ensures MsgInv(s')
  {
    forall v, m | 0 <= v < |s'.boxes| && m in s'.boxes[v].Carried() ensures m.wid == v {
      assert v != w ==> m in s.boxes[v].Carried();
    }
    forall m | m in s'.issued ensures Addressed(s', m) { assert Addressed(s, m); }
    forall m | m in s'.discarded ensures HolderGone(s', m) { assert HolderGone(s, m); }
  }

  lemma BreakMsgKept(s: Net, k: FileKey, writer: Option<LeaseKey>)
    requires TableInv(s) && MsgInv(s)
    ensures MsgInv(Do(s, DoBreak(k, writer)))
  {
    BreakAddressed(s, k, writer);
    IssueKept(s, Do(s, DoBreak(k, writer)), multiset(Messages(Dropped(Grants(s.table, k), Exempting(writer)))));
  }

  /** Messages are made only for grants, whose holders are in their slots. */
  lemma BreakAddressed(s: Net, k: FileKey, writer: Option<LeaseKey>)
    requires TableInv(s)
    ensures forall m :: m in Messages(Dropped(Grants(s.table, k), Exempting(writer))) ==> Addressed(s, m)
  {
    var d := Dropped(Grants(s.table, k), Exempting(writer));
    forall m | m in Messages(d) ensures Addressed(s, m) {
      var i :| 0 <= i < |d| && Messages(d)[i] == m;
      assert HolderPresent(s, d[i]);
    }
  }

  lemma IssueKept(s: Net, s': Net, out: multiset<BreakMsg>)
    requires MsgInv(s) && s' == s.(table := s'.table, hand := s'.hand, issued := s.issued + out)
    requires forall m :: m in out ==> Addressed(s, m)
    ensures MsgInv(s')
  {
    forall m | m in s'.issued ensures Addressed(s', m) { assert Addressed(s, m); }
    forall m | m in s'.discarded ensures HolderGone(s', m) { assert HolderGone(s, m); }
    forall v, m | 0 <= v < |s'.boxes| && m in s'.boxes[v].Carried() ensures m.wid == v {
      assert m in s.boxes[v].Carried();
    }
  }

  /** Delivering appends to the right history: a message for a live holder is
      delivered, and one that is not delivered has lost its holder. */
  lemma DeliverMsgKept(s: Net, w: nat)
    requires MsgInv(s) && Conserved(s) && w < |s.boxes| && s.boxes[w].wake.Draining? && s.boxes[w].wake.left != []
    ensures MsgInv(Delivering(s, w))
  {
    var m0 := s.boxes[w].wake.left[0];
    CountPositive(s.boxes, w, m0);
    InIssued(s, m0);
    DeliverCarried(s, w);
    DeliverSplit(s, w);
    HistoriesKept(s, Delivering(s, w), m0);
  }

  /** The message at the head of a drain ends in exactly one history. */
  ghost predicate Settles(s: Net, s': Net, m0: BreakMsg) {
    && s'.slots == s.slots && s'.issued == s.issued
    && if Deliverable(s, m0)
       then s'.delivered == s.delivered + multiset{m0} && s'.discarded == s.discarded
            && s'.reached == s.reached + {(m0, s.slots[Addressee(m0)].recycled)}
       else s'.delivered == s.delivered && s'.discarded == s.discarded + multiset{m0} && s'.reached == s.reached
  }

  lemma DeliverSplit(s: Net, w: nat)
    requires w < |s.boxes| && s.boxes[w].wake.Draining? && s.boxes[w].wake.left != []
    ensures Settles(s, Delivering(s, w), s.boxes[w].wake.left[0])
  {
  }

  lemma DeliverCarried(s: Net, w: nat)
    requires w < |s.boxes| && s.boxes[w].wake.Draining? && s.boxes[w].wake.left != []
    requires forall v, m :: 0 <= v < |s.boxes| && m in s.boxes[v].Carried() ==> m.wid == v
    ensures var bs := Delivering(s, w).boxes;
            |bs| == |s.boxes| && forall v, m :: 0 <= v < |bs| && m in bs[v].Carried() ==> m.wid == v
  {
    var bs := Delivering(s, w).boxes;
    forall v, m | 0 <= v < |bs| && m in bs[v].Carried() ensures m.wid == v {
      assert m in s.boxes[v].Carried();
    }
  }

  lemma HistoriesKept(s: Net, s': Net, m0: BreakMsg)
    requires MsgInv(s) && m0 in s.issued && |s'.boxes| == |s.boxes| && Settles(s, s', m0)
    requires forall v, m :: 0 <= v < |s'.boxes| && m in s'.boxes[v].Carried() ==> m.wid == v
    ensures MsgInv(s')
  {
    assert Addressed(s, m0);
    forall m | m in s'.issued ensures Addressed(s', m) { assert Addressed(s, m); }
    forall m | m in s'.discarded ensures HolderGone(s', m) {
      if m in s.discarded { assert HolderGone(s, m); }
    }
    forall m | m in s'.delivered ensures exists n :: (m, n) in s'.reached {
      if m in s.delivered {
        var n :| (m, n) in s.reached;
        assert (m, n) in s'.reached;
      } else {
        assert (m0, s.slots[Addressee(m0)].recycled) in s'.reached;
      }
    }
  }

  /** A slot's occupancy only moves forward. */
  predicate Later(a: Slot, b: Slot) {
    || a.recycled < b.recycled
    || (a.recycled == b.recycled && (!a.phase.Empty? ==> !b.phase.Empty? && (b.phase.Live? ==> a.phase.Live?)))
  }

  /** So addressed messages stay addressed and a holder that is gone stays gone. */
  lemma SlotMsgKept(s: Net, s': Net)
    requires MsgInv(s) && Conserved(s)
    requires s' == s.(table := s'.table, slots := s'.slots)
    requires forall id :: id in s.slots ==> id in s'.slots && Later(s.slots[id], s'.slots[id])
    ensures MsgInv(s')
  {
    forall m | m in s'.issued ensures Addressed(s', m) { assert Addressed(s, m); }
    forall m | m in s'.discarded ensures HolderGone(s', m) {
      InIssued(s, m);
      assert HolderGone(s, m) && Addressed(s, m);
    }
    forall v, m | 0 <= v < |s'.boxes| && m in s'.boxes[v].Carried() ensures m.wid == v {
      assert m in s.boxes[v].Carried();
    }
  }

  // -------------------------------------------------------- every run

  lemma InvStep(s: Net, st: Step)
    requires Inv(s) && Enabled(s, st)
    ensures Inv(Do(s, st))
  {
    TableKept(s, st);
    MsgKept(s, st);
    ConservedKept(s, st);
    WakeKept(s, st);
  }

  /** A server with `workers` workers before any connection. */
  function Start(workers: nat): Net {
    Net(map[], map[], seq(workers, _ => Box([], 0, 0, Armed)), multiset{}, multiset{}, multiset{}, multiset{}, {})
  }

  /** A run from the start: every step enabled when it is taken. */
  ghost predicate Reaches(workers: nat, steps: seq<Step>, s: Net) {
    if steps == [] then s == Start(workers)
    else
      var k := |steps| - 1;
      exists p :: Reaches(workers, steps[..k], p) && WellFormed(p.table) && Enabled(p, steps[k]) && s == Do(p, steps[k])
  }

  lemma {:induction false} EmptyBoxes(workers: nat, m: BreakMsg)
    ensures CountIn(Start(workers).boxes, m) == 0
  {
    if workers > 0 {
      assert Start(workers).boxes[..workers - 1] == Start((workers - 1) as nat).boxes;
      EmptyBoxes(workers - 1, m);
    }
  }

  /** The invariant holds in every state of every run. */
  lemma {:induction false} Safety(workers: nat, steps: seq<Step>, s: Net)
    requires Reaches(workers, steps, s)
    ensures Inv(s)
  {
    if steps == [] {
      forall m ensures s.issued[m] == s.hand[m] + CountIn(s.boxes, m) + s.delivered[m] + s.discarded[m] {
        EmptyBoxes(workers, m);
      }
    } else {
      var k := |steps| - 1;
      var p :| Reaches(workers, steps[..k], p) && WellFormed(p.table) && Enabled(p, steps[k]) && s == Do(p, steps[k]);
      Safety(workers, steps[..k], p);
      InvStep(p, steps[k]);
    }
  }

  /** In every run, a break that was delivered reached the connection whose lease
      was broken, unless a positive multiple of 65535 recycles of its slot lay
      between grant and delivery. */
  lemma DeliveredToHolder(workers: nat, steps: seq<Step>, s: Net, m: BreakMsg, n: nat)
    requires Reaches(workers, steps, s) && (m, n) in s.reached
    ensures m.born <= n && (n - m.born) % 0xFFFF == 0
    ensures n - m.born < 0xFFFF ==> n == m.born
  {
    Safety(workers, steps, s);
    ReachedExact(s, m, n);
  }

  lemma ReachedExact(s: Net, m: BreakMsg, n: nat)
    requires MsgInv(s) && (m, n) in s.reached
    ensures m.born <= n && (n - m.born) % 0xFFFF == 0
    ensures n - m.born < 0xFFFF ==> n == m.born
  {
    assert m in s.issued && m.born <= n && GenOf(n) == m.connGen;
    assert Addressed(s, m);
    SameIff16(m.born, n);
  }

  /** The guard at delivery: a message is accepted exactly when the slot's occupant
      is live and shares the holder's generation. */
  lemma GuardExact(s: Net, m: BreakMsg)
    requires Inv(s) && m in s.issued
    ensures Deliverable(s, m) <==>
              && s.slots[Addressee(m)].phase.Live?
              && (s.slots[Addressee(m)].recycled - m.born) % 0xFFFF == 0
    ensures s.slots[Addressee(m)] == Slot(m.born, Live) ==> Deliverable(s, m)
  {
    assert Addressed(s, m);
    SameIff16(m.born, s.slots[Addressee(m)].recycled);
  }

  /** Once nothing is in flight, every message was delivered once or discarded once,
      and each discarded one had lost its holder. */
  lemma AllSettled(workers: nat, steps: seq<Step>, s: Net)
    requires Reaches(workers, steps, s)
    requires s.hand == multiset{} && forall w :: 0 <= w < |s.boxes| ==> s.boxes[w].Carried() == multiset{}
    ensures s.issued == s.delivered + s.discarded
    ensures forall m :: m in s.discarded ==> HolderGone(s, m)
  {
    Safety(workers, steps, s);
    forall m ensures s.issued[m] == (s.delivered + s.discarded)[m] {
      NothingCarried(s.boxes, m);
    }
  }

  lemma {:induction false} NothingCarried(bs: seq<Box>, m: BreakMsg)
    requires forall w :: 0 <= w < |bs| ==> bs[w].Carried() == multiset{}
    ensures CountIn(bs, m) == 0
  {
    if bs != [] {
      var cs := bs[..|bs| - 1];
      assert forall w :: 0 <= w < |cs| ==> cs[w] == bs[w];
      NothingCarried(cs, m);
    }
  }

  /** No lost wakeup: whenever a mailbox is not empty, some step toward draining it
      is enabled or its poster is about to signal. */
  lemma NeverStuck(workers: nat, steps: seq<Step>, s: Net, w: nat)
    requires Reaches(workers, steps, s) && w < |s.boxes| && s.boxes[w].queue != []
    ensures || Enabled(s, Signal(w))
            || Enabled(s, ReadDone(w, true))
            || Enabled(s, Drain(w))
            || Enabled(s, Deliver(w))
            || Enabled(s, Rearm(w))
  {
    Safety(workers, steps, s);
    SomeStepEnabled(s, w);
  }

  lemma SomeStepEnabled(s: Net, w: nat)
    requires WakeInv(s) && w < |s.boxes| && s.boxes[w].queue != []
    ensures || Enabled(s, Signal(w))
            || Enabled(s, ReadDone(w, true))
            || Enabled(s, Drain(w))
            || Enabled(s, Deliver(w))
            || Enabled(s, Rearm(w))
  {
    assert s.boxes[w].WillWake();
  }
}
