/** One worker's connection slots and the routing of completions by tag
    (src/uring.rs).
 */
module Slots {
  import opened Wire
  import opened Frames
  import opened Async
  import opened Ring
  import opened Driving
  import opened Ledger
  import opened Reactions
  import opened Reactor
  import opened Generation

  const MAX_CONN_SLOTS := 0xFF_FFFF

  /** The completion tag: operation, slot, generation and read slot in one word. */
  function Ud(op: nat, idx: nat, gen: nat, slot: nat): nat {
    op * 0x100_0000_0000_0000 + (idx % 0x100_0000) * 0x1_0000_0000 + gen * 0x1_0000 + slot
  }

  function UdParts(v: nat): (nat, nat, nat, nat) {
    var hi := v / 0x1_0000 / 0x1_0000;  // v >> 32
    (hi / 0x100_0000 % 256, hi % 0x100_0000, v / 0x1_0000 % 0x1_0000, v % 0x1_0000)
  }

  /** A tag names its slot and generation exactly when the slot index fits 24 bits,
      which the slot limit guarantees; it then never equals the cancel sentinel. */
  lemma UdRoundTrip(op: nat, idx: nat, gen: nat, slot: nat)
    requires op < 256 && gen < 0x1_0000 && slot < 0x1_0000
    ensures UdParts(Ud(op, idx, gen, slot)) == (op, idx, gen, slot) <==> idx < 0x100_0000
    ensures idx < MAX_CONN_SLOTS ==> UdParts(Ud(op, idx, gen, slot)).1 != 0xFF_FFFF
  {
    var i := idx % 0x100_0000;
    var hi := op * 0x100_0000 + i;
    assert Ud(op, idx, gen, slot) == (hi * 0x1_0000 + gen) * 0x1_0000 + slot;
    SplitLow(hi * 0x1_0000 + gen, slot);
    SplitLow(hi, gen);
  }

  lemma SplitLow(hi: nat, lo: nat)
    requires lo < 0x1_0000
    ensures (hi * 0x1_0000 + lo) / 0x1_0000 == hi && (hi * 0x1_0000 + lo) % 0x1_0000 == lo
  {
  }

  lemma Freed(free: seq<nat>, i: nat)
    requires i !in free && forall j, k :: 0 <= j < k < |free| ==> free[j] != free[k]
    ensures forall k :: k in free + [i] <==> k in free || k == i
    ensures forall j, k :: 0 <= j < k < |free + [i]| ==> (free + [i])[j] != (free + [i])[k]
  {
  }

  class Worker {
    var conns: seq<Conn?>
    var gens: seq<nat>
    var free: seq<nat>
    const sendZcOk: bool
    /** Every connection ever accepted by this worker. */
    ghost var all: set<Conn>

    /** Slots name their own live connections, free slots are exactly the empty
        ones, without repeats, and a connection outside its slot has been freed.
        Slot `odd` may be in transition: filled but freed, or empty but not free. */
    ghost predicate Placed(odd: int)
      reads this, all
    {
      && |conns| == |gens| <= MAX_CONN_SLOTS
      && (forall i :: 0 <= i < |conns| && conns[i] != null ==> conns[i] in all)
      && (forall i :: 0 <= i < |conns| && conns[i] != null ==> conns[i].idx == i && conns[i].gen == gens[i])
      && (forall i :: 0 <= i < |conns| && conns[i] != null ==> i == odd || !conns[i].dropped)
      && odd !in free
      && (forall i :: 0 <= i < |conns| && i != odd ==> (conns[i] == null <==> i in free))
      && (forall i :: 0 <= i < |free| ==> free[i] < |conns|)
      && (forall i, j :: 0 <= i < j < |free| ==> free[i] != free[j])
      && (forall i :: 0 <= i < |gens| ==> 1 <= gens[i] < BITS16)
      && (forall c :: c in all && !c.dropped ==> c.idx < |conns| && conns[c.idx] == c)
    }

    ghost predicate Sound()
      reads all, this
    {
      forall c :: c in all ==> c.Valid()
    }

    ghost predicate Valid()
      reads this, all
    {
      Placed(-1) && Sound()
    }

    constructor (zcOk: bool)
      ensures Valid() && all == {}
    {
      conns, gens, free, sendZcOk := [], [], [], zcOk;
      all := {};
    }

    /** Take a free slot, or a new one unless the tag could no longer name it. */
    method OnAccept(proto: Protocol) returns (slot: Option<nat>)
      requires Valid()
      modifies this
      ensures Valid()
      ensures slot.None? <==> old(free) == [] && old(|conns|) >= MAX_CONN_SLOTS
      ensures slot.None? ==> all == old(all)
      ensures slot.Some? ==>
                && slot.value < |conns| && conns[slot.value] != null && fresh(conns[slot.value])
                && all == old(all) + {conns[slot.value]}
    {
      if free == [] && |conns| >= MAX_CONN_SLOTS {
        slot := None;
      } else {
        var i := PickSlot();
        var c := new Conn(sendZcOk, i, gens[i], proto);
        c.KeepReceiving();
        Fill(i, c);
        slot := Some(i);
      }
    }

    method PickSlot() returns (i: nat)
      requires Placed(-1) && (free != [] || |conns| < MAX_CONN_SLOTS)
      modifies `conns, `gens, `free
      ensures Placed(i) && i < |conns| && conns[i] == null
    {
      if free != [] {
        i := free[|free| - 1];
        free := free[..|free| - 1];
      } else {
        i := |conns|;
        conns, gens := conns + [null], gens + [1];
      }
    }

    method Fill(i: nat, c: Conn)
      requires Placed(i) && i < |conns| && conns[i] == null && !c.dropped && c.idx == i && c.gen == gens[i]
      requires c !in all && Sound() && c.Valid()
      modifies `conns, `all
      ensures Valid() && all == old(all) + {c} && conns == old(conns)[i := c]
    {
      conns := conns[i := c];
      all := all + {c};
    }

    /** Drop a freed connection from its slot and advance the slot's generation. */
    method Recycle(i: nat)
      requires Placed(i) && Sound() && i < |conns| && conns[i] != null && conns[i].dropped
      modifies `conns, `gens, `free
      ensures Valid() && i in free && gens[i] == Next(old(gens[i]), BITS16)
    {
      conns := conns[i := null];
      Release(i);
    }

    method Release(i: nat)
      requires Placed(i) && Sound() && i < |conns| && conns[i] == null
      modifies `gens, `free
      ensures Valid() && i in free && gens[i] == Next(old(gens[i]), BITS16)
    {
      Freed(free, i);
      gens, free := gens[i := Next(gens[i], BITS16)], free + [i];
    }

    /** Deliver one completion. A completion owed by any connection ever accepted
        reaches that connection: the stale-slot guards do not fire for it. When it
        was the last one of a closing connection, the slot is recycled. */
    method HandleCqe(idx: nat, gen: nat, ev: Cqe, ghost target: Conn) returns (stale: bool)
      requires Valid()
      requires target in all && target.idx == idx && target.gen == gen && KernelAllows(target.tx, target.e, ev)
      modifies this, target
      ensures Valid() && !stale && all == old(all)
      ensures target.e.Follows(old(target.e), ev)
      ensures !old(target.closing) ==> Reacted(target.proto, old(target.tx), old(target.Retired(ev)), ev, target.Stands())
      ensures target.dropped ==> idx in free && gens[idx] == Next(gen, BITS16)
    {
      target.OwedIsLive(ev);
      stale := !(idx < |conns| && conns[idx] != null && conns[idx].gen == gen);
      if !stale {
        var c: Conn := conns[idx];
        Hand(c, ev);
        if c.dropped {
          Recycle(idx);
        }
      }
    }

    method Hand(c: Conn, ev: Cqe)
      requires Valid() && c in all && !c.dropped && KernelAllows(c.tx, c.e, ev)
      modifies c
      ensures Placed(if c.dropped then c.idx else -1) && Sound()
      ensures c.e.Follows(old(c.e), ev)
      ensures !old(c.closing) ==> Reacted(c.proto, old(c.tx), old(c.Retired(ev)), ev, c.Stands())
    {
      c.HandleCqe(ev);
      KeepsPlace(c);
    }

    /** A change to one connection that keeps its own invariant. */
    twostate lemma KeepsPlace(c: Conn)
      requires old(Valid()) && c in all && !old(c.dropped) && c.Valid() && unchanged(this)
      requires forall d :: d in all && d != c ==> unchanged(d)
      ensures Placed(if c.dropped then c.idx else -1) && Sound()
    {
    }

    /** Deliver a lease break to the connection it names: dropped when the slot is empty, holds a
        later connection or is closing, and otherwise queued or sent. Buffers that posted reads
        reference stay, and no connection is freed. */
    method DeliverBreak(idx: nat, gen: nat, mac: Mac, key: Option<nat>, b: Break)
      requires Valid() && IsMac(mac) && |b.leaseKey| == 16
      modifies if idx < |conns| && conns[idx] != null then {conns[idx]} else {}
      ensures Valid()
      ensures idx < |conns| && conns[idx] != null ==> Took(conns[idx], gen, LeaseBreak(mac, key, b))
    {
      LeaseBreakReads(mac, key, b);
      Deliver(idx, gen, LeaseBreak(mac, key, b));
    }

    /** `c` took a frame meant for the connection of generation `gen`, or nothing of it changed. */
    twostate predicate Took(c: Conn, gen: nat, frame: bytes)
      reads c
    {
      && !c.dropped && c.Onward()
      && (if c.gen == gen && !old(c.closing) then frame in c.nt.deferred || Out(frame, -1) in c.e.frames
          else c.nt == old(c.nt) && c.e == old(c.e))
    }

    method Deliver(idx: nat, gen: nat, frame: bytes)
      requires Valid() && Framed(frame)
      modifies if idx < |conns| && conns[idx] != null then {conns[idx]} else {}
      ensures Valid()
      ensures idx < |conns| && conns[idx] != null ==> Took(conns[idx], gen, frame)
    {
      if idx < |conns| && conns[idx] != null && conns[idx].gen == gen {
        conns[idx].DeliverBreak(frame);
      }
    }
  }
}
