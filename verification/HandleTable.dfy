/** The slab of open files (src/vfs.rs): slots reused through a free list, ids that
    carry the slot's generation. It refines a map from ids to opens.
 */
module HandleTable {
  import opened Wire
  import opened Generation

  /** CREATE refuses to open more handles than this in one session. */
  const MAX_OPENS_PER_SESSION := 16384

  /** An open: the tree it was opened on and the descriptor it owns. */
  datatype Handle = Handle(tree: nat, fd: int)

  datatype FileId = FileId(gen: nat, idx: nat)

  /** Ids travel as one 64-bit number. */
  function Pack(f: FileId): nat { f.gen * BITS32 + f.idx }

  function Unpack(id: nat): FileId { FileId(id / BITS32, id % BITS32) }

  lemma PackUnpack(f: FileId)
    requires f.idx < BITS32
    ensures Unpack(Pack(f)) == f && (Pack(f) < BITS32 * BITS32 <==> f.gen < BITS32)
  {
  }

  // --------------------------------------------------------- the invariant

  /** The generations of slots that have been vacated so often. */
  function Aged(closes: seq<nat>): (gens: seq<nat>)
    ensures |gens| == |closes|
  {
    seq(|closes|, i requires 0 <= i < |closes| => After(1, closes[i], BITS32))
  }

  /** `closes` counts how often each slot has been vacated. */
  ghost predicate Shape(slots: seq<Option<Handle>>, gens: seq<nat>, free: seq<nat>, closes: seq<nat>) {
    && |slots| == |gens| <= MAX_OPENS_PER_SESSION && gens == Aged(closes)
    && (forall k :: 0 <= k < |free| ==> free[k] < |slots| && slots[free[k]].None?)
    && (forall j, k :: 0 <= j < k < |free| ==> free[j] != free[k])
    && (forall i :: 0 <= i < |slots| && slots[i].None? ==> i in free)
  }

  /** The slab holds exactly the opens of `live`, each under its id. */
  ghost predicate Refines(slots: seq<Option<Handle>>, gens: seq<nat>, live: map<FileId, Handle>)
    requires |slots| == |gens|
  {
    && (forall i :: 0 <= i < |slots| && slots[i].Some? ==>
          FileId(gens[i], i) in live && live[FileId(gens[i], i)] == slots[i].value)
    && (forall f :: f in live ==> f.idx < |slots| && gens[f.idx] == f.gen && slots[f.idx].Some?)
  }

  /** The source's fields. */
  datatype Slab = Slab(slots: seq<Option<Handle>>, gens: seq<nat>, free: seq<nat>)

  /** How often each slot was vacated, and the map the slab stands for. */
  datatype Book = Book(closes: seq<nat>, live: map<FileId, Handle>)

  ghost predicate Ok(t: Slab, g: Book) {
    && Shape(t.slots, t.gens, t.free, g.closes) && Refines(t.slots, t.gens, g.live)
    && |g.live| + |t.free| == |t.slots|
  }

  /** Putting an open in an empty slot adds it under a new id; putting one in a full slot replaces it. */
  lemma Filled(slots: seq<Option<Handle>>, gens: seq<nat>, live: map<FileId, Handle>, i: nat, h: Handle)
    requires |slots| == |gens| && Refines(slots, gens, live) && i < |slots|
    ensures FileId(gens[i], i) in live <==> slots[i].Some?
    ensures Refines(slots[i := Some(h)], gens, live[FileId(gens[i], i) := h])
  {
  }

  lemma Grown(slots: seq<Option<Handle>>, gens: seq<nat>, live: map<FileId, Handle>)
    requires |slots| == |gens| && Refines(slots, gens, live)
    ensures Refines(slots + [None], gens + [1], live)
  {
  }

  /** Vacating a slot removes its open, whatever generation the slot goes to. */
  lemma Vacated(slots: seq<Option<Handle>>, gens: seq<nat>, live: map<FileId, Handle>, i: nat, g: nat)
    requires |slots| == |gens| && Refines(slots, gens, live) && i < |slots| && slots[i].Some?
    ensures Refines(slots[i := None], gens[i := g], live - {FileId(gens[i], i)})
    ensures |live - {FileId(gens[i], i)}| == |live| - 1
  {
    var live' := live - {FileId(gens[i], i)};
    assert live'.Keys == live.Keys - {FileId(gens[i], i)};
  }

  /** Slot `i` and only it was vacated once more. */
  predicate Closed(i: nat, before: seq<nat>, after: seq<nat>) {
    i < |before| && after == before[i := before[i] + 1]
  }

  lemma Recycled(slots: seq<Option<Handle>>, gens: seq<nat>, free: seq<nat>, closes: seq<nat>, i: nat)
    requires Shape(slots, gens, free, closes) && i < |slots| && slots[i].Some?
    ensures Shape(slots[i := None], gens[i := Next(gens[i], BITS32)], free + [i], closes[i := closes[i] + 1])
  {
    var fr := free + [i];
    assert gens[i := Next(gens[i], BITS32)] == Aged(closes[i := closes[i] + 1]);
    forall j | 0 <= j < |slots| && slots[i := None][j].None? ensures j in fr {
      assert fr[|free|] == i;
      assert j != i ==> j in free;
    }
  }

  /** A vacated slot: its generation moves on and it joins the free list. */
  function Vacate(t: Slab, i: nat): Slab
    requires i < |t.slots| && i < |t.gens|
  {
    Slab(t.slots[i := None], t.gens[i := Next(t.gens[i], BITS32)], t.free + [i])
  }

  ghost function Struck(t: Slab, g: Book, i: nat): Book
    requires i < |t.gens| && i < |g.closes|
  {
    Book(g.closes[i := g.closes[i] + 1], g.live - {FileId(t.gens[i], i)})
  }

  lemma VacateOk(t: Slab, g: Book, i: nat)
    requires Ok(t, g) && i < |t.slots| && t.slots[i].Some?
    ensures i < |t.gens| && i < |g.closes| && Ok(Vacate(t, i), Struck(t, g, i))
  {
    Vacated(t.slots, t.gens, g.live, i, Next(t.gens[i], BITS32));
    Recycled(t.slots, t.gens, t.free, g.closes, i);
  }

  /** The slot on top of the free list is filled. */
  lemma PlaceOk(t: Slab, g: Book, h: Handle)
    requires Ok(t, g) && t.free != []
    ensures var i := t.free[|t.free| - 1];
            && i < |t.slots| && FileId(t.gens[i], i) !in g.live && i < |g.closes| && t.gens[i] == After(1, g.closes[i], BITS32)
            && Ok(t.(slots := t.slots[i := Some(h)], free := t.free[..|t.free| - 1]),
                  g.(live := g.live[FileId(t.gens[i], i) := h]))
  {
    Filled(t.slots, t.gens, g.live, t.free[|t.free| - 1], h);
  }

  /** With no slot free the slab grows by one. */
  lemma ExtendOk(t: Slab, g: Book, h: Handle)
    requires Ok(t, g) && t.free == [] && |g.live| < MAX_OPENS_PER_SESSION
    ensures FileId(1, |t.slots|) !in g.live
    ensures Ok(Slab(t.slots + [Some(h)], t.gens + [1], []), Book(g.closes + [0], g.live[FileId(1, |t.slots|) := h]))
  {
    Grown(t.slots, t.gens, g.live);
    Filled(t.slots + [None], t.gens + [1], g.live, |t.slots|, h);
    assert (t.slots + [None])[|t.slots| := Some(h)] == t.slots + [Some(h)];
    assert Aged(g.closes + [0]) == Aged(g.closes) + [1];
  }

  /** An open replaced in its slot. */
  lemma RewriteOk(t: Slab, g: Book, i: nat, h: Handle)
    requires Ok(t, g) && i < |t.slots| && t.slots[i].Some?
    ensures Ok(t.(slots := t.slots[i := Some(h)]), g.(live := g.live[FileId(t.gens[i], i) := h]))
  {
    Filled(t.slots, t.gens, g.live, i, h);
    assert g.live[FileId(t.gens[i], i) := h].Keys == g.live.Keys;
  }

  /** The opens in slot order. */
  function Files(slots: seq<Option<Handle>>): seq<Handle> {
    if slots == [] then []
    else
      var k := |slots| - 1;
      Files(slots[..k]) + if slots[k].Some? then [slots[k].value] else []
  }

  // --------------------------------------------------------------- the code

  class HandleTable {
    var t: Slab
    ghost var g: Book

    ghost predicate Valid()
      reads this
    {
      Ok(t, g)
    }

    constructor ()
      ensures Valid() && g.live == map[]
    {
      t, g := Slab([], [], []), Book([], map[]);
    }

    /** The number of open handles. */
    method Len() returns (n: nat)
      requires Valid()
      ensures n == |g.live|
    {
      n := |t.slots| - |t.free|;
    }

    /** A new open gets an id that no live open has; with the guard of CREATE the slab
        never outgrows the limit. */
    method Insert(h: Handle) returns (id: nat)
      requires Valid() && |g.live| < MAX_OPENS_PER_SESSION
      modifies this
      ensures Valid() && Unpack(id) !in old(g.live) && g.live == old(g.live)[Unpack(id) := h] && id < BITS32 * BITS32
      ensures g.closes == old(g.closes) || g.closes == old(g.closes) + [0]
      ensures Unpack(id).idx < |g.closes| && Unpack(id).gen == After(1, g.closes[Unpack(id).idx], BITS32)
    {
      var f;
      if |t.free| > 0 {
        f := Place(h);
      } else {
        f := Extend(h);
      }
      PackUnpack(f);
      AfterClosed32(1, g.closes[f.idx]);
      id := Pack(f);
    }

    method Place(h: Handle) returns (f: FileId)
      requires Valid() && |t.free| > 0
      modifies this
      ensures Valid() && f !in old(g.live) && g == old(g).(live := old(g.live)[f := h])
      ensures f.idx < |g.closes| && f.gen == After(1, g.closes[f.idx], BITS32)
    {
      PlaceOk(t, g, h);
      var i := t.free[|t.free| - 1];
      f := FileId(t.gens[i], i);
      t := t.(slots := t.slots[i := Some(h)], free := t.free[..|t.free| - 1]);
      g := g.(live := g.live[f := h]);
    }

    method Extend(h: Handle) returns (f: FileId)
      requires Valid() && t.free == [] && |g.live| < MAX_OPENS_PER_SESSION
      modifies this
      ensures Valid() && f !in old(g.live) && g == Book(old(g.closes) + [0], old(g.live)[f := h])
      ensures f.idx < |g.closes| && f.gen == After(1, g.closes[f.idx], BITS32)
    {
      ExtendOk(t, g, h);
      f := FileId(1, |t.slots|);
      t := Slab(t.slots + [Some(h)], t.gens + [1], []);
      g := Book(g.closes + [0], g.live[f := h]);
    }

    method Slot(id: nat) returns (r: Option<nat>)
      requires Valid()
      ensures r.Some? <==> Unpack(id) in g.live
      ensures r.Some? ==> r.value < |t.slots| && t.slots[r.value] == Some(g.live[Unpack(id)])
      ensures r.Some? ==> Unpack(id) == FileId(t.gens[r.value], r.value)
    {
      var f := Unpack(id);
      if f.idx < |t.slots| && t.gens[f.idx] == f.gen && t.slots[f.idx].Some? {
        r := Some(f.idx);
      } else {
        r := None;
      }
    }

    /** The open an id names on a tree: lookups under another tree miss. */
    ghost function Named(id: nat, tree: nat): Option<Handle>
      reads this
    {
      if Unpack(id) in g.live && g.live[Unpack(id)].tree == tree then Some(g.live[Unpack(id)]) else None
    }

    method Get(id: nat, tree: nat) returns (r: Option<Handle>)
      requires Valid()
      ensures r == Named(id, tree)
    {
      var i := Slot(id);
      r := None;
      if i.Some? && t.slots[i.value].value.tree == tree {
        r := t.slots[i.value];
      }
    }

    /** Writing through the reference a lookup hands out. */
    method Set(id: nat, tree: nat, fd: int) returns (ok: bool)
      requires Valid()
      modifies this
      ensures Valid() && ok == old(Named(id, tree)).Some?
      ensures g == if ok then old(g).(live := old(g.live)[Unpack(id) := Handle(tree, fd)]) else old(g)
    {
      var i := Slot(id);
      ok := i.Some? && t.slots[i.value].value.tree == tree;
      if ok {
        RewriteOk(t, g, i.value, Handle(tree, fd));
        t := t.(slots := t.slots[i.value := Some(Handle(tree, fd))]);
        g := g.(live := g.live[Unpack(id) := Handle(tree, fd)]);
      }
    }

    method Remove(id: nat, tree: nat) returns (r: Option<Handle>)
      requires Valid()
      modifies this
      ensures Valid() && r == old(Named(id, tree))
      ensures g.live == if r.Some? then old(g.live) - {Unpack(id)} else old(g.live)
      ensures r.None? ==> g.closes == old(g.closes)
      ensures r.Some? ==> Closed(Unpack(id).idx, old(g.closes), g.closes)
    {
      var i := Slot(id);
      r := None;
      if i.Some? && t.slots[i.value].value.tree == tree {
        r := Take(i.value);
      }
    }

    /** Vacate a slot. */
    method Take(i: nat) returns (r: Option<Handle>)
      requires Valid() && i < |t.slots| && t.slots[i].Some?
      modifies this
      ensures Valid() && r == old(t.slots)[i] && t.slots == old(t.slots)[i := None]
      ensures i < |old(t.gens)| && g.live == old(g.live) - {FileId(old(t.gens)[i], i)} && Closed(i, old(g.closes), g.closes)
    {
      VacateOk(t, g, i);
      r := t.slots[i];
      g := Struck(t, g, i);
      t := Vacate(t, i);
    }

    /** The ids of the opens of one tree, each once. */
    method IdsInTree(tree: nat) returns (ids: seq<FileId>)
      requires Valid()
      ensures forall f :: f in ids <==> f in g.live && g.live[f].tree == tree
      ensures forall j, k :: 0 <= j < k < |ids| ==> ids[j] != ids[k]
    {
      ids := [];
      for i := 0 to |t.slots|
        invariant forall f :: f in ids <==> f in g.live && g.live[f].tree == tree && f.idx < i
        invariant forall j, k :: 0 <= j < k < |ids| ==> ids[j] != ids[k]
      {
        if t.slots[i].Some? && t.slots[i].value.tree == tree {
          ids := ids + [FileId(t.gens[i], i)];
        }
      }
    }

    /** Session teardown hands back every open and leaves none; every slot that was occupied has seen
        one more close, so that no id handed out before resolves in it. */
    method TakeAll() returns (v: seq<Handle>)
      requires Valid()
      modifies this
      ensures Valid() && g.live == map[] && v == Files(old(t.slots))
      ensures AllClosed(old(t.slots), old(g.closes), g.closes, |old(t.slots)|)
    {
      v := [];
      ghost var was, closes := t.slots, g.closes;
      for i := 0 to |t.slots|
        invariant Valid() && Emptied(t.slots, was, i) && v == Files(was[..i])
        invariant AllClosed(was, closes, g.closes, i)
      {
        EmptyStep(t.slots, was, i);
        var of := Empty(i, was, closes);
        v := v + of;
      }
      AllEmpty(t, g, was);
    }

    /** Empty one slot, if it is occupied. */
    method Empty(i: nat, ghost was: seq<Option<Handle>>, ghost closes: seq<nat>) returns (v: seq<Handle>)
      requires Valid() && Emptied(t.slots, was, i) && AllClosed(was, closes, g.closes, i) && i < |t.slots|
      modifies this
      ensures Valid() && Emptied(t.slots, was, i + 1) && AllClosed(was, closes, g.closes, i + 1)
      ensures v == if was[i].Some? then [was[i].value] else []
    {
      v := [];
      EmptyStep(t.slots, was, i);
      ClosedStep(was, closes, g.closes, i);
      if t.slots[i].Some? {
        var of := Take(i);
        v := [of.value];
      }
    }

    /** An id handed out when its slot had seen `n` closes resolves exactly while the slot is
        occupied and the closes since then are a multiple of 2^32 - 1: never again, short of
        that many closes, once it was removed. */
    lemma Resolves(i: nat, n: nat)
      requires Valid() && i < |g.closes| && n <= g.closes[i]
      ensures FileId(After(1, n, BITS32), i) in g.live <==> t.slots[i].Some? && (g.closes[i] - n) % 0xFFFF_FFFF == 0
    {
      SameIff32(n, g.closes[i]);
    }
  }

  /** The first `n` slots are empty and the others as they were. */
  ghost predicate Emptied(slots: seq<Option<Handle>>, was: seq<Option<Handle>>, n: nat) {
    && |slots| == |was| && n <= |was|
    && (forall j :: 0 <= j < n ==> slots[j].None?)
    && (forall j :: n <= j < |was| ==> slots[j] == was[j])
  }

  /** Of the first `n` slots the occupied ones have seen one more close. */
  ghost predicate AllClosed(slots: seq<Option<Handle>>, was: seq<nat>, now: seq<nat>, n: nat) {
    && |slots| == |was| == |now|
    && forall j :: 0 <= j < |slots| ==> now[j] == was[j] + if j < n && slots[j].Some? then 1 else 0
  }

  lemma ClosedStep(slots: seq<Option<Handle>>, was: seq<nat>, now: seq<nat>, n: nat)
    requires AllClosed(slots, was, now, n) && n < |slots|
    ensures slots[n].Some? ==> AllClosed(slots, was, now[n := now[n] + 1], n + 1)
    ensures slots[n].None? ==> AllClosed(slots, was, now, n + 1)
  {
  }

  lemma EmptyStep(slots: seq<Option<Handle>>, was: seq<Option<Handle>>, n: nat)
    requires Emptied(slots, was, n) && n < |was|
    ensures slots[n] == was[n] && Emptied(slots[n := None], was, n + 1) && (slots[n].None? ==> Emptied(slots, was, n + 1))
    ensures Files(was[..n + 1]) == Files(was[..n]) + if was[n].Some? then [was[n].value] else []
  {
    assert was[..n + 1][..n] == was[..n];
  }

  lemma AllEmpty(t: Slab, g: Book, was: seq<Option<Handle>>)
    requires Ok(t, g) && Emptied(t.slots, was, |was|)
    ensures g.live == map[] && was[..|was|] == was
  {
    assert g.live.Keys == {};
  }
}
