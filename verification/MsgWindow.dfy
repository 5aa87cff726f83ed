/** The window of acceptable MessageIds of one connection (src/smb2/handlers.rs,
    consume_msg_ids; MS-SMB2 section 3.3.1.1). The code keeps the lowest id not yet
    settled and the ids used above it; the specification speaks of all ids ever used.
 */
module MsgWindow {
  import opened Wire

  const U64_MAX: nat := 0xFFFF_FFFF_FFFF_FFFF
  const MSG_WINDOW: nat := 0x1_0000
  const MSG_SEEN_MAX: nat := 4096

  datatype Window = Window(low: nat, seen: set<nat>)

  /** The ids from `a` up to but not including `b`. */
  function Range(a: nat, b: nat): (r: set<nat>)
    ensures forall x :: x in r <==> a <= x < b
  {
    if a >= b then {} else Range(a, b - 1) + {b - 1}
  }

  datatype Req = Req(id: nat, charge: nat) {
    predicate Typed() { id <= U64_MAX && charge <= 0xFFFF }
    function End(): nat { id + Max(charge, 1) }
    function Ids(): set<nat> { Range(id, End()) }
  }

  predicate Accepts(w: Window, r: Req) {
    && r.End() <= U64_MAX
    && w.low <= r.id && r.End() <= Min(w.low + MSG_WINDOW, U64_MAX)
    && r.Ids() !! w.seen
  }

  function Marked(w: Window, r: Req): Window { w.(seen := w.seen + r.Ids()) }

  function Next(w: Window, r: Req): Window {
    if Accepts(w, r) then Settle(Marked(w, r)) else w
  }

  // ---------------------------------------------------------- sliding

  lemma {:induction false} HasLeast(s: set<nat>, m: nat)
    requires m in s
    ensures exists l :: l in s && forall x :: x in s ==> l <= x
  {
    if x :| x in s && x < m {
      HasLeast(s, x);
    }
  }

  function Least(s: set<nat>): (m: nat)
    requires s != {}
    ensures m in s && forall x :: x in s ==> m <= x
  {
    assert exists l :: l in s && forall x :: x in s ==> l <= x by {
      var m :| m in s;
      HasLeast(s, m);
    }
    var m :| m in s && forall x :: x in s ==> m <= x;
    m
  }

  /** Step over the used ids that start at the low edge. */
  function Slide(w: Window): (v: Window)
    decreases |w.seen|
  {
    if w.low in w.seen then Slide(Window(w.low + 1, w.seen - {w.low})) else w
  }

  /** Slide, and give up the gap below the least remembered id while too many are remembered. */
  function Settle(w: Window): Window
    decreases |w.seen|, if w.low in w.seen then 0 else 1
  {
    SlideShrinks(w);
    var v := Slide(w);
    if |v.seen| <= MSG_SEEN_MAX then v else Settle(v.(low := Least(v.seen)))
  }

  lemma {:induction false} SlideShrinks(w: Window)
    ensures Slide(w).low !in Slide(w).seen
    ensures |Slide(w).seen| <= |w.seen| && (w.low in w.seen ==> |Slide(w).seen| < |w.seen|)
    decreases |w.seen|
  {
    if w.low in w.seen {
      SlideShrinks(Window(w.low + 1, w.seen - {w.low}));
    }
  }

  /** The ids of `s` above `v`. */
  function Above(s: set<nat>, v: nat): set<nat> { set x | x in s && v < x }

  /** Nothing remembered lies below the low edge. */
  ghost predicate Edged(w: Window) { forall x :: x in w.seen ==> w.low <= x }

  /** Everything from the old edge to the new one was used; the rest is remembered. */
  lemma {:induction false} SlideExact(w: Window)
    requires Edged(w)
    ensures var v := Slide(w);
            && w.low <= v.low && v.low !in w.seen && v.seen == Above(w.seen, v.low)
            && forall x :: w.low <= x < v.low ==> x in w.seen
    decreases |w.seen|
  {
    if w.low in w.seen {
      var u := Window(w.low + 1, w.seen - {w.low});
      SlideExact(u);
      assert Above(w.seen, Slide(u).low) == Above(u.seen, Slide(u).low);
      forall x | w.low <= x < Slide(u).low ensures x in w.seen { assert x != w.low ==> x in u.seen; }
    } else {
      assert w.seen == Above(w.seen, w.low);
    }
  }

  /** The new low edge is the least unused id with at most 4096 used ids above it. */
  ghost predicate Settled(w: Window, u: nat) {
    && w.low <= u && u !in w.seen && |Above(w.seen, u)| <= MSG_SEEN_MAX
    && forall x :: w.low <= x < u && x !in w.seen ==> |Above(w.seen, x)| > MSG_SEEN_MAX
  }

  lemma {:induction false} SettleExact(w: Window)
    requires Edged(w)
    ensures Settled(w, Settle(w).low) && Settle(w).seen == Above(w.seen, Settle(w).low)
    decreases |w.seen|, if w.low in w.seen then 0 else 1
  {
    SlideExact(w);
    SlideShrinks(w);
    var v := Slide(w);
    if |v.seen| > MSG_SEEN_MAX {
      var g := v.(low := Least(v.seen));
      SettleExact(g);
      JumpExact(w, v, g, Settle(g).low);
    }
  }

  /** Giving up the gap at `v.low` skips only ids that have too many above them. */
  lemma JumpExact(w: Window, v: Window, g: Window, u: nat)
    requires w.low <= v.low && v.low !in w.seen && v.seen == Above(w.seen, v.low) && |v.seen| > MSG_SEEN_MAX
    requires forall x :: w.low <= x < v.low ==> x in w.seen
    requires g == v.(low := Least(v.seen)) && Settled(g, u)
    ensures Settled(w, u) && Above(g.seen, u) == Above(w.seen, u)
  {
    assert forall x :: v.low <= x ==> Above(w.seen, x) == Above(v.seen, x);
    forall x | w.low <= x < u && x !in w.seen ensures |Above(w.seen, x)| > MSG_SEEN_MAX {
      if x < g.low {
        assert Above(v.seen, x) == v.seen;
      }
    }
  }

  // --------------------------------------------------------- every run

  /** The window after a run of requests, every id ever accepted, and whether a gap
      was ever given up. */
  datatype History = History(w: Window, used: set<nat>, gaveUp: bool)

  function Run(rs: seq<Req>): History {
    if rs == [] then History(Window(0, {}), {}, false)
    else
      var h, r := Run(rs[..|rs| - 1]), rs[|rs| - 1];
      if !Accepts(h.w, r) then h
      else Advance(h, r)
  }

  function Advance(h: History, r: Req): History {
    History(Settle(Marked(h.w, r)), h.used + r.Ids(), h.gaveUp || GivesUp(Marked(h.w, r)))
  }

  /** More than 4096 used ids lie above the lowest unused one. */
  predicate GivesUp(w: Window) { |Slide(w).seen| > MSG_SEEN_MAX }

  ghost predicate Inv(h: History) {
    && h.w.low <= U64_MAX && |h.w.seen| <= MSG_SEEN_MAX
    && (forall x :: x in h.used ==> x < U64_MAX)
    && h.w.low !in h.used && h.w.seen == Above(h.used, h.w.low)
    && (!h.gaveUp ==> forall x :: 0 <= x < h.w.low ==> x in h.used)
  }

  /** With every used id below the largest, the edge never passes the largest. */
  lemma EdgeBound(w: Window, u: nat)
    requires Settled(w, u) && w.low <= U64_MAX && forall x :: x in w.seen ==> x < U64_MAX
    ensures u <= U64_MAX
  {
    assert U64_MAX !in w.seen && Above(w.seen, U64_MAX) == {};
  }

  lemma InvStep(h: History, r: Req)
    requires Inv(h) && Accepts(h.w, r)
    ensures Inv(Advance(h, r)) && h.w.low <= Advance(h, r).w.low
  {
    var w, h' := Marked(h.w, r), Advance(h, r);
    SettleExact(w);
    EdgeBound(w, h'.w.low);
    assert forall x :: h.w.low <= x ==> (x in h'.used <==> x in w.seen);
    assert Above(h'.used, h'.w.low) == Above(w.seen, h'.w.low);
    DenseBelow(h, r);
  }

  /** Without giving up, every id below the new edge was used. */
  lemma DenseBelow(h: History, r: Req)
    requires Inv(h) && Accepts(h.w, r)
    ensures !Advance(h, r).gaveUp ==> forall x :: 0 <= x < Advance(h, r).w.low ==> x in Advance(h, r).used
  {
    var w := Marked(h.w, r);
    SlideExact(w);
    if !GivesUp(w) {
      assert Settle(w) == Slide(w);
    }
  }

  /** In every run: the low edge never passes the largest id, at most 4096 ids are
      remembered, and the remembered ids are exactly the used ones above the edge. */
  lemma {:induction false} Safety(rs: seq<Req>)
    ensures Inv(Run(rs))
  {
    if rs != [] {
      var h, r := Run(rs[..|rs| - 1]), rs[|rs| - 1];
      Safety(rs[..|rs| - 1]);
      if Accepts(h.w, r) { InvStep(h, r); }
    }
  }

  /** As a run goes on, the edge only rises and used ids stay used. */
  lemma {:induction false} Monotone(rs: seq<Req>, i: nat)
    requires i <= |rs|
    ensures Run(rs[..i]).w.low <= Run(rs).w.low && Run(rs[..i]).used <= Run(rs).used
  {
    var k := |rs| - 1;
    if i == |rs| {
      assert rs[..i] == rs;
    } else {
      assert rs[..k][..i] == rs[..i];
      Monotone(rs[..k], i);
      Safety(rs[..k]);
      if Accepts(Run(rs[..k]).w, rs[k]) { InvStep(Run(rs[..k]), rs[k]); }
    }
  }

  /** No MessageId is accepted twice: two accepted requests of a run share no id. */
  lemma NoReplay(rs: seq<Req>, i: nat, j: nat)
    requires i < j < |rs| && Accepts(Run(rs[..i]).w, rs[i]) && Accepts(Run(rs[..j]).w, rs[j])
    ensures rs[i].Ids() !! rs[j].Ids()
  {
    var p, q := rs[..i + 1], rs[..j];
    assert p[..i] == rs[..i] && q[..i + 1] == p;
    Monotone(q, i + 1);
    assert rs[i].Ids() <= Run(p).used <= Run(q).used;
    Safety(q);
    var w := Run(q).w;
    forall x | x in rs[j].Ids() ensures x !in Run(q).used {
      assert w.low <= x && x !in w.seen;
      assert x == w.low || x !in Above(Run(q).used, w.low);
    }
  }

  ghost predicate LowestUnused(used: set<nat>, u: nat) {
    u !in used && forall x :: 0 <= x < u ==> x in used
  }

  /** Until a gap is given up, a request is accepted exactly when its ids fit in 64 bits,
      none was used before and none reaches 65536 past the lowest unused id. */
  lemma AcceptsExactly(rs: seq<Req>, r: Req, u: nat)
    requires !Run(rs).gaveUp && LowestUnused(Run(rs).used, u)
    ensures Accepts(Run(rs).w, r) <==> r.End() <= U64_MAX && r.Ids() !! Run(rs).used && r.End() <= u + MSG_WINDOW
  {
    var h := Run(rs);
    Safety(rs);
    assert h.w.low == u by { assert h.w.low < u || u < h.w.low || h.w.low == u; }
    assert r.id in r.Ids();
    if r.Ids() !! h.used && r.End() <= U64_MAX {
      assert u <= r.id;
      assert r.Ids() !! h.w.seen;
    }
    if Accepts(h.w, r) {
      forall x | x in r.Ids() ensures x !in h.used {
        assert x == u || x !in Above(h.used, u);
      }
    }
  }

  /** After a gap was given up the ids below the edge are refused too, and nothing else changes. */
  lemma AcceptsAlways(rs: seq<Req>, r: Req)
    ensures Accepts(Run(rs).w, r) <==>
              && r.End() <= Min(Run(rs).w.low + MSG_WINDOW, U64_MAX)
              && forall x :: x in r.Ids() ==> Run(rs).w.low <= x && x !in Run(rs).used
  {
    var h := Run(rs);
    Safety(rs);
    assert r.id in r.Ids();
    if Accepts(h.w, r) {
      forall x | x in r.Ids() ensures x !in h.used {
        assert x == h.w.low || x !in Above(h.used, h.w.low);
      }
    }
  }

  // ------------------------------------------------------ the code's loops

  class MsgIds {
    var low: nat
    var seen: set<nat>

    function Now(): Window
      reads this
    {
      Window(low, seen)
    }

    /** No overflow is possible: every remembered id is below the largest. */
    ghost predicate Valid()
      reads this
    {
      && low <= U64_MAX && |seen| <= MSG_SEEN_MAX
      && forall x :: x in seen ==> low < x < U64_MAX
    }

    constructor ()
      ensures Valid() && Now() == Run([]).w
    {
      low, seen := 0, {};
    }

    method SlideLow()
      requires low <= U64_MAX && forall x :: x in seen ==> low <= x < U64_MAX
      modifies this
      ensures low <= U64_MAX && forall x :: x in seen ==> low < x < U64_MAX
      ensures Now() == Slide(old(Now()))
    {
      while low in seen
        invariant low <= U64_MAX && forall x :: x in seen ==> low <= x < U64_MAX
        invariant Slide(Now()) == Slide(old(Now()))
        decreases |seen|
      {
        seen := seen - {low};
        low := low + 1;
      }
    }

    method Consume(r: Req) returns (ok: bool)
      requires Valid() && r.Typed()
      modifies this
      ensures Valid()
      ensures ok == Accepts(old(Now()), r) && Now() == Next(old(Now()), r)
    {
      var end := r.End();
      if end > U64_MAX { return false; }
      if r.id < low || end > Min(low + MSG_WINDOW, U64_MAX) { return false; }
      var ids := r.Ids();
      if ids * seen != {} { return false; }
      seen := seen + ids;
      ok := true;
      ghost var target := Settle(Now());
      while true
        invariant low <= U64_MAX && forall x :: x in seen ==> low <= x < U64_MAX
        invariant Settle(Now()) == target
        decreases |seen|, if low in seen then 0 else 1
      {
        SlideShrinks(Now());
        SlideLow();
        if |seen| <= MSG_SEEN_MAX { break; }
        low := Least(seen);
      }
    }
  }
}
