/** Paging through a directory (src/smb2/handlers.rs, query_directory): a snapshot handed out
    in replies of 8-aligned records linked by NextEntryOffset, as many per reply as the
    client's buffer holds. The form of one record is a parameter.
 */
module DirPaging {
  import opened Wire
  import opened Response
  import opened DirRecords

  // -------------------------------------------------------------- a reply

  /** A record: its NextEntryOffset and the rest. */
  function Rec(next: nat, t: bytes): (r: bytes)
    ensures |r| == 4 + |t|
  {
    Le(next, 4) + t
  }

  /** Records that each point just past themselves. */
  function Linked(ts: seq<bytes>): bytes {
    if ts == [] then []
    else
      var k := |ts| - 1;
      Linked(ts[..k]) + Rec(4 + |ts[k]|, ts[k])
  }

  /** The same with the last record pointing nowhere. */
  function ReplyData(ts: seq<bytes>): (d: bytes)
    ensures |d| == |Linked(ts)|
  {
    if ts == [] then [] else Linked(ts[..|ts| - 1]) + Rec(0, ts[|ts| - 1])
  }

  /** A client's walk over a reply: follow NextEntryOffset until it is zero. */
  function Walk(data: bytes): seq<bytes>
    decreases |data|
  {
    if |data| < 4 then []
    else
      var next := FromLe(data[..4]);
      if next == 0 || !(4 <= next <= |data|) then [data[4..]] else [data[4..next]] + Walk(data[next..])
  }

  /** One linked record in front of anything is walked over. */
  lemma WalkOne(t: bytes, rest: bytes)
    requires 4 + |t| < 0x1_0000_0000
    ensures Walk(Rec(4 + |t|, t) + rest) == [t] + Walk(rest)
  {
    var n := 4 + |t|;
    var d := Rec(n, t) + rest;
    assert d[..4] == Le(n, 4) && d[4..n] == t && d[n..] == rest;
    PowWidths();
    LeRoundTrip(n, 4);
  }

  lemma WalkLast(t: bytes)
    ensures Walk(Rec(0, t)) == [t]
  {
    PowWidths();
    LeRoundTrip(0, 4);
    assert Rec(0, t)[..4] == Le(0, 4) && Rec(0, t)[4..] == t;
  }

  lemma {:induction false} WalkLinked(ts: seq<bytes>, rest: bytes)
    requires |Linked(ts)| < 0x1_0000_0000
    ensures Walk(Linked(ts) + rest) == ts + Walk(rest)
  {
    if ts == [] {
      assert Linked(ts) + rest == rest;
    } else {
      var k := |ts| - 1;
      var r := Rec(4 + |ts[k]|, ts[k]);
      assert Linked(ts) + rest == Linked(ts[..k]) + (r + rest);
      WalkLinked(ts[..k], r + rest);
      WalkOne(ts[k], rest);
      assert ts == ts[..k] + [ts[k]];
    }
  }

  /** The walk over a reply finds exactly its records, in order. */
  lemma WalkReply(init: seq<bytes>, last: bytes)
    requires |ReplyData(init + [last])| <= MAX_TRANSACT
    ensures Walk(ReplyData(init + [last])) == init + [last]
  {
    ReplySnoc(init, last);
    WalkLast(last);
    WalkLinked(init, Rec(0, last));
  }

  lemma ReplySnoc(init: seq<bytes>, last: bytes)
    ensures ReplyData(init + [last]) == Linked(init) + Rec(0, last)
  {
    assert (init + [last])[..|init|] == init;
  }

  /** Patching the last NextEntryOffset to zero finishes a reply. */
  lemma PatchLast(ts: seq<bytes>)
    requires ts != []
    ensures var d, at := Linked(ts), |Linked(ts[..|ts| - 1])|;
            at + 4 <= |d| && d[..at] + Le(0, 4) + d[at + 4..] == ReplyData(ts)
  {
  }

  lemma PatchTake(ts: seq<bytes>, n: nat)
    requires 0 < n <= |ts|
    ensures var d, at := Linked(ts[..n]), |Linked(ts[..n - 1])|;
            at + 4 <= |d| && d[..at] + Le(0, 4) + d[at + 4..] == ReplyData(ts[..n])
  {
    assert ts[..n][..n - 1] == ts[..n - 1];
    PatchLast(ts[..n]);
  }

  // ------------------------------------------------------- entries to records

  /** The records of some entries. */
  function Bodies(k: Codec, c: nat, es: seq<Entry>): (ts: seq<bytes>)
    ensures |ts| == |es|
  {
    seq(|es|, i requires 0 <= i < |es| => k.enc(c, es[i]))
  }

  lemma BodiesSlice(k: Codec, c: nat, es: seq<Entry>, from: nat, to: nat)
    requires from <= to <= |es|
    ensures Bodies(k, c, es[from..])[..to - from] == Bodies(k, c, es[from..to])
  {
  }

  /** What a client reads out of a reply. */
  function ReadReply(k: Codec, c: nat, data: bytes): (r: seq<Shown>)
    ensures |r| == |Walk(data)|
  {
    ReadEach(k, c, Walk(data))
  }

  function ReadEach(k: Codec, c: nat, recs: seq<bytes>): (r: seq<Shown>)
    ensures |r| == |recs|
  {
    seq(|recs|, i requires 0 <= i < |recs| => k.read(c, recs[i]))
  }

  function ShowEach(k: Codec, c: nat, es: seq<Entry>): (r: seq<Shown>)
    ensures |r| == |es|
  {
    seq(|es|, i requires 0 <= i < |es| => k.show(c, es[i]))
  }

  ghost predicate AllTyped(es: seq<Entry>) { forall i :: 0 <= i < |es| ==> es[i].Typed() }

  lemma WalkAll(ts: seq<bytes>)
    requires ts != [] && |ReplyData(ts)| <= MAX_TRANSACT
    ensures Walk(ReplyData(ts)) == ts
  {
    InitLast(ts);
    WalkReply(ts[..|ts| - 1], ts[|ts| - 1]);
  }

  lemma ReadBodies(k: Codec, c: nat, es: seq<Entry>)
    requires Faithful(k) && AllTyped(es) && k.known(c)
    ensures ReadEach(k, c, Bodies(k, c, es)) == ShowEach(k, c, es)
  {
  }

  /** A reply reads back as exactly its entries, in order. */
  lemma ReplyReadsBack(k: Codec, c: nat, es: seq<Entry>)
    requires Faithful(k) && AllTyped(es) && k.known(c) && es != [] && |ReplyData(Bodies(k, c, es))| <= MAX_TRANSACT
    ensures ReadReply(k, c, ReplyData(Bodies(k, c, es))) == ShowEach(k, c, es)
  {
    WalkAll(Bodies(k, c, es));
    ReadBodies(k, c, es);
  }

  // ------------------------------------------------------- how many fit

  /** The number of leading records that fit `room` bytes. */
  function Fitting(ts: seq<bytes>, room: int): (n: nat)
    ensures n <= |ts|
  {
    if ts == [] || 4 + |ts[0]| > room then 0
    else 1 + Fitting(ts[1..], room - 4 - |ts[0]|)
  }

  /** One when a single entry was asked for, otherwise as many as fit. */
  function Taken(ts: seq<bytes>, room: int, single: bool): (n: nat)
    ensures n <= |ts|
  {
    if single then Min(1, Fitting(ts, room)) else Fitting(ts, room)
  }

  lemma LinkedSnoc(ts: seq<bytes>, t: bytes)
    ensures Linked(ts + [t]) == Linked(ts) + Rec(4 + |t|, t)
  {
    assert (ts + [t])[..|ts|] == ts;
  }

  lemma {:induction false} LinkedCons(t: bytes, ts: seq<bytes>)
    ensures |Linked([t] + ts)| == 4 + |t| + |Linked(ts)|
  {
    if ts == [] {
      LinkedSnoc([], t);
      assert [t] + ts == [] + [t];
    } else {
      var init, last := ts[..|ts| - 1], ts[|ts| - 1];
      assert ts == init + [last] && [t] + ts == ([t] + init) + [last];
      LinkedCons(t, init);
      LinkedSnoc([t] + init, last);
      LinkedSnoc(init, last);
    }
  }

  /** Exactly that many fit: those together do, and one more would not. */
  lemma {:induction false} FittingExact(ts: seq<bytes>, room: nat)
    ensures var n := Fitting(ts, room);
            |Linked(ts[..n])| <= room && (n < |ts| ==> |Linked(ts[..n + 1])| > room)
  {
    var n := Fitting(ts, room);
    if n == 0 {
      if ts != [] {
        LinkedCons(ts[0], []);
        assert ts[..1] == [ts[0]] + [];
      }
    } else {
      FittingExact(ts[1..], room - 4 - |ts[0]|);
      TakeCons(ts, n);
      if n < |ts| { TakeCons(ts, n + 1); }
    }
  }

  lemma TakeCons(ts: seq<bytes>, n: nat)
    requires 1 <= n <= |ts|
    ensures |Linked(ts[..n])| == 4 + |ts[0]| + |Linked(ts[1..][..n - 1])|
  {
    assert ts[..n] == [ts[0]] + ts[1..][..n - 1];
    LinkedCons(ts[0], ts[1..][..n - 1]);
  }

  // --------------------------------------------------------- the scan

  datatype Dir = Dir(entries: seq<Entry>, pos: nat, pattern: string)

  datatype Ask = Ask(class_: nat, outLen: nat, single: bool) {
    function Room(): nat { Min(outLen, MAX_TRANSACT) }
  }

  datatype Reply = Data(data: bytes) | NoMoreFiles | NoSuchFile | BufferTooSmall | InvalidParameter | Failed(errno: int)

  /** The entries not yet handed out. */
  function Rest(d: Dir): seq<Entry> { if d.pos < |d.entries| then d.entries[d.pos..] else [] }

  function Count(k: Codec, d: Dir, a: Ask): (n: nat)
    ensures n <= |Rest(d)|
  {
    Taken(Bodies(k, a.class_, Rest(d)), a.Room(), a.single)
  }

  /** A reply and where the scan stands after it. */
  datatype Paged = Paged(reply: Reply, pos: nat)

  function Page(k: Codec, d: Dir, a: Ask): Paged {
    if Rest(d) == [] then Paged(if d.entries == [] then NoSuchFile else NoMoreFiles, d.pos)
    else if !k.known(a.class_) then Paged(InvalidParameter, d.pos)
    else if Count(k, d, a) == 0 then Paged(BufferTooSmall, d.pos)
    else
      var next := d.pos + Count(k, d, a);
      Paged(Data(ReplyData(Bodies(k, a.class_, d.entries[d.pos..next]))), next)
  }

  /** A reply that carries data, as the records it was filled with. */
  lemma PageData(k: Codec, d: Dir, a: Ask, n: nat)
    requires Rest(d) != [] && k.known(a.class_) && n == Count(k, d, a) > 0
    ensures n <= |Rest(d)| && d.pos + n <= |d.entries|
    ensures Page(k, d, a) == Paged(Data(ReplyData(Bodies(k, a.class_, Rest(d))[..n])), d.pos + n)
  {
    BodiesSlice(k, a.class_, d.entries, d.pos, d.pos + n);
  }

  /** Every reply fits the buffer and holds at least one entry; unless one entry was asked
      for, the next one would not have fitted. */
  lemma PageFits(k: Codec, d: Dir, a: Ask)
    requires Faithful(k) && Page(k, d, a).reply.Data?
    ensures |Page(k, d, a).reply.data| <= a.Room() <= a.outLen && |Page(k, d, a).reply.data| <= MAX_TRANSACT && |Page(k, d, a).reply.data| % 8 == 0
    ensures d.pos < Page(k, d, a).pos <= |d.entries|
    ensures !a.single && Page(k, d, a).pos < |d.entries| ==>
              |Linked(Bodies(k, a.class_, Rest(d))[..Count(k, d, a) + 1])| > a.Room()
  {
    TakenFits(Bodies(k, a.class_, Rest(d)), a.Room(), a.single);
    BodiesSlice(k, a.class_, d.entries, d.pos, Page(k, d, a).pos);
    BodiesAligned(k, a.class_, d.entries[d.pos..Page(k, d, a).pos]);
  }

  lemma BodiesAligned(k: Codec, c: nat, es: seq<Entry>)
    requires Faithful(k)
    ensures |ReplyData(Bodies(k, c, es))| % 8 == 0
  {
    Aligned(Bodies(k, c, es));
  }

  lemma TakenFits(ts: seq<bytes>, room: nat, single: bool)
    ensures var n := Taken(ts, room, single);
            |Linked(ts[..n])| <= room && (!single && n < |ts| ==> |Linked(ts[..n + 1])| > room)
  {
    FittingExact(ts, room);
    if single {
      Shorter(ts, Taken(ts, room, single), Fitting(ts, room));
    }
  }

  lemma {:induction false} Shorter(ts: seq<bytes>, n: nat, m: nat)
    requires n <= m <= |ts|
    ensures |Linked(ts[..n])| <= |Linked(ts[..m])|
  {
    if n < m {
      assert ts[..m][..m - 1] == ts[..m - 1];
      Shorter(ts, n, m - 1);
    }
  }

  /** Bodies leave room for a 4-byte link in a multiple of eight. */
  lemma {:induction false} Aligned(ts: seq<bytes>)
    requires forall i :: 0 <= i < |ts| ==> (4 + |ts[i]|) % 8 == 0
    ensures |Linked(ts)| % 8 == 0
  {
    if ts != [] {
      var k := |ts| - 1;
      Aligned(ts[..k]);
      AddEighths(|Linked(ts[..k])|, 4 + |ts[k]|);
    }
  }

  /** A reply reads back as exactly the entries the scan moved over. */
  lemma PageReadsBack(k: Codec, d: Dir, a: Ask)
    requires Faithful(k) && AllTyped(d.entries) && Page(k, d, a).reply.Data?
    ensures d.pos < Page(k, d, a).pos <= |d.entries|
    ensures ReadReply(k, a.class_, Page(k, d, a).reply.data) == ShowEach(k, a.class_, d.entries[d.pos..Page(k, d, a).pos])
  {
    var r := PageSlice(k, d, a);
    SliceReadsBack(k, a.class_, d.entries, d.pos, r.pos, r.reply.data);
  }

  lemma PageSlice(k: Codec, d: Dir, a: Ask) returns (r: Paged)
    requires Faithful(k) && Page(k, d, a).reply.Data?
    ensures r == Page(k, d, a) && r.reply.Data? && k.known(a.class_) && d.pos < r.pos <= |d.entries|
    ensures r.reply.data == ReplyData(Bodies(k, a.class_, d.entries[d.pos..r.pos])) && |r.reply.data| <= MAX_TRANSACT
  {
    PageFits(k, d, a);
    r := Page(k, d, a);
  }

  lemma SliceReadsBack(k: Codec, c: nat, es: seq<Entry>, from: nat, to: nat, data: bytes)
    requires Faithful(k) && AllTyped(es) && k.known(c) && from < to <= |es|
    requires data == ReplyData(Bodies(k, c, es[from..to])) && |data| <= MAX_TRANSACT
    ensures ReadReply(k, c, data) == ShowEach(k, c, es[from..to])
  {
    ReplyReadsBack(k, c, es[from..to]);
  }

  // ---------------------------------------------------------- whole scans

  /** What a client has read, and in which class, after a run of requests over one snapshot. */
  datatype Progress = Progress(pos: nat, got: seq<(nat, Shown)>)

  function Tag(class_: nat, r: seq<Shown>): (t: seq<(nat, Shown)>)
    ensures |t| == |r|
  {
    seq(|r|, i requires 0 <= i < |r| => (class_, r[i]))
  }

  function Scan(k: Codec, entries: seq<Entry>, pattern: string, asks: seq<Ask>): Progress {
    if asks == [] then Progress(0, [])
    else
      var p, a := Scan(k, entries, pattern, asks[..|asks| - 1]), asks[|asks| - 1];
      var r := Page(k, Dir(entries, p.pos, pattern), a);
      Progress(r.pos, p.got + if r.reply.Data? then Tag(a.class_, ReadReply(k, a.class_, r.reply.data)) else [])
  }

  /** Over any sequence of buffer sizes and classes, the entries read are the snapshot's,
      in order, without gaps or repeats. */
  lemma {:induction false} ScanExact(k: Codec, entries: seq<Entry>, pattern: string, asks: seq<Ask>)
    requires Faithful(k) && AllTyped(entries)
    ensures var p := Scan(k, entries, pattern, asks);
            && |p.got| == p.pos <= |entries|
            && forall i :: 0 <= i < p.pos ==> p.got[i].1 == k.show(p.got[i].0, entries[i])
  {
    if asks != [] {
      var p, a := Scan(k, entries, pattern, asks[..|asks| - 1]), asks[|asks| - 1];
      ScanExact(k, entries, pattern, asks[..|asks| - 1]);
      var d := Dir(entries, p.pos, pattern);
      if Page(k, d, a).reply.Data? {
        PageReadsBack(k, d, a);
        GotMore(k, entries, p.got, a.class_, Page(k, d, a).pos);
      }
    }
  }

  lemma GotMore(k: Codec, entries: seq<Entry>, got: seq<(nat, Shown)>, class_: nat, pos: nat)
    requires |got| <= pos <= |entries|
    requires forall i :: 0 <= i < |got| ==> got[i].1 == k.show(got[i].0, entries[i])
    ensures var t := got + Tag(class_, ShowEach(k, class_, entries[|got|..pos]));
            |t| == pos && forall i :: 0 <= i < |t| ==> t[i].1 == k.show(t[i].0, entries[i])
  {
    var r := ShowEach(k, class_, entries[|got|..pos]);
    var t := got + Tag(class_, r);
    forall i | |got| <= i < |t| ensures t[i].1 == k.show(t[i].0, entries[i]) {
      assert t[i] == (class_, r[i - |got|]);
    }
  }

  /** The end of the directory is reported exactly when every entry has been read. */
  lemma EndExact(k: Codec, entries: seq<Entry>, pattern: string, asks: seq<Ask>, a: Ask)
    requires Faithful(k) && AllTyped(entries)
    ensures var p := Scan(k, entries, pattern, asks); var r := Page(k, Dir(entries, p.pos, pattern), a).reply;
            && (r.NoMoreFiles? <==> entries != [] && |p.got| == |entries|)
            && (r.NoSuchFile? <==> entries == [])
  {
    ScanExact(k, entries, pattern, asks);
    EndReported(k, Dir(entries, Scan(k, entries, pattern, asks).pos, pattern), a);
  }

  lemma EndReported(k: Codec, d: Dir, a: Ask)
    ensures Page(k, d, a).reply.NoMoreFiles? <==> d.entries != [] && d.pos >= |d.entries|
    ensures Page(k, d, a).reply.NoSuchFile? <==> d.entries == []
  {
  }

  /** A request that has entries left fails exactly when the next one alone does not fit. */
  lemma TooSmallExact(k: Codec, d: Dir, a: Ask)
    requires d.pos < |d.entries| && k.known(a.class_)
    ensures Page(k, d, a).reply.BufferTooSmall? <==> 4 + |k.enc(a.class_, d.entries[d.pos])| > a.Room()
    ensures Page(k, d, a).reply.BufferTooSmall? || Page(k, d, a).reply.Data?
  {
    assert Bodies(k, a.class_, Rest(d))[0] == k.enc(a.class_, d.entries[d.pos]);
  }

  /** The whole of it for the server's own records: a client that continues a scan with any
      buffer sizes and classes reads the snapshot once through, entry by entry, and is told of
      the end exactly when it has read it all. */
  lemma DirectoryScan(entries: seq<Entry>, pattern: string, asks: seq<Ask>, a: Ask)
    requires AllTyped(entries)
    ensures var p := Scan(Records(), entries, pattern, asks);
            && |p.got| == p.pos <= |entries|
            && (forall i :: 0 <= i < p.pos ==> p.got[i].1 == ShownAs(p.got[i].0, entries[i]))
            && (Page(Records(), Dir(entries, p.pos, pattern), a).reply.NoMoreFiles? <==> entries != [] && |p.got| == |entries|)
  {
    RecordsFaithful();
    ScanExact(Records(), entries, pattern, asks);
    EndExact(Records(), entries, pattern, asks, a);
  }

  // ------------------------------------------------------------- the code

  datatype Snapshot = Listing(entries: seq<Entry>) | Errno(errno: int)

  /** The directory state of one open. */
  class OpenDir {
    var dir: Option<Dir>

    predicate NeedsNew(restart: bool, pattern: string)
      reads this
    {
      dir.None? || restart || dir.value.pattern != pattern
    }

    function Start(restart: bool, pattern: string, snap: Snapshot): Dir
      requires NeedsNew(restart, pattern) ==> snap.Listing?
      reads this
    {
      if NeedsNew(restart, pattern) then Dir(snap.entries, 0, pattern) else dir.value
    }

    /** `snap` is what reading the directory would give now. */
    method Query(a: Ask, restart: bool, pattern: string, snap: Snapshot) returns (r: Reply)
      modifies this
      ensures old(NeedsNew(restart, pattern)) && snap.Errno? ==> r == Failed(snap.errno) && dir == old(dir)
      ensures !(old(NeedsNew(restart, pattern)) && snap.Errno?) ==>
                var d := old(Start(restart, pattern, snap));
                r == Page(Records(), d, a).reply && dir == Some(d.(pos := Page(Records(), d, a).pos))
    {
      if NeedsNew(restart, pattern) {
        if snap.Errno? { return Failed(snap.errno); }
        dir := Some(Dir(snap.entries, 0, pattern));
      }
      var page := PageOut(Records(), dir.value, a);
      dir := Some(dir.value.(pos := page.pos));
      r := page.reply;
    }
  }

  method PageOut(k: Codec, d: Dir, a: Ask) returns (r: Paged)
    ensures r == Page(k, d, a)
  {
    var rest := Rest(d);
    if rest == [] {
      r := Paged(if d.entries == [] then NoSuchFile else NoMoreFiles, d.pos);
    } else {
      var ok, data, n := Fill(k, rest, a.class_, a.Room(), a.single);
      if !ok {
        r := Paged(InvalidParameter, d.pos);
      } else if n == 0 {
        r := Paged(BufferTooSmall, d.pos);
      } else {
        PageData(k, d, a, n);
        r := Paged(Data(data), d.pos + n);
      }
    }
  }

  /** The records of one reply, each stamped with its own length as the offset of the next, where
      the last one starts, and their number. */
  method Gather(k: Codec, c: nat, es: seq<Entry>, room: nat, single: bool) returns (data: bytes, last: nat, n: nat)
    ensures n == Taken(Bodies(k, c, es), room, single)
    ensures data == Linked(Bodies(k, c, es)[..n])
    ensures n > 0 ==> last == |Linked(Bodies(k, c, es)[..n - 1])|
  {
    ghost var ts := Bodies(k, c, es);
    data, last, n := [], 0, 0;
    var more := true;
    GatherNone(ts, room, single);
    while more && n < |es|
      invariant n <= |ts| == |es| && Gathered(ts, room, single, n, data, last, more)
      decreases if more then 1 else 0, |es| - n
    {
      var entry := Rec(4 + |k.enc(c, es[n])|, k.enc(c, es[n]));
      GatherNext(ts, room, single, n, data, last, k.enc(c, es[n]));
      if |data| + |entry| > room {
        more := false;
      } else {
        last := |data|;
        data := data + entry;
        n := n + 1;
        more := !single;
      }
    }
    GatherDone(ts, room, single, n, data, last, more);
  }

  /** The first `n` of the records `ts` are in `data`, the last of them at `last`. While `more` may
      follow, what will fit is what was taken and what of the rest fits; else all that will be taken was. */
  ghost predicate Gathered(ts: seq<bytes>, room: nat, single: bool, n: nat, data: bytes, last: nat, more: bool)
    requires n <= |ts|
  {
    && data == Linked(ts[..n]) && (n > 0 ==> last == |Linked(ts[..n - 1])|)
    && (more ==> Fitting(ts, room) == n + Fitting(ts[n..], room - |data|) && (single ==> n == 0))
    && (!more ==> n == Taken(ts, room, single))
  }

  lemma GatherNone(ts: seq<bytes>, room: nat, single: bool)
    ensures Gathered(ts, room, single, 0, [], 0, true)
  {
    assert ts[0..] == ts && ts[..0] == [];
  }

  lemma GatherNext(ts: seq<bytes>, room: nat, single: bool, n: nat, data: bytes, last: nat, t: bytes)
    requires n < |ts| && Gathered(ts, room, single, n, data, last, true) && t == ts[n]
    ensures |data| + 4 + |t| > room ==> Gathered(ts, room, single, n, data, last, false)
    ensures |data| + 4 + |t| <= room ==> Gathered(ts, room, single, n + 1, data + Rec(4 + |t|, t), |data|, !single)
  {
    var rest := ts[n..];
    assert rest[0] == t && rest[1..] == ts[n + 1..];
    assert ts[..n + 1] == ts[..n] + [t];
    LinkedSnoc(ts[..n], t);
  }

  lemma GatherDone(ts: seq<bytes>, room: nat, single: bool, n: nat, data: bytes, last: nat, more: bool)
    requires n <= |ts| && Gathered(ts, room, single, n, data, last, more) && (more ==> n == |ts|)
    ensures n == Taken(ts, room, single)
  {
  }

  /** The patched reply; nothing for a class the server does not know. */
  method Fill(k: Codec, es: seq<Entry>, class_: nat, room: nat, single: bool) returns (ok: bool, data: bytes, n: nat)
    requires es != []
    ensures ok <==> k.known(class_)
    ensures ok ==> n == Taken(Bodies(k, class_, es), room, single)
    ensures ok ==> data == ReplyData(Bodies(k, class_, es)[..n])
  {
    ok, data, n := k.known(class_), [], 0;
    if ok {
      var last;
      data, last, n := Gather(k, class_, es, room, single);
      if n > 0 {
        PatchTake(Bodies(k, class_, es), n);
        data := data[..last] + Le(0, 4) + data[last + 4..];
      }
    }
  }
}
