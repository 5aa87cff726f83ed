/** One frame of requests and the frame of replies it gets (src/smb2/mod.rs,
    process_plain, sign_in_place, verify_signature): the compound loop, the layout of
    chained replies, and per-reply signing. The command handlers and the MAC are
    parameters.
 */
module Frames {
  import opened Wire
  import opened Response

  const COMPOUND_RESP_CAP := 0x80_0000

  /** The largest reply a member adds: MaxTransact and room for its fixed part. */
  const REPLY_MAX := MAX_TRANSACT + 0x1_0000

  type Mac = (nat, bytes) -> bytes

  ghost predicate IsMac(mac: Mac) { forall k, b :: |mac(k, b)| == 16 }

  // --------------------------------------------------------------- replies

  /** A reply as a handler leaves it: nothing, or a message whose NextCommand and
      signature fields are still zero. */
  predicate Fresh(r: bytes) {
    r == [] || (HDR_LEN <= |r| <= REPLY_MAX && r[20..24] == Zeros(4) && r[48..64] == Zeros(16))
  }

  /** Every reply that starts with a response header is of that kind. */
  lemma BeginRespFresh(h: ReqHdr, st: nat, related: bool, treeId: nat, sessionId: nat, body: bytes)
    requires |body| <= MAX_TRANSACT
    ensures Fresh(BeginResp(h, st, related, treeId, sessionId) + body)
  {
    var r := BeginResp(h, st, related, treeId, sessionId) + body;
    assert r[20..24] == Le(0, 4) == Zeros(4);
    assert r[48..64] == Zeros(16);
  }

  predicate Replies(rs: seq<bytes>) {
    forall i :: 0 <= i < |rs| ==> |rs[i]| >= HDR_LEN && Fresh(rs[i])
  }

  /** The next multiple of eight. */
  function Up8(n: nat): nat { n + Pad8(n) }

  /** Behind `tx` bytes, of which `pre` came before the frame, the next reply starts at `start`. */
  ghost predicate StartsAt(pre: nat, tx: nat, start: nat) {
    tx >= pre && start == pre + Up8(tx - pre)
  }

  lemma StartsBehind(pre: nat, size: nat, tx: nat, start: nat)
    requires tx == pre + size && start == pre + Up8(size)
    ensures StartsAt(pre, tx, start)
  {
    assert tx - pre == size;
  }

  function Patch32(s: bytes, at: nat, v: nat): (t: bytes)
    requires at + 4 <= |s|
    ensures |t| == |s|
  {
    s[..at] + Le(v, 4) + s[at + 4..]
  }

  /** A reply that is followed by another: padded to eight bytes, NextCommand its length. */
  function Link(r: bytes): (c: bytes)
    requires |r| >= HDR_LEN
    ensures |r| <= |c| < |r| + 8 && |c| % 8 == 0
  {
    PadUp(|r|);
    var p := r + Zeros(Pad8(|r|));
    Patch32(p, 20, |p|)
  }

  /** The replies of a frame as laid out. `silent`: a member that wrote nothing came last. */
  function Cells(rs: seq<bytes>, silent: bool): (cs: seq<bytes>)
    requires forall i :: 0 <= i < |rs| ==> |rs[i]| >= HDR_LEN
    ensures |cs| == |rs|
    ensures forall i :: 0 <= i < |rs| ==> cs[i] == if i < |rs| - 1 || silent then Link(rs[i]) else rs[i]
  {
    seq(|rs|, i requires 0 <= i < |rs| => if i < |rs| - 1 || silent then Link(rs[i]) else rs[i])
  }

  // ------------------------------------------------------------ walking them

  /** A client's walk along NextCommand; it fails when a link leads nowhere. */
  function Walk(b: bytes): Option<seq<bytes>>
    decreases |b|
  {
    if |b| < HDR_LEN then None
    else
      var next := FromLe(b[20..24]);
      if next == 0 then Some([b])
      else if next < HDR_LEN || next % 8 != 0 || next > |b| then None
      else
        match Walk(b[next..])
        case None => None
        case Some(cs) => Some([b[..next]] + cs)
  }

  predicate Linked(c: bytes) {
    HDR_LEN <= |c| < 0x1_0000_0000 && |c| % 8 == 0 && c[20..24] == Le(|c|, 4)
  }

  predicate Last(c: bytes) {
    HDR_LEN <= |c| && c[20..24] == Zeros(4)
  }

  lemma WalkLinked(c: bytes, rest: bytes)
    requires Linked(c)
    ensures Walk(c + rest) == match Walk(rest) case None => None case Some(cs) => Some([c] + cs)
  {
    var b := c + rest;
    assert b[20..24] == c[20..24] && b[..|c|] == c && b[|c|..] == rest;
    PowWidths();
    LeRoundTrip(|c|, 4);
  }

  lemma WalkLast(c: bytes)
    requires Last(c)
    ensures Walk(c) == Some([c])
  {
    FromLeZeros(4);
  }

  lemma {:induction false} WalkAll(cs: seq<bytes>, rest: bytes)
    requires forall i :: 0 <= i < |cs| ==> Linked(cs[i])
    ensures Walk(Flatten(cs) + rest) == match Walk(rest) case None => None case Some(ds) => Some(cs + ds)
  {
    if cs == [] {
      assert Flatten(cs) + rest == rest;
      assert forall ds: seq<bytes> :: cs + ds == ds;
    } else {
      var k := |cs| - 1;
      assert Flatten(cs) + rest == Flatten(cs[..k]) + (cs[k] + rest);
      WalkAll(cs[..k], cs[k] + rest);
      WalkLinked(cs[k], rest);
      assert cs == cs[..k] + [cs[k]];
      assert forall ds: seq<bytes> :: cs[..k] + ([cs[k]] + ds) == cs + ds;
    }
  }

  lemma WalkProper(init: seq<bytes>, last: bytes)
    requires Last(last) && forall i :: 0 <= i < |init| ==> Linked(init[i])
    ensures Walk(Flatten(init + [last])) == Some(init + [last])
  {
    WalkLast(last);
    WalkAll(init, last);
    FlattenSnoc(init, last);
  }

  lemma WalkDangling(cs: seq<bytes>)
    requires forall i :: 0 <= i < |cs| ==> Linked(cs[i])
    ensures Walk(Flatten(cs)) == None
  {
    WalkAll(cs, []);
    assert Flatten(cs) + [] == Flatten(cs);
  }

  /** How the cells of a frame are linked. */
  ghost predicate Chained(cs: seq<bytes>, silent: bool) {
    forall i :: 0 <= i < |cs| ==> if i < |cs| - 1 || silent then Linked(cs[i]) else Last(cs[i])
  }

  /** NextCommand walks exactly the replies, ending at zero, if and only if the last member
      dispatched wrote one. */
  lemma WalkExact(cs: seq<bytes>, silent: bool)
    requires cs != [] && Chained(cs, silent)
    ensures Walk(Flatten(cs)) == Some(cs) <==> !silent
    ensures silent ==> Walk(Flatten(cs)) == None
  {
    if silent {
      WalkDangling(cs);
    } else {
      var k := |cs| - 1;
      assert cs[..k] + [cs[k]] == cs;
      WalkProper(cs[..k], cs[k]);
    }
  }

  // -------------------------------------------------------------- signing

  /** The flags word with the SIGNED bit set. */
  function OrSigned(n: nat): nat { if n / FLAG_SIGNED % 2 == 1 then n else n + FLAG_SIGNED }

  function Flagged(c: bytes): (d: bytes)
    requires |c| >= HDR_LEN
    ensures |d| == |c|
  {
    Patch32(c, 16, OrSigned(FromLe(c[16..20])))
  }

  function Signed(mac: Mac, key: nat, c: bytes): bytes
    requires |c| >= HDR_LEN
  {
    var d := Flagged(c);
    d[..48] + mac(key, d) + d[64..]
  }

  predicate Verifies(mac: Mac, key: nat, msg: bytes) {
    |msg| >= HDR_LEN && mac(key, msg[..48] + Zeros(16) + msg[64..]) == msg[48..64]
  }

  /** Signing in place is what verification checks, for any MAC, and it leaves the
      length and NextCommand alone. */
  lemma SignVerifies(mac: Mac, key: nat, c: bytes)
    requires IsMac(mac) && |c| >= HDR_LEN && c[48..64] == Zeros(16)
    ensures var s := Signed(mac, key, c); |s| == |c| && Verifies(mac, key, s) && s[20..24] == c[20..24]
  {
    var d := Flagged(c);
    var s := Signed(mac, key, c);
    assert |mac(key, d)| == 16;
    assert d[48..64] == c[48..64] && d[20..24] == c[20..24];
    assert s[..48] == d[..48] && s[48..64] == mac(key, d) && s[64..] == d[64..];
    assert d == d[..48] + d[48..64] + d[64..];
    assert s[20..24] == d[20..24];
  }

  function SignedIf(mac: Mac, key: Option<nat>, c: bytes): bytes
    requires |c| >= HDR_LEN
  {
    if key.Some? then Signed(mac, key.value, c) else c
  }

  // ------------------------------------------------------ a frame's replies

  /** What a frame answers with: each laid-out reply, signed where its session has a key. */
  function Answer(mac: Mac, rs: seq<bytes>, keys: seq<Option<nat>>, silent: bool): (cs: seq<bytes>)
    requires |keys| == |rs| && forall i :: 0 <= i < |rs| ==> |rs[i]| >= HDR_LEN
    ensures |cs| == |rs|
  {
    seq(|rs|, i requires 0 <= i < |rs| => SignedIf(mac, keys[i], Cells(rs, silent)[i]))
  }

  lemma CellShape(r: bytes)
    requires Fresh(r) && r != []
    ensures Last(r) && Linked(Link(r)) && Link(r)[48..64] == Zeros(16)
  {
    var p := r + Zeros(Pad8(|r|));
    assert Link(r)[20..24] == Le(|p|, 4);
    assert Link(r)[48..64] == p[48..64] == r[48..64];
  }

  /** Every reply on a keyed session verifies over its own range once all are signed. */
  lemma AnswerVerifies(mac: Mac, rs: seq<bytes>, keys: seq<Option<nat>>, silent: bool, i: nat)
    requires IsMac(mac) && |keys| == |rs| && i < |rs| && Replies(rs)
    ensures var c := Answer(mac, rs, keys, silent)[i];
            && (keys[i].Some? ==> Verifies(mac, keys[i].value, c))
            && (if i < |rs| - 1 || silent then Linked(c) else Last(c))
            && |c| == |Cells(rs, silent)[i]|
  {
    CellShape(rs[i]);
    if keys[i].Some? {
      SignVerifies(mac, keys[i].value, Cells(rs, silent)[i]);
    }
  }

  /** The replies of a frame can be walked if and only if the last member dispatched replied. */
  lemma AnswerWalks(mac: Mac, rs: seq<bytes>, keys: seq<Option<nat>>, silent: bool)
    requires IsMac(mac) && |keys| == |rs| && rs != [] && Replies(rs)
    ensures var cs := Answer(mac, rs, keys, silent); Walk(Flatten(cs)) == Some(cs) <==> !silent
  {
    var cs := Answer(mac, rs, keys, silent);
    forall i | 0 <= i < |cs| ensures if i < |cs| - 1 || silent then Linked(cs[i]) else Last(cs[i]) {
      AnswerVerifies(mac, rs, keys, silent, i);
    }
    WalkExact(cs, silent);
  }

  /** Replies start on 8-byte boundaries. */
  lemma {:induction false} StartsAligned(cs: seq<bytes>, silent: bool, i: nat)
    requires Chained(cs, silent) && i < |cs|
    ensures |Flatten(cs[..i])| % 8 == 0
  {
    if i > 0 {
      StartsAligned(cs, silent, i - 1);
      assert cs[..i][..i - 1] == cs[..i - 1];
      assert Linked(cs[i - 1]);
      AddEighths(|Flatten(cs[..i - 1])|, |cs[i - 1]|);
    }
  }

  // ------------------------------------------------------------ the loop

  /** A reply's place, the command it answers, the session it is for, and the signing key that
      session had before a LOGOFF. */
  datatype RespRec = RespRec(start: nat, cmd: nat, sess: nat, key: Option<nat>)

  /** The key a reply is signed with: the session's own, or the one LOGOFF's session had. */
  function KeyOf(keyNow: nat -> Option<nat>, r: RespRec): Option<nat> {
    if keyNow(r.sess).Some? then keyNow(r.sess) else r.key
  }

  /** The records name the replies and where each starts behind `pre`. */
  ghost predicate Recorded(recs: seq<RespRec>, pre: nat, cs: seq<bytes>) {
    && |recs| == |cs|
    && (cs != [] ==>
          var k := |cs| - 1;
          recs[k].start == pre + |Flatten(cs[..k])| && Recorded(recs[..k], pre, cs[..k]))
  }

  lemma {:induction false} RecordedAt(recs: seq<RespRec>, pre: nat, cs: seq<bytes>, i: nat)
    requires Recorded(recs, pre, cs) && i < |cs|
    ensures |recs| == |cs| && recs[i].start == pre + |Flatten(cs[..i])|
  {
    var k := |cs| - 1;
    if i < k {
      assert cs[..k][..i] == cs[..i] && recs[..k][i] == recs[i];
      RecordedAt(recs[..k], pre, cs[..k], i);
    }
  }

  /** The buffer while a frame is dispatched: `prev` is where the latest reply starts. */
  datatype Buf = Buf(tx: bytes, recs: seq<RespRec>, prev: Option<nat>)

  /** The cells `cs` laid out behind `pre`. */
  ghost predicate Laid(b: Buf, pre: bytes, cs: seq<bytes>) {
    && b.tx == pre + Flatten(cs) && Recorded(b.recs, |pre|, cs)
    && (cs == [] ==> b.prev == None)
    && (cs != [] ==>
          var k := |cs| - 1;
          |cs[k]| >= HDR_LEN && |Flatten(cs[..k])| % 8 == 0 && b.prev == Some(|pre| + |Flatten(cs[..k])|))
  }

  /** The cells with the last one linked as well. */
  function Relinked(cs: seq<bytes>): (ds: seq<bytes>)
    requires cs == [] || |cs[|cs| - 1]| >= HDR_LEN
    ensures |ds| == |cs|
  {
    if cs == [] then [] else cs[..|cs| - 1] + [Link(cs[|cs| - 1])]
  }

  /** Linking twice changes nothing. */
  lemma LinkTwice(r: bytes)
    requires |r| >= HDR_LEN
    ensures Link(Link(r)) == Link(r)
  {
    var c := Link(r);
    PadUp(|c|);
    assert Pad8(|c|) == 0 && c + Zeros(Pad8(|c|)) == c;
    var p := r + Zeros(Pad8(|r|));
    assert c == p[..20] + Le(|p|, 4) + p[24..];
    assert c[..20] == p[..20] && c[24..] == p[24..];
  }

  lemma RelinkedCells(rs: seq<bytes>, silent: bool)
    requires Replies(rs)
    ensures Relinked(Cells(rs, silent)) == Cells(rs, true)
  {
    if rs != [] {
      var k := |rs| - 1;
      SameInit(rs, silent);
      LinkTwice(rs[k]);
      RelinkedOf(Cells(rs, silent), Cells(rs, true)[..k], Link(rs[k]));
      InitLast(Cells(rs, true));
    }
  }

  lemma SameInit(rs: seq<bytes>, silent: bool)
    requires Replies(rs) && rs != []
    ensures var k := |rs| - 1; Cells(rs, silent)[..k] == Cells(rs, true)[..k]
  {
  }

  lemma RelinkedOf(cs: seq<bytes>, init: seq<bytes>, c: bytes)
    requires cs != [] && |cs[|cs| - 1]| >= HDR_LEN && cs[..|cs| - 1] == init && Link(cs[|cs| - 1]) == c
    ensures Relinked(cs) == init + [c]
  {
  }

  lemma SnocCells(rs: seq<bytes>, r: bytes)
    requires Replies(rs) && |r| >= HDR_LEN && Fresh(r)
    ensures Replies(rs + [r]) && Cells(rs + [r], false) == Cells(rs, true) + [r]
  {
  }

  /** Pad what follows `base` to eight bytes and patch the NextCommand of the reply at `prev`. */
  function AlignTx(tx: bytes, base: nat, prev: nat): (r: bytes)
    requires base <= |tx| && prev + 24 <= |tx|
    ensures |r| == base + Up8(|tx| - base)
  {
    var padded := tx + Zeros(Pad8(|tx| - base));
    Patch32(padded, prev + 20, |padded| - prev)
  }

  /** Align the latest reply before the next member writes. */
  method Align(b: Buf, ghost pre: bytes, base: nat, ghost cs: seq<bytes>, ghost start: nat) returns (tx: bytes)
    requires Laid(b, pre, cs) && base == |pre| && StartsAt(|pre|, |b.tx|, start)
    ensures Laid(b.(tx := tx), pre, Relinked(cs)) && |tx| == start
  {
    tx := b.tx;
    if b.prev.Some? {
      AlignExact(b, pre, cs);
      tx := AlignTx(b.tx, base, b.prev.value);
    }
  }

  lemma AlignExact(b: Buf, pre: bytes, cs: seq<bytes>)
    requires Laid(b, pre, cs) && cs != []
    ensures |b.tx| >= |pre| && b.prev.value + 24 <= |b.tx|
    ensures Laid(b.(tx := AlignTx(b.tx, |pre|, b.prev.value)), pre, Relinked(cs))
  {
    var init, last := cs[..|cs| - 1], cs[|cs| - 1];
    AlignBytes(pre, Flatten(init), last);
    FlattenSnoc(init, Link(last));
    RecordedSnoc(b.recs, |pre|, init, Link(last));
  }

  /** The start of a reply does not depend on how long it is. */
  lemma RecordedSnoc(recs: seq<RespRec>, pre: nat, init: seq<bytes>, last: bytes)
    requires |recs| == |init| + 1 && recs[|init|].start == pre + |Flatten(init)| && Recorded(recs[..|init|], pre, init)
    ensures Recorded(recs, pre, init + [last]) && (init + [last])[..|init|] == init
  {
    assert (init + [last])[..|init|] == init;
  }

  lemma AlignBytes(pre: bytes, before: bytes, c: bytes)
    requires |c| >= HDR_LEN && |before| % 8 == 0
    ensures AlignTx(pre + (before + c), |pre|, |pre| + |before|) == pre + (before + Link(c))
  {
    var head, z := pre + before, Zeros(Pad8(|c|));
    PadSame(|before|, |c|);
    Assoc(pre, before, c);
    Assoc(head, c, z);
    PatchBehind(head, c + z, |c + z|);
    Assoc(pre, before, Link(c));
  }

  lemma {:induction false} PadSame(a: nat, b: nat)
    requires a % 8 == 0
    ensures Pad8(a + b) == Pad8(b)
  {
    if a >= 8 { PadSame(a - 8, b); }
  }

  lemma PatchBehind(head: bytes, q: bytes, v: nat)
    requires |q| >= 24
    ensures Patch32(head + q, |head| + 20, v) == head + Patch32(q, 20, v)
  {
  }

  /** A reply's record joins those before; a member that wrote nothing leaves none. */
  ghost predicate Noted(was: seq<RespRec>, now: seq<RespRec>, start: nat, reply: bytes, cmd: nat, sess: nat, key: Option<nat>) {
    now == if reply == [] then was else was + [RespRec(start, cmd, sess, key)]
  }

  /** Append a member's reply, if it wrote one. */
  method Emit(b: Buf, ghost pre: bytes, ghost cs: seq<bytes>, reply: bytes, cmd: nat, sess: nat, key: Option<nat>)
    returns (c: Buf)
    requires Laid(b, pre, cs) && |Flatten(cs)| % 8 == 0 && Fresh(reply)
    ensures Laid(c, pre, Appended(cs, reply))
    ensures |c.tx| == |b.tx| + |reply|
    ensures Noted(b.recs, c.recs, |b.tx|, reply, cmd, sess, key)
  {
    c := b;
    if reply != [] {
      EmitExact(b, pre, cs, reply, RespRec(|b.tx|, cmd, sess, key));
      c := Buf(b.tx + reply, b.recs + [RespRec(|b.tx|, cmd, sess, key)], Some(|b.tx|));
    }
  }

  lemma EmitExact(b: Buf, pre: bytes, cs: seq<bytes>, r: bytes, rec: RespRec)
    requires Laid(b, pre, cs) && |Flatten(cs)| % 8 == 0 && Fresh(r) && r != [] && rec.start == |b.tx|
    ensures Laid(Buf(b.tx + r, b.recs + [rec], Some(|b.tx|)), pre, cs + [r])
  {
    FlattenSnoc(cs, r);
    Assoc(pre, Flatten(cs), r);
    assert (b.recs + [rec])[..|cs|] == b.recs;
    RecordedSnoc(b.recs + [rec], |pre|, cs, r);
  }

  /** Linked cells fill whole multiples of eight bytes. */
  lemma LinkedAligned(rs: seq<bytes>)
    requires Replies(rs)
    ensures |Flatten(Cells(rs, true))| % 8 == 0
  {
    FlatAligned(Cells(rs, true));
  }

  lemma {:induction false} FlatAligned(cs: seq<bytes>)
    requires forall i :: 0 <= i < |cs| ==> |cs[i]| % 8 == 0
    ensures |Flatten(cs)| % 8 == 0
  {
    if cs != [] {
      var k := |cs| - 1;
      FlatAligned(cs[..k]);
      AddEighths(|Flatten(cs[..k])|, |cs[k]|);
    }
  }

  /** The replies so far are `rs`, and `silent` says that the last member wrote none. */
  ghost predicate Dispatched(b: Buf, pre: bytes, rs: seq<bytes>, silent: bool) {
    Replies(rs) && Laid(b, pre, Cells(rs, silent))
  }

  /** The replies with another one, if there is one. */
  function Appended(rs: seq<bytes>, reply: bytes): seq<bytes> {
    if reply == [] then rs else rs + [reply]
  }

  lemma AppendedReplies(rs: seq<bytes>, reply: bytes)
    requires Replies(rs) && Fresh(reply)
    ensures Replies(Appended(rs, reply))
  {
  }

  lemma PlacedCells(rs: seq<bytes>, reply: bytes)
    requires Replies(rs) && Fresh(reply) && Replies(Appended(rs, reply))
    ensures Cells(Appended(rs, reply), reply == []) == Appended(Cells(rs, true), reply)
  {
    if reply != [] { SnocCells(rs, reply); }
  }

  // ------------------------------------------------------------- post-pass

  /** Sign the message at start..end in place. */
  method SignInPlace(tx: bytes, start: nat, end: nat, mac: Mac, key: nat) returns (t: bytes)
    requires IsMac(mac) && start + HDR_LEN <= end <= |tx|
    ensures t == tx[..start] + Signed(mac, key, tx[start..end]) + tx[end..]
  {
    ghost var a, c, z := tx[..start], tx[start..end], tx[end..];
    assert tx == a + c + z;
    FlagInPlace(a, c, z);
    var flags := FromLe(tx[start + 16..start + 20]);
    var f := Patch32(tx, start + 16, OrSigned(flags));
    var sig := mac(key, f[start..end]);
    t := f[..start + 48] + sig + f[start + 64..];
    SignBytes(a, Flagged(c), z, sig);
  }

  lemma FlagInPlace(a: bytes, c: bytes, z: bytes)
    requires |c| >= HDR_LEN
    ensures var tx := a + c + z; tx[|a| + 16..|a| + 20] == c[16..20]
    ensures var tx := a + c + z; var f := Patch32(tx, |a| + 16, OrSigned(FromLe(c[16..20])));
            f == a + Flagged(c) + z && f[|a|..|a| + |c|] == Flagged(c)
  {
  }

  lemma SignBytes(a: bytes, d: bytes, z: bytes, sig: bytes)
    requires |d| >= HDR_LEN && |sig| == 16
    ensures var f := a + d + z; f[..|a| + 48] + sig + f[|a| + 64..] == a + (d[..48] + sig + d[64..]) + z
  {
  }

  /** One element of a flattened list, and the list with that element replaced. */
  lemma SlotBytes(pre: bytes, xs: seq<bytes>, i: nat, y: bytes, tx: bytes, at: nat)
    requires i < |xs| && tx == pre + Flatten(xs) && at == |pre| + |Flatten(xs[..i])|
    ensures at + |xs[i]| <= |tx| && tx[at..at + |xs[i]|] == xs[i]
    ensures tx[..at] + y + tx[at + |xs[i]|..] == pre + Flatten(xs[i := y])
  {
    Around(xs, i);
    AroundNew(xs, i, y);
    Middle(pre, Flatten(xs[..i]), xs[i], Flatten(xs[i + 1..]), y);
  }

  lemma Middle(pre: bytes, a: bytes, x: bytes, z: bytes, y: bytes)
    ensures var tx, s := pre + (a + x + z), |pre| + |a|;
            tx[s..s + |x|] == x && tx[..s] + y + tx[s + |x|..] == pre + (a + y + z)
  {
    assert pre + (a + x + z) == pre + a + x + z;
    assert pre + (a + y + z) == pre + a + y + z;
  }

  lemma AroundNew(xs: seq<bytes>, i: nat, y: bytes)
    requires i < |xs|
    ensures Flatten(xs[i := y]) == Flatten(xs[..i]) + y + Flatten(xs[i + 1..])
  {
    Around(xs[i := y], i);
    assert xs[i := y][..i] == xs[..i] && xs[i := y][i + 1..] == xs[i + 1..];
  }

  lemma Around(xs: seq<bytes>, i: nat)
    requires i < |xs|
    ensures Flatten(xs) == Flatten(xs[..i]) + xs[i] + Flatten(xs[i + 1..])
  {
    Cut(xs, i);
    FlattenAppend(xs[..i] + [xs[i]], xs[i + 1..]);
    FlattenSnoc(xs[..i], xs[i]);
  }

  function Keys(recs: seq<RespRec>, keyNow: nat -> Option<nat>, encrypted: bool): (ks: seq<Option<nat>>)
    ensures |ks| == |recs|
  {
    seq(|recs|, i requires 0 <= i < |recs| => if encrypted then None else KeyOf(keyNow, recs[i]))
  }

  /** The layout after the first `n` replies have been signed. */
  ghost function Partly(cs: seq<bytes>, ans: seq<bytes>, n: nat): (xs: seq<bytes>)
    requires n <= |cs| == |ans|
    ensures |xs| == |cs|
  {
    ans[..n] + cs[n..]
  }

  lemma {:induction false} SameLengths(xs: seq<bytes>, ys: seq<bytes>)
    requires |xs| == |ys| && forall i :: 0 <= i < |xs| ==> |xs[i]| == |ys[i]|
    ensures |Flatten(xs)| == |Flatten(ys)|
  {
    if xs != [] {
      SameLengths(xs[..|xs| - 1], ys[..|ys| - 1]);
    }
  }

  /** `ans` is `cs` with every reply signed whose session has a key. */
  ghost predicate SignedAs(mac: Mac, keys: seq<Option<nat>>, cs: seq<bytes>, ans: seq<bytes>) {
    && |cs| == |ans| == |keys|
    && forall i :: 0 <= i < |cs| ==>
         |cs[i]| >= HDR_LEN && |cs[i]| == |ans[i]| && ans[i] == SignedIf(mac, keys[i], cs[i])
  }

  /** Sign every reply whose session has a key. */
  method SignAll(b: Buf, mac: Mac, keyNow: nat -> Option<nat>, encrypted: bool,
                 ghost pre: bytes, ghost cs: seq<bytes>, ghost ans: seq<bytes>) returns (tx: bytes)
    requires IsMac(mac) && b.tx == pre + Flatten(cs) && Recorded(b.recs, |pre|, cs)
    requires SignedAs(mac, Keys(b.recs, keyNow, encrypted), cs, ans)
    ensures tx == pre + Flatten(ans)
  {
    tx := b.tx;
    assert Partly(cs, ans, 0) == cs;
    for i := 0 to |b.recs|
      invariant tx == pre + Flatten(Partly(cs, ans, i)) && |tx| == |b.tx|
    {
      var end := if i + 1 < |b.recs| then b.recs[i + 1].start else |tx|;
      var key := if encrypted then None else KeyOf(keyNow, b.recs[i]);
      RangeOf(b.recs, |pre|, cs, i);
      tx := SignOne(tx, b.recs[i].start, end, mac, key, pre, cs, ans, i);
    }
    assert Partly(cs, ans, |cs|) == ans;
  }

  method SignOne(tx: bytes, start: nat, end: nat, mac: Mac, key: Option<nat>,
                 ghost pre: bytes, ghost cs: seq<bytes>, ghost ans: seq<bytes>, ghost i: nat) returns (t: bytes)
    requires IsMac(mac) && i < |cs| == |ans| && forall j :: 0 <= j < |cs| ==> |cs[j]| == |ans[j]|
    requires tx == pre + Flatten(Partly(cs, ans, i))
    requires start == |pre| + |Flatten(cs[..i])| && end == start + |cs[i]| && |cs[i]| >= HDR_LEN
    requires ans[i] == SignedIf(mac, key, cs[i])
    ensures t == pre + Flatten(Partly(cs, ans, i + 1)) && |t| == |tx|
  {
    PartlyStep(pre, cs, ans, i, tx, start);
    t := tx;
    if key.Some? {
      t := SignInPlace(tx, start, end, mac, key.value);
    }
  }

  lemma AnswerSigned(mac: Mac, rs: seq<bytes>, keys: seq<Option<nat>>, silent: bool)
    requires IsMac(mac) && |keys| == |rs| && Replies(rs)
    ensures SignedAs(mac, keys, Cells(rs, silent), Answer(mac, rs, keys, silent))
  {
    var cs, ans := Cells(rs, silent), Answer(mac, rs, keys, silent);
    forall i | 0 <= i < |rs|
      ensures |cs[i]| >= HDR_LEN && |cs[i]| == |ans[i]| && ans[i] == SignedIf(mac, keys[i], cs[i])
    {
      AnswerVerifies(mac, rs, keys, silent, i);
    }
  }

  /** Signing the next reply in its place. */
  lemma PartlyStep(pre: bytes, cs: seq<bytes>, ans: seq<bytes>, i: nat, tx: bytes, at: nat)
    requires i < |cs| == |ans| && forall j :: 0 <= j < |cs| ==> |cs[j]| == |ans[j]|
    requires tx == pre + Flatten(Partly(cs, ans, i)) && at == |pre| + |Flatten(cs[..i])|
    ensures at + |cs[i]| <= |tx| && tx[at..at + |cs[i]|] == cs[i]
    ensures tx[..at] + ans[i] + tx[at + |cs[i]|..] == pre + Flatten(Partly(cs, ans, i + 1))
    ensures ans[i] == cs[i] ==> tx == pre + Flatten(Partly(cs, ans, i + 1))
  {
    PartlyParts(cs, ans, i);
    SlotBytes(pre, Partly(cs, ans, i), i, ans[i], tx, at);
  }

  lemma PartlyParts(cs: seq<bytes>, ans: seq<bytes>, i: nat)
    requires i < |cs| == |ans| && forall j :: 0 <= j < |cs| ==> |cs[j]| == |ans[j]|
    ensures var xs := Partly(cs, ans, i);
            && xs[i] == cs[i] && |Flatten(xs[..i])| == |Flatten(cs[..i])|
            && xs[i := ans[i]] == Partly(cs, ans, i + 1) && (ans[i] == cs[i] ==> xs == Partly(cs, ans, i + 1))
  {
    SameLengths(ans[..i], cs[..i]);
    assert Partly(cs, ans, i)[..i] == ans[..i];
  }

  /** A reply ends where the next one starts, the last at the end. */
  lemma RangeOf(recs: seq<RespRec>, pre: nat, cs: seq<bytes>, i: nat)
    requires Recorded(recs, pre, cs) && i < |cs|
    ensures |recs| == |cs| && recs[i].start == pre + |Flatten(cs[..i])|
    ensures recs[i].start + |cs[i]| == if i + 1 < |recs| then recs[i + 1].start else pre + |Flatten(cs)|
  {
    RecordedAt(recs, pre, cs, i);
    EndOf(cs, i);
    if i + 1 < |cs| { RecordedAt(recs, pre, cs, i + 1); }
  }

  lemma EndOf(cs: seq<bytes>, i: nat)
    requires i < |cs|
    ensures |Flatten(cs[..i + 1])| == |Flatten(cs[..i])| + |cs[i]|
    ensures i + 1 == |cs| ==> cs[..i + 1] == cs
  {
    assert cs[..i + 1][..i] == cs[..i];
  }

  // ---------------------------------------------------------- the whole frame

  /** The reply frame for the replies `rs`. */
  function FrameOf(mac: Mac, rs: seq<bytes>, keys: seq<Option<nat>>, silent: bool): bytes
    requires |keys| == |rs| && forall i :: 0 <= i < |rs| ==> |rs[i]| >= HDR_LEN
  {
    if rs == [] then [] else
      var body := Flatten(Answer(mac, rs, keys, silent));
      NbtPrefix(|body|) + body
  }

  /** Drop an empty frame, or stamp its length. */
  function FinishNbt(tx: bytes, base: nat): bytes
    requires base + 4 <= |tx|
  {
    if |tx| == base + 4 then tx[..base] else tx[..base] + NbtPrefix(|tx| - base - 4) + tx[base + 4..]
  }

  lemma FinishExact(tx0: bytes, mac: Mac, rs: seq<bytes>, keys: seq<Option<nat>>, silent: bool, tx: bytes, was: bytes)
    requires IsMac(mac) && Replies(rs) && |keys| == |rs|
    requires tx == tx0 + Zeros(4) + Flatten(Answer(mac, rs, keys, silent)) && was == tx0 + Zeros(4) + Flatten(Cells(rs, silent))
    requires |was| - |tx0| - 4 < COMPOUND_RESP_CAP + REPLY_MAX + 8
    ensures |tx| >= |tx0| + 4 && FinishNbt(tx, |tx0|) == tx0 + FrameOf(mac, rs, keys, silent)
    ensures rs == [] || Framed(FrameOf(mac, rs, keys, silent))
    ensures |FrameOf(mac, rs, keys, silent)| < COMPOUND_RESP_CAP + REPLY_MAX + 12
  {
    BodySize(mac, rs, keys, silent);
    FinishBytes(tx0, Flatten(Answer(mac, rs, keys, silent)));
    FramedIff(Flatten(Answer(mac, rs, keys, silent)));
  }

  lemma BodySize(mac: Mac, rs: seq<bytes>, keys: seq<Option<nat>>, silent: bool)
    requires IsMac(mac) && Replies(rs) && |keys| == |rs|
    ensures |Flatten(Answer(mac, rs, keys, silent))| == |Flatten(Cells(rs, silent))|
    ensures Flatten(Answer(mac, rs, keys, silent)) == [] <==> rs == []
  {
    var cs, ans := Cells(rs, silent), Answer(mac, rs, keys, silent);
    AnswerSigned(mac, rs, keys, silent);
    SameLengths(cs, ans);
    if rs != [] {
      EndOf(cs, |cs| - 1);
    }
  }

  lemma FinishBytes(tx0: bytes, body: bytes)
    ensures var tx := tx0 + Zeros(4) + body;
            FinishNbt(tx, |tx0|) == if body == [] then tx0 else tx0 + (NbtPrefix(|body|) + body)
  {
    var tx := tx0 + Zeros(4) + body;
    assert tx[..|tx0|] == tx0 && tx[|tx0| + 4..] == body;
    assert tx0 + NbtPrefix(|body|) + body == tx0 + (NbtPrefix(|body|) + body);
  }
}
