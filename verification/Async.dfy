/** Frames that answer no request at once (src/smb2/mod.rs, build_notify_final and build_lease_break):
    the final response to a CHANGE_NOTIFY and the notification of a lease break, signed or sealed.
    Each is one whole frame, and a client reads out of it what was put in.
 */
module Async {
  import opened Wire
  import opened Response
  import opened Frames
  import opened Transform

  const CMD_CHANGE_NOTIFY := 15
  const CMD_OPLOCK_BREAK := 18
  const FLAG_ASYNC := 2
  const NOTIFY_ENUM_DIR := 0x10C
  const NOTIFICATION_ID := 0xFFFF_FFFF_FFFF_FFFF

  // ---------------------------------------------------------------- events

  /** A change to a directory: what happened, and the name in UTF-16. */
  datatype Event = Event(action: nat, name: bytes)

  function Pad4(n: nat): nat { (4 - n % 4) % 4 }

  function EventRec(next: nat, e: Event): (r: bytes)
    ensures |r| == 12 + |e.name|
  {
    Le(next, 4) + Le(e.action, 4) + Le(|e.name|, 4) + e.name
  }

  /** An event that is followed by another: padded to four bytes, NextEntryOffset its length. */
  function LinkedEvent(e: Event): (r: bytes)
    ensures |r| >= 12 + |e.name| && |r| == 12 + |e.name| + Pad4(|e.name|)
  {
    EventRec(12 + |e.name| + Pad4(|e.name|), e) + Zeros(Pad4(|e.name|))
  }

  function EventData(es: seq<Event>): bytes {
    if es == [] then []
    else if |es| == 1 then EventRec(0, es[0])
    else LinkedEvent(es[0]) + EventData(es[1..])
  }

  /** What a client reads along NextEntryOffset. */
  function ReadEvents(b: bytes): seq<Event>
    decreases |b|
  {
    if |b| < 12 then []
    else
      var next, n := FromLe(b[..4]), FromLe(b[8..12]);
      var e := Event(FromLe(b[4..8]), if 12 + n <= |b| then b[12..12 + n] else []);
      if next == 0 || next > |b| then [e] else [e] + ReadEvents(b[next..])
  }

  predicate Fits(e: Event) { e.action < 0x1_0000_0000 && |e.name| < 0xFFFF_FF00 }

  lemma EventParts(next: nat, e: Event, rest: bytes)
    requires Fits(e) && next < 0x1_0000_0000
    ensures var b := EventRec(next, e) + rest;
            && FromLe(b[..4]) == next && FromLe(b[4..8]) == e.action && FromLe(b[8..12]) == |e.name|
            && b[12..12 + |e.name|] == e.name
  {
    var b := EventRec(next, e) + rest;
    PowWidths();
    LeRoundTrip(next, 4);
    LeRoundTrip(e.action, 4);
    LeRoundTrip(|e.name|, 4);
    assert b[..4] == Le(next, 4) && b[4..8] == Le(e.action, 4) && b[8..12] == Le(|e.name|, 4);
  }

  /** A client reads exactly the events that were written, in order. */
  lemma {:induction false} EventsRead(es: seq<Event>)
    requires forall i :: 0 <= i < |es| ==> Fits(es[i])
    ensures ReadEvents(EventData(es)) == es
  {
    if |es| == 1 {
      EventParts(0, es[0], []);
      assert EventRec(0, es[0]) + [] == EventData(es);
    } else if |es| > 1 {
      var e, rest := es[0], EventData(es[1..]);
      var p := Pad4(|e.name|);
      var next := 12 + |e.name| + p;
      EventParts(next, e, Zeros(p) + rest);
      Assoc(EventRec(next, e), Zeros(p), rest);
      assert EventData(es)[next..] == rest;
      EventsRead(es[1..]);
    }
  }

  // ------------------------------------------------------ notify completions

  /** The request an asynchronous response completes. */
  datatype Meta = Meta(msgId: nat, creditCharge: nat, sessionId: nat, asyncId: nat, wantSign: bool)

  /** The header of an asynchronous response. */
  function BeginRespAsync(m: Meta, st: nat, credits: nat, cmd: nat): (r: bytes)
    ensures |r| == HDR_LEN
  {
    PROTOCOL_ID + Le(64, 2) + Le(m.creditCharge, 2) + Le(st, 4) + Le(cmd, 2) + Le(credits, 2)
    + Le(FLAG_RESPONSE + FLAG_ASYNC, 4) + Le(0, 4) + Le(m.msgId, 8) + Le(m.asyncId, 8) + Le(m.sessionId, 8) + Zeros(16)
  }

  /** How an asynchronous frame leaves: the MAC and the session's signing key, if it has one, and
      the channel's cipher and keys, if it encrypts. */
  datatype Cover = Cover(mac: Mac, key: Option<nat>, seal: Option<(Aead, Enc)>)

  predicate NonceFits(c: Cover) { c.seal.Some? ==> c.seal.value.0.nonceLen <= 16 }

  ghost predicate Sound(c: Cover) { IsMac(c.mac) && (c.seal.Some? ==> Good(c.seal.value.0)) }

  /** The events are told when there are some and they fit the client's buffer; else the client is
      told to read the directory again, or why the request ended. */
  function Told(st: nat, es: seq<Event>, outLen: nat): bool {
    st == STATUS_SUCCESS && es != [] && |EventData(es)| <= outLen
  }

  function NotifyBody(m: Meta, st: nat, es: seq<Event>, outLen: nat): bytes {
    if Told(st, es, outLen) then
      BeginRespAsync(m, st, 0, CMD_CHANGE_NOTIFY) + (Le(9, 2) + Le(72, 2) + Le(|EventData(es)|, 4) + EventData(es))
    else
      BeginRespAsync(m, if st == STATUS_SUCCESS then NOTIFY_ENUM_DIR else st, 0, CMD_CHANGE_NOTIFY) + ErrBody()
  }

  /** Frame a message, sealed where the channel encrypts. */
  function Framing(c: Cover, sid: nat, msg: bytes): bytes
    requires NonceFits(c)
  {
    if c.seal.Some? then SealedFrame(c.seal.value.0, msg, c.seal.value.1, sid) else NbtPrefix(|msg|) + msg
  }

  function NotifyMessage(c: Cover, m: Meta, st: nat, es: seq<Event>, outLen: nat): bytes {
    var body := NotifyBody(m, st, es, outLen);
    SignedIf(c.mac, if m.wantSign then c.key else None, body)
  }

  /** The final response to a CHANGE_NOTIFY. */
  function NotifyFinal(c: Cover, m: Meta, st: nat, es: seq<Event>, outLen: nat): bytes
    requires NonceFits(c)
  {
    Framing(c, m.sessionId, NotifyMessage(c, m, st, es, outLen))
  }

  lemma BodyShape(m: Meta, st: nat, es: seq<Event>, outLen: nat)
    requires outLen <= MAX_TRANSACT
    ensures var b := NotifyBody(m, st, es, outLen);
            HDR_LEN <= |b| <= HDR_LEN + 9 + MAX_TRANSACT && b[48..64] == Zeros(16)
    ensures Told(st, es, outLen) ==> NotifyBody(m, st, es, outLen)[72..] == EventData(es)
  {
    var b := NotifyBody(m, st, es, outLen);
    assert b[48..64] == Zeros(16);
  }

  lemma FramingWhole(c: Cover, sid: nat, msg: bytes)
    requires Sound(c) && |msg| < 0x100_0000 - TRANSFORM_HDR_LEN
    ensures Framed(Framing(c, sid, msg))
    ensures c.seal.Some? ==> Decrypt(c.seal.value.0, Framing(c, sid, msg)[4..], c.seal.value.1.s2c) == Some(msg)
    ensures c.seal.None? ==> Framing(c, sid, msg)[4..] == msg
  {
    if c.seal.Some? {
      SealedFramed(c.seal.value.0, msg, c.seal.value.1, sid);
    } else {
      FramedIff(msg);
    }
  }

  /** A final response is one whole frame; the message in it, once opened, verifies when the request
      was signed and the session has a key, and tells exactly the events when they are told. */
  lemma NotifyFinalReads(c: Cover, m: Meta, st: nat, es: seq<Event>, outLen: nat)
    requires Sound(c) && outLen <= MAX_TRANSACT && forall i :: 0 <= i < |es| ==> Fits(es[i])
    ensures var f, msg := NotifyFinal(c, m, st, es, outLen), NotifyMessage(c, m, st, es, outLen);
            && Framed(f)
            && (if c.seal.Some? then Decrypt(c.seal.value.0, f[4..], c.seal.value.1.s2c) == Some(msg) else f[4..] == msg)
            && (m.wantSign && c.key.Some? ==> Verifies(c.mac, c.key.value, msg))
            && (Told(st, es, outLen) ==> |msg| >= 72 && ReadEvents(msg[72..]) == es)
  {
    var body := NotifyBody(m, st, es, outLen);
    BodyShape(m, st, es, outLen);
    if m.wantSign && c.key.Some? { SignVerifies(c.mac, c.key.value, body); SignedTail(c.mac, c.key.value, body); }
    FramingWhole(c, m.sessionId, NotifyMessage(c, m, st, es, outLen));
    if Told(st, es, outLen) { EventsRead(es); }
  }

  /** Signing touches only the header. */
  lemma SignedTail(mac: Mac, key: nat, b: bytes)
    requires IsMac(mac) && |b| >= 72
    ensures |Signed(mac, key, b)| == |b| && Signed(mac, key, b)[72..] == b[72..]
  {
    var d := Flagged(b);
    assert |mac(key, d)| == 16 && d[64..] == b[64..];
    assert Signed(mac, key, b)[64..] == d[64..];
    assert Signed(mac, key, b)[72..] == d[64..][8..] && b[72..] == b[64..][8..];
  }

  // ----------------------------------------------------------- lease breaks

  /** What a lease break tells its holder. */
  datatype Break = Break(leaseKey: bytes, cur: nat, new_: nat, epoch: nat, sessionId: nat)

  function BreakBody(b: Break): (r: bytes)
    ensures |r| == 28 + |b.leaseKey|
    ensures r[8..8 + |b.leaseKey|] == b.leaseKey
  {
    Le(44, 2) + Le(b.epoch, 2) + Le(0, 4) + b.leaseKey + (Le(b.cur, 4) + Le(b.new_, 4) + Le(0, 4) + Le(0, 4) + Le(0, 4))
  }

  function BreakMessage(b: Break): (m: bytes)
    ensures |m| == HDR_LEN + |BreakBody(b)|
  {
    BeginResp(ReqHdr(0, CMD_OPLOCK_BREAK, 0, 0, 0, NOTIFICATION_ID, 0, b.sessionId), STATUS_SUCCESS, false, 0, b.sessionId)
    + BreakBody(b)
  }

  /** The notification of a lease break, signed when the session has a key. */
  function LeaseBreak(mac: Mac, key: Option<nat>, b: Break): bytes {
    var msg := SignedIf(mac, key, BreakMessage(b));
    NbtPrefix(|msg|) + msg
  }

  /** It is one whole frame that names the lease, and verifies under the session's key. */
  lemma LeaseBreakReads(mac: Mac, key: Option<nat>, b: Break)
    requires IsMac(mac) && |b.leaseKey| == 16
    ensures var f := LeaseBreak(mac, key, b);
            && Framed(f) && |f| == 112 && f[4..][72..88] == b.leaseKey
            && (key.Some? ==> Verifies(mac, key.value, f[4..]))
  {
    var m := BreakMessage(b);
    BreakParts(b);
    var msg := SignedIf(mac, key, m);
    if key.Some? { SignVerifies(mac, key.value, m); SignedTail(mac, key.value, m); }
    FramedIff(msg);
    assert LeaseBreak(mac, key, b)[4..] == msg;
    assert msg[72..88] == msg[72..][..16] && m[72..88] == m[72..][..16];
  }

  lemma BreakParts(b: Break)
    requires |b.leaseKey| == 16
    ensures var m := BreakMessage(b); |m| == 108 && m[48..64] == Zeros(16) && m[72..88] == b.leaseKey
  {
    var h := ReqHdr(0, CMD_OPLOCK_BREAK, 0, 0, 0, NOTIFICATION_ID, 0, b.sessionId);
    BeginRespFresh(h, STATUS_SUCCESS, false, 0, b.sessionId, BreakBody(b));
    assert BreakMessage(b)[72..88] == BreakBody(b)[8..24];
  }
}
