/** SMB3 encryption (src/smb2/mod.rs, wrap_transform, decrypt_transform and the sealed
    paths of process_frame and build_notify_final; MS-SMB2 section 2.2.41). The
    cipher is a parameter: opening what was sealed gives the plaintext back.
 */
module Transform {
  import opened Wire
  import opened Response
  import opened Frames
  import opened Compound
  import opened Processing

  const TRANSFORM_PROTO: bytes := [0xFD, 0x53, 0x4D, 0x42]
  const TRANSFORM_HDR_LEN := 52
  const U64: nat := 0x1_0000_0000_0000_0000

  /** Key, nonce, associated data and text in; ciphertext and tag out, or the text back. */
  datatype Aead = Aead(
    seal: (bytes, bytes, bytes, bytes) -> (bytes, bytes),
    unseal: (bytes, bytes, bytes, bytes, bytes) -> Option<bytes>,
    nonceLen: nat)

  ghost predicate Good(a: Aead) {
    && a.nonceLen <= 16
    && forall k, n, d, p ::
         var c := a.seal(k, n, d, p);
         |c.0| == |p| && |c.1| == 16 && a.unseal(k, n, d, c.0, c.1) == Some(p)
  }

  /** A channel's keys: `c2s` opens what arrives, `s2c` seals what leaves. */
  datatype Enc = Enc(s2c: bytes, c2s: bytes, ctr: nat)

  function NonceField(ctr: nat): (n: bytes)
    ensures |n| == 16
  {
    Le(ctr, 8) + Zeros(8)
  }

  /** The header from the nonce on: what the tag covers besides the text. */
  function Covered(ctr: nat, size: nat, sid: nat): (d: bytes)
    ensures |d| == 32
  {
    NonceField(ctr) + Le(size, 4) + Le(0, 2) + Le(1, 2) + Le(sid, 8)
  }

  function Message(tag: bytes, covered: bytes, text: bytes): bytes {
    TRANSFORM_PROTO + tag + covered + text
  }

  function Sealed(a: Aead, key: bytes, ctr: nat, plain: bytes, sid: nat): bytes
    requires a.nonceLen <= 16
  {
    var d := Covered(ctr, |plain|, sid);
    var c := a.seal(key, d[..a.nonceLen], d, plain);
    Message(c.1, d, c.0)
  }

  function Decrypt(a: Aead, frame: bytes, key: bytes): Option<bytes>
    requires a.nonceLen <= 16
  {
    if |frame| < TRANSFORM_HDR_LEN || frame[..4] != TRANSFORM_PROTO then None
    else
      var tag, size, d, text := frame[4..20], FromLe(frame[36..40]), frame[20..52], frame[52..];
      if |text| != size then None else a.unseal(key, d[..a.nonceLen], d, text, tag)
  }

  // ------------------------------------------------------------ round trip

  lemma MessageParts(tag: bytes, covered: bytes, text: bytes)
    requires |tag| == 16 && |covered| == 32
    ensures var m := Message(tag, covered, text);
            && |m| == 52 + |text| && m[..4] == TRANSFORM_PROTO && m[4..20] == tag
            && m[20..52] == covered && m[52..] == text && m[36..40] == covered[16..20]
  {
  }

  lemma CoveredSize(ctr: nat, size: nat, sid: nat)
    ensures Covered(ctr, size, sid)[16..20] == Le(size, 4)
    ensures Covered(ctr, size, sid)[24..32] == Le(sid, 8)
    ensures Covered(ctr, size, sid)[..16] == NonceField(ctr)
  {
  }

  /** A sealed message opens to its plaintext under the same key exactly when its length fits
      the 32-bit size field. */
  lemma OpenSealed(a: Aead, key: bytes, ctr: nat, plain: bytes, sid: nat)
    requires Good(a)
    ensures Decrypt(a, Sealed(a, key, ctr, plain, sid), key) == Some(plain) <==> |plain| < 0x1_0000_0000
  {
    var d := Covered(ctr, |plain|, sid);
    var c := a.seal(key, d[..a.nonceLen], d, plain);
    assert |c.0| == |plain| && |c.1| == 16 && a.unseal(key, d[..a.nonceLen], d, c.0, c.1) == Some(plain);
    MessageParts(c.1, d, c.0);
    CoveredSize(ctr, |plain|, sid);
    PowWidths();
    LeRoundTrip(|plain|, 4);
  }

  /** Wrap a message and append it, framed, to `tx`; the nonce counter moves on. */
  method WrapTransform(a: Aead, plain: bytes, enc: Enc, sid: nat, tx: bytes) returns (t: bytes, enc': Enc)
    requires Good(a)
    ensures t == tx + NbtPrefix(TRANSFORM_HDR_LEN + |plain|) + Sealed(a, enc.s2c, enc.ctr + 1, plain, sid)
    ensures enc' == enc.(ctr := enc.ctr + 1)
    ensures |plain| < 0x100_0000 - TRANSFORM_HDR_LEN ==> Framed(t[|tx|..])
  {
    enc' := enc.(ctr := enc.ctr + 1);
    var d := Covered(enc'.ctr, |plain|, sid);
    ghost var c0 := a.seal(enc.s2c, d[..a.nonceLen], d, plain);
    assert |c0.0| == |plain| && |c0.1| == 16;
    var head := tx + Zeros(4) + TRANSFORM_PROTO + Zeros(16) + d;
    var (text, tag) := a.seal(enc.s2c, d[..a.nonceLen], d, plain);
    t := head + text;
    t := t[..|tx| + 8] + tag + t[|tx| + 24..];
    t := t[..|tx|] + NbtPrefix(|t| - |tx| - 4) + t[|tx| + 4..];
    Stamped(tx, d, tag, text);
    FramedIff(Message(tag, d, text));
    assert t[|tx|..] == NbtPrefix(|Message(tag, d, text)|) + Message(tag, d, text);
  }

  lemma Stamped(tx: bytes, d: bytes, tag: bytes, text: bytes)
    requires |d| == 32 && |tag| == 16
    ensures var t := tx + Zeros(4) + TRANSFORM_PROTO + Zeros(16) + d + text;
            var u := t[..|tx| + 8] + tag + t[|tx| + 24..];
            && u[..|tx|] == tx && u[|tx| + 4..] == Message(tag, d, text)
            && |u| - |tx| - 4 == TRANSFORM_HDR_LEN + |text|
  {
    var t := tx + Zeros(4) + TRANSFORM_PROTO + Zeros(16) + d + text;
    assert t[..|tx| + 8] == tx + Zeros(4) + TRANSFORM_PROTO;
    assert t[|tx| + 24..] == d + text;
    var u := t[..|tx| + 8] + tag + t[|tx| + 24..];
    assert u == tx + Zeros(4) + (TRANSFORM_PROTO + tag + d + text);
  }

  /** A field keeps only the low bytes of a value. */
  lemma {:induction false} LeWraps(n: nat, k: nat)
    ensures Le(n, k) == Le(n % Pow256(k), k)
  {
    if k > 0 {
      LeWraps(n / 256, k - 1);
      DivMod(n, Pow256(k - 1));
    }
  }

  lemma DivMod(n: nat, p: nat)
    requires p > 0
    ensures n % (256 * p) % 256 == n % 256 && n % (256 * p) / 256 == n / 256 % p
  {
    var q, r := n / 256, n % 256;
    var a, b := q / p, q % p;
    assert n == 256 * (p * a + b) + r;
    assert n == (256 * p) * a + (256 * b + r);
    ModUnique(n, 256 * p, a, 256 * b + r);
  }

  lemma ModUnique(n: nat, m: nat, a: nat, r: nat)
    requires n == m * a + r && r < m
    ensures n % m == r
  {
    var x := n / m - a;
    assert m * x == r - n % m;
    Multiples(m, x);
  }

  lemma Multiples(m: nat, x: int)
    ensures (x >= 1 ==> m * x >= m) && (x <= -1 ==> m * x <= 0 - m)
  {
    if x >= 1 { assert m * x == m + m * (x - 1); } else if x <= -1 { assert m * x == m * (x + 1) - m; }
  }

  /** The counter is 64 bits wide: two seals have the same nonce exactly when a multiple of 2^64
      seals lies between them. */
  lemma NoncesSame(m: nat, n: nat)
    ensures NonceField(m) == NonceField(n) <==> m % U64 == n % U64
  {
    PowWidths();
    LeWraps(m, 8);
    LeWraps(n, 8);
    LeRoundTrip(m % U64, 8);
    LeRoundTrip(n % U64, 8);
    assert NonceField(m)[..8] == Le(m, 8) && NonceField(n)[..8] == Le(n, 8);
  }

  // ---------------------------------------------------------- a whole frame

  predicate IsTransform(frame: bytes) { |frame| >= 4 && frame[..4] == TRANSFORM_PROTO }

  /** The session a transform header names. */
  function SidOf(frame: bytes): nat
    requires |frame| >= TRANSFORM_HDR_LEN
  {
    FromLe(frame[44..52])
  }

  /** The channel's counter after one seal. */
  function Bump(chans: map<nat, Enc>, sid: nat): map<nat, Enc> {
    if sid in chans then chans[sid := chans[sid].(ctr := chans[sid].ctr + 1)] else chans
  }

  /** The messages a sealed frame carries, if its session's key opens it. */
  function Opened(a: Aead, frame: bytes, keys: map<nat, Enc>): Option<bytes>
    requires a.nonceLen <= 16
  {
    if |frame| >= TRANSFORM_HDR_LEN && SidOf(frame) in keys then Decrypt(a, frame, keys[SidOf(frame)].c2s) else None
  }

  /** The keys a sealed reply goes out under: the channel's, or those the request arrived under
      when the request removed the channel (LOGOFF). */
  function ReplyEnc(keys: map<nat, Enc>, after: map<nat, Enc>, sid: nat): Enc
    requires sid in keys
  {
    if sid in after then after[sid] else keys[sid]
  }

  ghost predicate LegalFrame(a: Aead, frame: bytes, w: World, keys: map<nat, Enc>) {
    && Good(a)
    && (!IsTransform(frame) ==> Legal(w.(encrypted := false), frame))
    && (IsTransform(frame) && Opened(a, frame, keys).Some? ==> Legal(w.(encrypted := true), Opened(a, frame, keys).value))
  }

  /** What a sealed frame comes to when its messages come to `inner`: a reply is sealed, a plan's
      descriptor is closed, and anything but an answer ends the connection. */
  ghost function Resealed(a: Aead, inner: Done, e: Enc, sid: nat): Done
    requires a.nonceLen <= 16
  {
    match inner.action
    case CloseNow => inner.(reply := [], action := CloseNow)
    case RespondClose => inner.(reply := [], action := CloseNow)
    case ZcRead(plan) => inner.(reply := [], action := Respond, closed := inner.closed + [plan.fd])
    case Respond => if |inner.reply| <= 4 then inner.(reply := []) else inner.(reply := SealedFrame(a, inner.reply[4..], e, sid))
  }

  /** A message sealed under the next counter, framed. */
  function SealedFrame(a: Aead, body: bytes, e: Enc, sid: nat): bytes
    requires a.nonceLen <= 16
  {
    NbtPrefix(TRANSFORM_HDR_LEN + |body|) + Sealed(a, e.s2c, e.ctr + 1, body, sid)
  }

  /** What one frame, sealed or not, comes to. `keys` are the channels' keys before it and `after`
      those its handlers leave behind. A sealed frame that does not open ends the connection. */
  ghost function Comes(a: Aead, frame: bytes, w: World, keys: map<nat, Enc>, after: map<nat, Enc>): Done
    requires LegalFrame(a, frame, w, keys)
  {
    if !IsTransform(frame) then Plain(frame, w.(encrypted := false))
    else
      match Opened(a, frame, keys)
      case None => Done([], CloseNow, [], 0)
      case Some(plain) =>
        Resealed(a, Plain(plain, w.(encrypted := true)), ReplyEnc(keys, after, SidOf(frame)), SidOf(frame))
  }

  /** One frame, sealed or not: what it comes to is appended to `tx0`, and a sealed reply moves its
      channel's counter on. */
  method ProcessFrame(a: Aead, frame: bytes, tx0: bytes, w: World, keys: map<nat, Enc>, after: map<nat, Enc>)
    returns (d: Done, tx: bytes, now: map<nat, Enc>)
    requires LegalFrame(a, frame, w, keys)
    ensures d == Comes(a, frame, w, keys, after) && tx == tx0 + d.reply
    ensures now == if IsTransform(frame) && d.reply != [] then Bump(after, SidOf(frame)) else after
  {
    now := after;
    if !IsTransform(frame) {
      d, tx := ProcessPlain(frame, tx0, w.(encrypted := false));
    } else {
      d, tx := Done([], CloseNow, [], 0), tx0;
      var plain := Opened(a, frame, keys);
      if plain.Some? {
        var sid := SidOf(frame);
        d, tx := ProcessSealed(a, plain.value, tx0, w.(encrypted := true), ReplyEnc(keys, after, sid), sid);
        if d.reply != [] { now := Bump(after, sid); }
      }
    }
  }

  method ProcessSealed(a: Aead, plain: bytes, tx0: bytes, w: World, e: Enc, sid: nat) returns (d: Done, tx: bytes)
    requires Good(a) && Legal(w, plain)
    ensures d == Resealed(a, Plain(plain, w), e, sid) && tx == tx0 + d.reply
  {
    var inner, itx := ProcessPlain(plain, [], w);
    d, tx := Reseal(a, inner, tx0, e, sid);
  }

  method Reseal(a: Aead, inner: Done, tx0: bytes, e: Enc, sid: nat) returns (d: Done, tx: bytes)
    requires Good(a)
    ensures d == Resealed(a, inner, e, sid) && tx == tx0 + d.reply
  {
    tx := tx0;
    if inner.action.ZcRead? {
      // the plan's descriptor is closed here, never leaked
      d := Done([], Respond, inner.closed + [inner.action.plan.fd], inner.dups);
    } else if !inner.action.Respond? {
      d := Done([], CloseNow, inner.closed, inner.dups);
    } else if |inner.reply| <= 4 {
      d := Done([], Respond, inner.closed, inner.dups);
    } else {
      tx := SealReply(a, inner.reply[4..], tx0, e, sid);
      d := Done(tx[|tx0|..], Respond, inner.closed, inner.dups);
    }
  }

  /** Append a reply as one sealed frame. */
  method SealReply(a: Aead, body: bytes, tx0: bytes, e: Enc, sid: nat) returns (t: bytes)
    requires Good(a)
    ensures t == tx0 + SealedFrame(a, body, e, sid) && t[|tx0|..] == SealedFrame(a, body, e, sid)
  {
    var bumped;
    t, bumped := WrapTransform(a, body, e, sid, tx0);
    Assoc(tx0, NbtPrefix(TRANSFORM_HDR_LEN + |body|), Sealed(a, e.s2c, e.ctr + 1, body, sid));
  }

  // ------------------------------------------------------ what a client sees

  /** What a frame adds is nothing or one whole frame, and nothing beside a close or a zero-copy READ. */
  lemma FrameFramed(a: Aead, frame: bytes, w: World, keys: map<nat, Enc>, after: map<nat, Enc>)
    requires LegalFrame(a, frame, w, keys)
    ensures var d := Comes(a, frame, w, keys, after);
            && (d.reply == [] || Framed(d.reply)) && (d.action.CloseNow? || d.action.ZcRead? ==> d.reply == [])
            && (d.action.ZcRead? ==> !IsTransform(frame) && Single(frame) && w.disp(0).plan == Some(d.action.plan))
  {
    if !IsTransform(frame) {
      PlainFramed(frame, w.(encrypted := false));
    } else if Opened(a, frame, keys).Some? {
      var inner := Plain(Opened(a, frame, keys).value, w.(encrypted := true));
      PlainFramed(Opened(a, frame, keys).value, w.(encrypted := true));
      if inner.action.Respond? && |inner.reply| > 4 {
        SealedFramed(a, inner.reply[4..], ReplyEnc(keys, after, SidOf(frame)), SidOf(frame));
      }
    }
  }

  lemma SealedFramed(a: Aead, body: bytes, e: Enc, sid: nat)
    requires Good(a) && |body| < 0x100_0000 - TRANSFORM_HDR_LEN
    ensures Framed(SealedFrame(a, body, e, sid))
    ensures Decrypt(a, SealedFrame(a, body, e, sid)[4..], e.s2c) == Some(body)
  {
    var d := Covered(e.ctr + 1, |body|, sid);
    var c := a.seal(e.s2c, d[..a.nonceLen], d, body);
    assert |c.0| == |body| && |c.1| == 16;
    var m := Sealed(a, e.s2c, e.ctr + 1, body, sid);
    MessageParts(c.1, d, c.0);
    FramedIff(m);
    assert SealedFrame(a, body, e, sid)[4..] == m;
    OpenSealed(a, e.s2c, e.ctr + 1, body, sid);
  }

  /** A sealed request is never answered in the clear: the reply opens, under the key of its channel
      or the key a LOGOFF arrived under, to exactly the unsigned reply its messages have, and there
      is one exactly when they have one. */
  lemma SealedAnswers(a: Aead, frame: bytes, w: World, keys: map<nat, Enc>, after: map<nat, Enc>)
    requires LegalFrame(a, frame, w, keys) && IsTransform(frame) && Opened(a, frame, keys).Some?
    ensures var d, inner := Comes(a, frame, w, keys, after), Plain(Opened(a, frame, keys).value, w.(encrypted := true));
            && (d.reply != [] <==> inner.action.Respond? && inner.reply != [])
            && (d.reply != [] ==> Decrypt(a, d.reply[4..], ReplyEnc(keys, after, SidOf(frame)).s2c) == Some(inner.reply[4..]))
  {
    var plain := Opened(a, frame, keys).value;
    var inner := Plain(plain, w.(encrypted := true));
    PlainFramed(plain, w.(encrypted := true));
    if inner.action.Respond? && inner.reply != [] {
      NoEmptyReply(plain, w.(encrypted := true));
      SealedFramed(a, inner.reply[4..], ReplyEnc(keys, after, SidOf(frame)), SidOf(frame));
    }
  }

  /** A reply frame holds at least one message. */
  lemma NoEmptyReply(frame: bytes, w: World)
    requires Legal(w, frame) && w.encrypted && Plain(frame, w).action.Respond? && Plain(frame, w).reply != []
    ensures |Plain(frame, w).reply| > 4
  {
    var cs := PlainAnswers(frame, w);
    var k := |cs| - 1;
    assert |Flatten(cs)| >= |cs[k]|;
  }

  /** Whatever becomes of a frame, every descriptor duplicated for it is closed exactly once or
      leaves with the plan. */
  lemma FrameFds(a: Aead, frame: bytes, w: World, keys: map<nat, Enc>, after: map<nat, Enc>, serial: nat)
    requires LegalFrame(a, frame, w, keys)
    requires !IsTransform(frame) ==> Owned(Members(frame, w.disp), serial)
    requires IsTransform(frame) && Opened(a, frame, keys).Some? ==> Owned(Members(Opened(a, frame, keys).value, w.disp), serial)
    ensures var d := Comes(a, frame, w, keys, after); EachOnce(d.closed + PlanFds(ActionPlan(d.action)), serial, d.dups)
  {
    if !IsTransform(frame) {
      PlainFds(frame, w.(encrypted := false), serial);
    } else if Opened(a, frame, keys).Some? {
      PlainFds(Opened(a, frame, keys).value, w.(encrypted := true), serial);
      var d, inner := Comes(a, frame, w, keys, after), Plain(Opened(a, frame, keys).value, w.(encrypted := true));
      assert d.closed + PlanFds(ActionPlan(d.action)) == inner.closed + PlanFds(ActionPlan(inner.action));
    }
  }

  // -------------------------------------------------------- every run

  type Key = bytes

  /** One connection's encrypting channels, and for every key the counters it has sealed under. */
  datatype Net = Net(chans: map<nat, Enc>, used: map<Key, seq<nat>>)

  function UsedOf(s: Net, k: Key): seq<nat> { if k in s.used then s.used[k] else [] }

  ghost predicate Increasing(l: seq<nat>) { forall i, j :: 0 <= i < j < |l| ==> l[i] < l[j] }

  /** Frame processing changes channels by removing them or by giving them newly derived keys;
      it never touches a counter. `derived` are keys not used before. */
  ghost predicate Processed(s: Net, chans: map<nat, Enc>) {
    && (forall sid :: sid in chans ==>
          (sid in s.chans && chans[sid] == s.chans[sid]) || (chans[sid].ctr == 0 && NewKey(s, chans[sid].s2c)))
    && (forall a, b :: a in chans && b in chans && chans[a].s2c == chans[b].s2c ==> a == b)
  }

  ghost predicate NewKey(s: Net, k: Key) {
    k !in s.used && forall sid :: sid in s.chans ==> s.chans[sid].s2c != k
  }

  datatype Step =
    | OnPlain(chans: map<nat, Enc>)                  // an unsealed frame
    | OnSealed(sid: nat, chans: map<nat, Enc>, reply: bool)  // a sealed frame, perhaps answered
    | OnNotify(sid: nat)                             // a sealed notify completion

  ghost predicate Enabled(s: Net, st: Step) {
    match st
    case OnPlain(chans) => Processed(s, chans)
    case OnSealed(sid, chans, _) => sid in s.chans && Processed(s, chans)
    case OnNotify(sid) => sid in s.chans
  }

  /** The counter is logged when it seals. */
  function Log(s: Net, e: Enc): map<Key, seq<nat>> { s.used[e.s2c := UsedOf(s, e.s2c) + [e.ctr + 1]] }

  ghost function Do(s: Net, st: Step): Net
    requires Enabled(s, st)
  {
    match st
    case OnPlain(chans) => s.(chans := chans)
    case OnSealed(sid, chans, reply) =>
      if reply then Net(Bump(chans, sid), Log(s, ReplyEnc(s.chans, chans, sid))) else s.(chans := chans)
    case OnNotify(sid) => Net(Bump(s.chans, sid), Log(s, s.chans[sid]))
  }

  ghost predicate Inv(s: Net) {
    && (forall k :: k in s.used ==> Increasing(s.used[k]))
    && (forall sid, n :: sid in s.chans && s.chans[sid].s2c in s.used && n in s.used[s.chans[sid].s2c] ==> n <= s.chans[sid].ctr)
    && (forall a, b :: a in s.chans && b in s.chans && s.chans[a].s2c == s.chans[b].s2c ==> a == b)
  }

  lemma ProcessedKept(s: Net, chans: map<nat, Enc>)
    requires Inv(s) && Processed(s, chans)
    ensures Inv(s.(chans := chans))
  {
  }

  /** Sealing under a counter that no earlier use of the key exceeds keeps the log increasing. */
  lemma SealKept(s: Net, e: Enc)
    requires Inv(s) && forall n :: n in UsedOf(s, e.s2c) ==> n <= e.ctr
    ensures forall k :: k in Log(s, e) ==> Increasing(Log(s, e)[k])
  {
    var l := UsedOf(s, e.s2c);
    assert Increasing(l);
    var l' := l + [e.ctr + 1];
    forall i, j | 0 <= i < j < |l'| ensures l'[i] < l'[j] {
      if j == |l| { assert l[i] in l; }
    }
  }

  lemma StepKept(s: Net, st: Step)
    requires Inv(s) && Enabled(s, st)
    ensures Inv(Do(s, st))
  {
    match st
    case OnPlain(chans) => ProcessedKept(s, chans);
    case OnSealed(sid, chans, reply) =>
      ProcessedKept(s, chans);
      if reply { SendKept(s, s.(chans := chans), sid, ReplyEnc(s.chans, chans, sid)); }
    case OnNotify(sid) => SendKept(s, s, sid, s.chans[sid]);
  }

  /** Sealing with the keys of `sid`, live in `m` or just removed. */
  lemma SendKept(s: Net, m: Net, sid: nat, e: Enc)
    requires Inv(s) && Inv(m) && m.used == s.used && sid in s.chans
    requires if sid in m.chans then e == m.chans[sid] else e == s.chans[sid] && forall t :: t in m.chans ==> m.chans[t].s2c != e.s2c
    ensures Inv(Net(Bump(m.chans, sid), Log(s, e)))
  {
    assert forall n :: n in UsedOf(s, e.s2c) ==> n <= e.ctr;
    SealKept(s, e);
  }

  ghost predicate Reaches(steps: seq<Step>, s: Net) {
    if steps == [] then s == Net(map[], map[])
    else
      var k := |steps| - 1;
      exists p :: Reaches(steps[..k], p) && Enabled(p, steps[k]) && s == Do(p, steps[k])
  }

  /** In every run the counters sealed under one key strictly increase, so no nonce repeats. */
  lemma {:induction false} NoncesIncrease(steps: seq<Step>, s: Net, k: Key)
    requires Reaches(steps, s)
    ensures Inv(s) && Increasing(UsedOf(s, k))
  {
    if steps != [] {
      var i := |steps| - 1;
      var p :| Reaches(steps[..i], p) && Enabled(p, steps[i]) && s == Do(p, steps[i]);
      NoncesIncrease(steps[..i], p, k);
      StepKept(p, steps[i]);
    }
  }
}
