/** SPNEGO tokens (src/spnego.rs; RFC 4178 sections 4.2.1 and 4.2.2; ITU-T X.690
    section 8.1.3): the DER printer and parser and the classification of an
    inbound security blob.
 */
module Spnego {
  import opened Wire

  const OID_SPNEGO: bytes := [0x2B, 0x06, 0x01, 0x05, 0x05, 0x02]
  const OID_NTLMSSP: bytes := [0x2B, 0x06, 0x01, 0x04, 0x01, 0x82, 0x37, 0x02, 0x02, 0x0A]
  const OID_KRB5: bytes := [0x2A, 0x86, 0x48, 0x86, 0xF7, 0x12, 0x01, 0x02, 0x02]
  const OID_MS_KRB5: bytes := [0x2A, 0x86, 0x48, 0x82, 0xF7, 0x12, 0x01, 0x02, 0x02]

  /** The eight bytes "NTLMSSP" and a zero. */
  const NTLM_SIG: bytes := [0x4E, 0x54, 0x4C, 0x4D, 0x53, 0x53, 0x50, 0x00]

  datatype Mech = Krb5 | Ntlmssp | Unknown

  function FromOid(oid: bytes): Mech {
    if oid == OID_KRB5 || oid == OID_MS_KRB5 then Krb5
    else if oid == OID_NTLMSSP then Ntlmssp
    else Unknown
  }

  /** The identifier written for a mechanism. */
  function ToOid(m: Mech): bytes {
    match m
    case Krb5 => OID_KRB5
    case Ntlmssp => OID_NTLMSSP
    case Unknown => []
  }

  lemma OidRoundTrip(m: Mech)
    ensures FromOid(ToOid(m)) == m && |ToOid(m)| <= 10
  {
    if m.Ntlmssp? {
      assert |OID_NTLMSSP| == 10 && |OID_KRB5| == 9 && |OID_MS_KRB5| == 9;
    }
  }

  // ------------------------------------------------------------------- DER

  /** The length field: one byte, or one or two bytes after a marker. A longer
      content loses the high bits of its length. */
  function LenField(n: nat): (s: bytes)
    ensures 1 <= |s| <= 3
  {
    if n < 128 then [n]
    else if n < 256 then [0x81, n]
    else [0x82, n / 256 % 256, n % 256]
  }

  function Der(tag: byte, content: bytes): (s: bytes)
    ensures |content| + 2 <= |s| <= |content| + 4
  {
    [tag] + LenField(|content|) + content
  }

  datatype Tlv = Tlv(tag: byte, val: bytes, len: nat)

  /** The header size and content length announced at the front of `buf`. */
  function Announced(buf: bytes): Option<(nat, nat)> {
    if |buf| < 2 then None
    else if buf[1] < 0x80 then Some((2, buf[1] as int))
    else if buf[1] == 0x81 then (if |buf| < 3 then None else Some((3, buf[2] as int)))
    else if buf[1] == 0x82 then (if |buf| < 4 then None else Some((4, buf[2] as int * 256 + buf[3] as int)))
    else None
  }

  function ParseTlv(buf: bytes): (r: Option<Tlv>)
    ensures r.Some? ==> 2 <= r.value.len <= |buf| && |r.value.val| + 2 <= r.value.len && |r.value.val| < 0x1_0000
  {
    match Announced(buf)
    case None => None
    case Some(a) =>
      if a.0 + a.1 > |buf| then None else Some(Tlv(buf[0], buf[a.0..a.0 + a.1], a.0 + a.1))
  }

  /** What the parser reads back from a printed length. */
  lemma AnnouncedDer(tag: byte, c: bytes, rest: bytes)
    ensures Announced(Der(tag, c) + rest) == Some((1 + |LenField(|c|)|, if |c| < 256 then |c| else |c| % 0x1_0000))
  {
    var b := Der(tag, c) + rest;
    var l := LenField(|c|);
    assert forall i :: 0 <= i < |l| ==> b[i + 1] == l[i];
    assert b[1] == l[0];
    if |c| >= 128 { assert b[2] == l[1]; }
    if |c| >= 256 {
      assert b[3] == l[2];
      assert |c| / 256 % 256 * 256 + |c| % 256 == |c| % 0x1_0000;
    }
  }

  /** The parser inverts the printer, whatever follows, exactly when the length fits 16 bits. */
  lemma TlvDer(tag: byte, c: bytes, rest: bytes)
    ensures ParseTlv(Der(tag, c) + rest) == Some(Tlv(tag, c, |Der(tag, c)|)) <==> |c| < 0x1_0000
  {
    var b := Der(tag, c) + rest;
    AnnouncedDer(tag, c, rest);
    var h := 1 + |LenField(|c|)|;
    if |c| < 0x1_0000 {
      assert b[h..h + |c|] == c;
    }
  }

  /** The elements at the front of `buf`, up to the first that does not parse. */
  function Children(buf: bytes): seq<Tlv>
    decreases |buf|
  {
    var t := ParseTlv(buf);
    if t.None? then [] else [t.value] + Children(buf[t.value.len..])
  }

  lemma ChildrenDer(tag: byte, c: bytes, rest: bytes)
    requires |c| < 0x1_0000
    ensures Children(Der(tag, c) + rest) == [Tlv(tag, c, |Der(tag, c)|)] + Children(rest)
  {
    TlvDer(tag, c, rest);
    assert (Der(tag, c) + rest)[|Der(tag, c)|..] == rest;
  }

  lemma TlvOnly(tag: byte, c: bytes)
    requires |c| < 0x1_0000
    ensures ParseTlv(Der(tag, c)) == Some(Tlv(tag, c, |Der(tag, c)|))
    ensures Children(Der(tag, c)) == [Tlv(tag, c, |Der(tag, c)|)]
  {
    TlvDer(tag, c, []);
    ChildrenDer(tag, c, []);
    assert Der(tag, c) + [] == Der(tag, c);
    assert Children([]) == [];
  }

  // ------------------------------------------------------- classification

  datatype Incoming = Incoming(mech: Mech, spnego: bool, token: bytes)

  function Starts(s: bytes, p: bytes): bool { p <= s }

  function FirstKnown(ts: seq<Tlv>): Mech {
    if ts == [] then Unknown
    else if ts[0].tag == 0x06 && FromOid(ts[0].val) != Unknown then FromOid(ts[0].val)
    else FirstKnown(ts[1..])
  }

  /** The element `b` holds, if it has the wanted tag. */
  function Inside(b: bytes, tag: byte): (r: Option<bytes>)
    ensures r.Some? ==> |r.value| <= |b|
  {
    var t := ParseTlv(b);
    if t.Some? && t.value.tag == tag then Some(t.value.val) else None
  }

  datatype Found = Found(mech: Mech, token: bytes)

  const NOTHING := Found(Unknown, [])

  function InitField(a: Found, f: Tlv): Found {
    if f.tag == 0xA0 then
      match Inside(f.val, 0x30)
      case Some(list) => (var m := FirstKnown(Children(list)); if m != Unknown then a.(mech := m) else a)
      case None => a
    else if f.tag == 0xA2 then
      match Inside(f.val, 0x04)
      case Some(os) => a.(token := os)
      case None => a
    else a
  }

  function InitFields(a: Found, fs: seq<Tlv>): Found
    decreases |fs|
  {
    if fs == [] then a else InitFields(InitField(a, fs[0]), fs[1..])
  }

  function NegInit(body: bytes): Incoming {
    match Inside(body, 0x30)
    case None => Incoming(Unknown, true, [])
    case Some(s) => (var a := InitFields(NOTHING, Children(s)); Incoming(a.mech, true, a.token))
  }

  function RespField(a: Found, f: Tlv): Found {
    if f.tag == 0xA1 then
      match Inside(f.val, 0x06)
      case Some(oid) => a.(mech := FromOid(oid))
      case None => a
    else if f.tag == 0xA2 then
      match Inside(f.val, 0x04)
      case Some(os) => a.(token := os)
      case None => a
    else a
  }

  function RespFields(a: Found, fs: seq<Tlv>): Found
    decreases |fs|
  {
    if fs == [] then a else RespFields(RespField(a, fs[0]), fs[1..])
  }

  /** Guess the mechanism from the token when the reply names none. */
  function Sniff(a: Found): Mech {
    if a.mech != Unknown then a.mech
    else if Starts(a.token, NTLM_SIG) then Ntlmssp
    else if a.token != [] && a.token[0] == 0x60 then Krb5
    else Unknown
  }

  function NegResp(blob: bytes): Incoming {
    match Inside(blob, 0xA1)
    case None => Incoming(Unknown, true, [])
    case Some(outer) =>
      match Inside(outer, 0x30)
      case None => Incoming(Unknown, true, [])
      case Some(s) => (var a := RespFields(NOTHING, Children(s)); Incoming(Sniff(a), true, a.token))
  }

  /** A GSS token by its leading identifier: SPNEGO is unwrapped, any other mechanism's token
      is passed on whole. */
  function ByOid(kids: seq<Tlv>, blob: bytes): Incoming {
    if kids == [] || kids[0].tag != 0x06 then Incoming(Unknown, false, blob)
    else if kids[0].val != OID_SPNEGO then Incoming(FromOid(kids[0].val), false, blob)
    else if |kids| > 1 then NegInit(kids[1].val)
    else Incoming(Unknown, false, blob)
  }

  function Gss(blob: bytes): Incoming {
    match ParseTlv(blob)
    case None => Incoming(Unknown, false, blob)
    case Some(t) => ByOid(Children(t.val), blob)
  }

  function Classify(blob: bytes): Incoming {
    if blob != [] && blob[0] == 0x60 then Gss(blob)
    else if blob != [] && blob[0] == 0xA1 then NegResp(blob)
    else if Starts(blob, NTLM_SIG) then Incoming(Ntlmssp, false, blob)
    else Incoming(Unknown, false, blob)
  }

  // -------------------------------------------------------------- printers

  function MakeResp(state: byte, mech: Mech, token: bytes): bytes {
    Der(0xA1, Der(0x30, RespInner(state, mech, token)))
  }

  function RespInner(state: byte, mech: Mech, token: bytes): bytes {
    Der(0xA0, [0x0A, 0x01, state]) + (MechField(mech) + TokenField(token))
  }

  function MechField(mech: Mech): bytes {
    if ToOid(mech) == [] then [] else Der(0xA1, Der(0x06, ToOid(mech)))
  }

  function TokenField(token: bytes): bytes {
    if token == [] then [] else Der(0xA2, Der(0x04, token))
  }

  function Oids(mechs: seq<Mech>): bytes {
    if mechs == [] then []
    else OidField(mechs[0]) + Oids(mechs[1..])
  }

  function OidField(m: Mech): bytes {
    if m.Unknown? then [] else Der(0x06, ToOid(m))
  }

  const HINTS: bytes := Der(0xA3, Der(0x30, Der(0xA0, Der(0x1B, HINT_TEXT))))

  /** The text Windows expects in negHints: not_defined_in_RFC4178@please_ignore. */
  const HINT_TEXT: bytes := [
    0x6E, 0x6F, 0x74, 0x5F, 0x64, 0x65, 0x66, 0x69, 0x6E, 0x65, 0x64, 0x5F, 0x69, 0x6E, 0x5F, 0x52, 0x46, 0x43,
    0x34, 0x31, 0x37, 0x38, 0x40, 0x70, 0x6C, 0x65, 0x61, 0x73, 0x65, 0x5F, 0x69, 0x67, 0x6E, 0x6F, 0x72, 0x65]

  /** An initial token: the mechanism list followed by other fields. */
  function InitBody(mechs: seq<Mech>, more: bytes): bytes {
    Der(0x06, OID_SPNEGO) + Der(0xA0, Der(0x30, Der(0xA0, Der(0x30, Oids(mechs))) + more))
  }

  function Hint(mechs: seq<Mech>): bytes {
    if mechs == [] then [] else Der(0x60, InitBody(mechs, HINTS))
  }

  function FirstOf(mechs: seq<Mech>): Mech {
    if mechs == [] then Unknown else if !mechs[0].Unknown? then mechs[0] else FirstOf(mechs[1..])
  }

  // ------------------------------------------------------------ round trips

  lemma {:induction false} FirstKnownOids(mechs: seq<Mech>)
    ensures FirstKnown(Children(Oids(mechs))) == FirstOf(mechs)
  {
    if mechs == [] {
      assert Children([]) == [];
    } else if mechs[0].Unknown? {
      assert Oids(mechs) == Oids(mechs[1..]);
      FirstKnownOids(mechs[1..]);
    } else {
      OidRoundTrip(mechs[0]);
      ChildrenDer(0x06, ToOid(mechs[0]), Oids(mechs[1..]));
    }
  }

  /** Reading an initial token: the first mechanism both sides know, and whatever
      the fields after the list say. */
  lemma InitRoundTrip(mechs: seq<Mech>, more: bytes)
    requires |InitBody(mechs, more)| < 0x1_0000
    ensures var a := InitFields(Found(FirstOf(mechs), []), Children(more));
            Classify(Der(0x60, InitBody(mechs, more))) == Incoming(a.mech, true, a.token)
  {
    InitNeg(mechs, more);
    InitCore(Der(0x30, Der(0xA0, Der(0x30, Oids(mechs))) + more));
  }

  /** A blob that starts with the SPNEGO identifier is read as an initial token. */
  lemma InitCore(neg: bytes)
    requires |Der(0x06, OID_SPNEGO) + Der(0xA0, neg)| < 0x1_0000
    ensures Classify(Der(0x60, Der(0x06, OID_SPNEGO) + Der(0xA0, neg))) == NegInit(neg)
  {
    var oid, init := Tlv(0x06, OID_SPNEGO, |Der(0x06, OID_SPNEGO)|), Tlv(0xA0, neg, |Der(0xA0, neg)|);
    ChildrenDer(0x06, OID_SPNEGO, Der(0xA0, neg));
    TlvOnly(0xA0, neg);
    GssKids(Der(0x06, OID_SPNEGO) + Der(0xA0, neg), [oid] + [init]);
    ByOidSpnego(oid, init, Der(0x60, Der(0x06, OID_SPNEGO) + Der(0xA0, neg)));
  }

  lemma ByOidSpnego(oid: Tlv, init: Tlv, blob: bytes)
    requires oid.tag == 0x06 && oid.val == OID_SPNEGO
    ensures ByOid([oid] + [init], blob) == NegInit(init.val)
  {
  }

  lemma GssKids(body: bytes, kids: seq<Tlv>)
    requires |body| < 0x1_0000 && Children(body) == kids
    ensures Classify(Der(0x60, body)) == ByOid(kids, Der(0x60, body))
  {
    TlvOnly(0x60, body);
    GssParsed(Der(0x60, body), Tlv(0x60, body, |Der(0x60, body)|));
  }

  lemma GssParsed(blob: bytes, t: Tlv)
    requires ParseTlv(blob) == Some(t) && t.tag == 0x60
    ensures Classify(blob) == ByOid(Children(t.val), blob)
  {
  }

  lemma InitNeg(mechs: seq<Mech>, more: bytes)
    requires |Der(0xA0, Der(0x30, Oids(mechs))) + more| < 0x1_0000
    ensures var a := InitFields(Found(FirstOf(mechs), []), Children(more));
            NegInit(Der(0x30, Der(0xA0, Der(0x30, Oids(mechs))) + more)) == Incoming(a.mech, true, a.token)
  {
    var list := Der(0x30, Oids(mechs));
    TlvOnly(0x30, Der(0xA0, list) + more);
    ChildrenDer(0xA0, list, more);
    TlvOnly(0x30, Oids(mechs));
    InitFirst(Tlv(0xA0, list, |Der(0xA0, list)|), Children(more), mechs);
  }

  lemma InitFirst(f: Tlv, fs: seq<Tlv>, mechs: seq<Mech>)
    requires f.tag == 0xA0 && Inside(f.val, 0x30) == Some(Oids(mechs))
    ensures InitFields(NOTHING, [f] + fs) == InitFields(Found(FirstOf(mechs), []), fs)
  {
    FirstKnownOids(mechs);
    assert ([f] + fs)[1..] == fs;
  }

  /** The hint the server advertises names its first usable mechanism. */
  lemma HintRoundTrip(mechs: seq<Mech>)
    requires |InitBody(mechs, HINTS)| < 0x1_0000
    ensures Classify(Hint(mechs)) == Incoming(FirstOf(mechs), mechs != [], [])
  {
    if mechs != [] {
      InitRoundTrip(mechs, HINTS);
      TlvOnly(0xA3, Der(0x30, Der(0xA0, Der(0x1B, HINT_TEXT))));
      var f := Children(HINTS)[0];
      assert Children(HINTS) == [f] && f.tag == 0xA3;
      assert [f][1..] == [];
    }
  }

  /** A client's initial token with an optimistic mechanism token. */
  lemma ClientInitRoundTrip(mechs: seq<Mech>, token: bytes)
    requires |InitBody(mechs, Der(0xA2, Der(0x04, token)))| < 0x1_0000
    ensures Classify(Der(0x60, InitBody(mechs, Der(0xA2, Der(0x04, token))))) == Incoming(FirstOf(mechs), true, token)
  {
    InitRoundTrip(mechs, Der(0xA2, Der(0x04, token)));
    TlvOnly(0xA2, Der(0x04, token));
    TlvOnly(0x04, token);
    var f := Children(Der(0xA2, Der(0x04, token)))[0];
    assert Children(Der(0xA2, Der(0x04, token))) == [f] && [f][1..] == [];
  }

  lemma RespInnerFields(state: byte, mech: Mech, token: bytes)
    requires |RespInner(state, mech, token)| < 0x1_0000 && !mech.Unknown?
    ensures RespFields(NOTHING, Children(RespInner(state, mech, token))) == Found(mech, token)
  {
    var a, rest := [0x0A, 0x01, state], MechField(mech) + TokenField(token);
    ChildrenDer(0xA0, a, rest);
    SkipField(Tlv(0xA0, a, |Der(0xA0, a)|), Children(rest));
    MechRead(mech, token);
  }

  lemma SkipField(f: Tlv, fs: seq<Tlv>)
    requires f.tag == 0xA0
    ensures RespFields(NOTHING, [f] + fs) == RespFields(NOTHING, fs)
  {
    assert ([f] + fs)[1..] == fs;
  }

  lemma MechRead(mech: Mech, token: bytes)
    requires |TokenField(token)| < 0x1_0000 && !mech.Unknown?
    ensures RespFields(NOTHING, Children(MechField(mech) + TokenField(token))) == Found(mech, token)
  {
    var oid := Der(0x06, ToOid(mech));
    OidRoundTrip(mech);
    ChildrenDer(0xA1, oid, TokenField(token));
    TlvOnly(0x06, ToOid(mech));
    var f := Tlv(0xA1, oid, |Der(0xA1, oid)|);
    assert ([f] + Children(TokenField(token)))[1..] == Children(TokenField(token));
    TokenRead(mech, token);
  }

  lemma TokenRead(mech: Mech, token: bytes)
    requires |TokenField(token)| < 0x1_0000
    ensures RespFields(Found(mech, []), Children(TokenField(token))) == Found(mech, token)
  {
    if token == [] {
      assert Children([]) == [];
    } else {
      TlvOnly(0xA2, Der(0x04, token));
      TlvOnly(0x04, token);
      var f := Children(TokenField(token))[0];
      assert Children(TokenField(token)) == [f] && [f][1..] == [];
    }
  }

  lemma {:induction false} ChildrenFit(buf: bytes)
    ensures forall t :: t in Children(buf) ==> |t.val| <= |buf|
    decreases |buf|
  {
    var t := ParseTlv(buf);
    if t.Some? {
      ChildrenFit(buf[t.value.len..]);
    }
  }

  lemma {:induction false} FieldsFit(a: Found, fs: seq<Tlv>, n: nat)
    requires |a.token| <= n && forall t :: t in fs ==> |t.val| <= n
    ensures |RespFields(a, fs).token| <= n
    decreases |fs|
  {
    if fs != [] {
      FieldsFit(RespField(a, fs[0]), fs[1..], n);
    }
  }

  /** A reply for a known mechanism is read back exactly when its outermost content
      fits a 16-bit length. */
  lemma RespRoundTrip(state: byte, mech: Mech, token: bytes)
    requires !mech.Unknown?
    ensures Classify(MakeResp(state, mech, token)) == Incoming(mech, true, token)
            <==> |Der(0x30, RespInner(state, mech, token))| < 0x1_0000
  {
    if |Der(0x30, RespInner(state, mech, token))| < 0x1_0000 {
      RespInnerFields(state, mech, token);
      RespCore(RespInner(state, mech, token), mech, token);
    } else {
      OversizeResp(state, mech, token);
    }
  }

  lemma RespCore(inner: bytes, mech: Mech, token: bytes)
    requires |Der(0x30, inner)| < 0x1_0000 && !mech.Unknown?
    requires RespFields(NOTHING, Children(inner)) == Found(mech, token)
    ensures Classify(Der(0xA1, Der(0x30, inner))) == Incoming(mech, true, token)
  {
    TlvOnly(0xA1, Der(0x30, inner));
    TlvOnly(0x30, inner);
    RespHead(Der(0x30, inner));
  }

  lemma RespHead(d: bytes)
    ensures Classify(Der(0xA1, d)) == NegResp(Der(0xA1, d))
  {
    assert Der(0xA1, d)[0] == 0xA1;
  }

  /** A longer one loses bytes: what comes back is shorter than the token. */
  lemma OversizeResp(state: byte, mech: Mech, token: bytes)
    requires |Der(0x30, RespInner(state, mech, token))| >= 0x1_0000
    ensures |Classify(MakeResp(state, mech, token)).token| < |token|
  {
    RespSize(state, mech, token);
    OversizeCore(Der(0x30, RespInner(state, mech, token)));
  }

  lemma RespSize(state: byte, mech: Mech, token: bytes)
    ensures |Der(0x30, RespInner(state, mech, token))| <= |token| + 60
  {
    OidRoundTrip(mech);
    assert |MechField(mech)| <= 18 && |TokenField(token)| <= |token| + 8;
    assert |RespInner(state, mech, token)| <= 7 + 18 + |token| + 8;
  }

  /** What comes back lies within the bytes the truncated length announces. */
  lemma OversizeCore(d: bytes)
    requires |d| >= 0x1_0000
    ensures |Classify(Der(0xA1, d)).token| <= |d| - 0x1_0000
  {
    RespHead(d);
    AnnouncedDer(0xA1, d, []);
    assert Der(0xA1, d) + [] == Der(0xA1, d);
    var outer := Inside(Der(0xA1, d), 0xA1);
    if outer.Some? {
      assert |outer.value| == |d| % 0x1_0000 <= |d| - 0x1_0000;
      TokenFits(outer.value);
    }
  }

  lemma TokenFits(outer: bytes)
    ensures var s := Inside(outer, 0x30); s.Some? ==> |RespFields(NOTHING, Children(s.value)).token| <= |outer|
  {
    var s := Inside(outer, 0x30);
    if s.Some? {
      ChildrenFit(s.value);
      FieldsFit(NOTHING, Children(s.value), |outer|);
    }
  }

  /** A bare mechanism token passes through whole: a Kerberos one is recognised by either of
      its identifiers, an NTLM one by its signature. */
  lemma RawKerberos(id: bytes, body: bytes)
    requires (id == OID_KRB5 || id == OID_MS_KRB5) && |Der(0x06, id) + body| < 0x1_0000
    ensures var b := Der(0x60, Der(0x06, id) + body); Classify(b) == Incoming(Krb5, false, b)
  {
    var oid := Tlv(0x06, id, |Der(0x06, id)|);
    ChildrenDer(0x06, id, body);
    GssKids(Der(0x06, id) + body, [oid] + Children(body));
    ByOidKerberos(oid, Children(body), Der(0x60, Der(0x06, id) + body));
  }

  lemma ByOidKerberos(oid: Tlv, rest: seq<Tlv>, blob: bytes)
    requires oid.tag == 0x06 && (oid.val == OID_KRB5 || oid.val == OID_MS_KRB5)
    ensures ByOid([oid] + rest, blob) == Incoming(Krb5, false, blob)
  {
    assert |OID_SPNEGO| == 6 && |OID_KRB5| == 9 && |OID_MS_KRB5| == 9;
  }

  lemma RawNtlm(blob: bytes)
    requires Starts(blob, NTLM_SIG)
    ensures Classify(blob) == Incoming(Ntlmssp, false, blob)
  {
    assert blob[0] == NTLM_SIG[0] == 0x4E;
  }

  // ------------------------------------------------------- the code's loops

  method NegInitHint(mechs: seq<Mech>) returns (v: bytes)
    ensures v == Hint(mechs)
  {
    if mechs == [] { return []; }
    var oids := ListOids(mechs);
    var init := Der(0xA0, Der(0x30, oids)) + HINTS;
    var body := Der(0x06, OID_SPNEGO) + Der(0xA0, Der(0x30, init));
    v := Der(0x60, body);
  }

  method ListOids(mechs: seq<Mech>) returns (oids: bytes)
    ensures oids == Oids(mechs)
  {
    oids := [];
    for i := 0 to |mechs|
      invariant oids + Oids(mechs[i..]) == Oids(mechs)
    {
      OidsStep(oids, mechs, i);
      if mechs[i].Unknown? { continue; }
      oids := oids + Der(0x06, ToOid(mechs[i]));
    }
  }

  lemma OidsStep(oids: bytes, mechs: seq<Mech>, i: nat)
    requires i < |mechs|
    ensures oids + Oids(mechs[i..]) == oids + OidField(mechs[i]) + Oids(mechs[i + 1..])
    ensures mechs[i].Unknown? ==> oids + OidField(mechs[i]) == oids
  {
    assert mechs[i..][1..] == mechs[i + 1..];
  }

  method PickMech(list: bytes) returns (m: Mech)
    ensures m == FirstKnown(Children(list))
  {
    m := Unknown;
    var buf := list;
    var t := ParseTlv(buf);
    while t.Some?
      invariant t == ParseTlv(buf) && m == Unknown
      invariant FirstKnown(Children(buf)) == FirstKnown(Children(list))
      decreases |buf|
    {
      assert Children(buf)[1..] == Children(buf[t.value.len..]);
      if t.value.tag == 0x06 {
        m := FromOid(t.value.val);
        if m != Unknown { return; }
      }
      buf := buf[t.value.len..];
      t := ParseTlv(buf);
    }
  }

  method ParseNegInit(body: bytes) returns (r: Incoming)
    ensures r == NegInit(body)
  {
    var s := Inside(body, 0x30);
    if s.None? { return Incoming(Unknown, true, []); }
    var mech, token := Unknown, [];
    var buf := s.value;
    var f := ParseTlv(buf);
    while f.Some?
      invariant f == ParseTlv(buf)
      invariant InitFields(Found(mech, token), Children(buf)) == InitFields(NOTHING, Children(s.value))
      decreases |buf|
    {
      assert Children(buf)[1..] == Children(buf[f.value.len..]);
      if f.value.tag == 0xA0 {
        var list := Inside(f.value.val, 0x30);
        if list.Some? {
          var m := PickMech(list.value);
          if m != Unknown { mech := m; }
        }
      } else if f.value.tag == 0xA2 {
        var os := Inside(f.value.val, 0x04);
        if os.Some? { token := os.value; }
      }
      buf := buf[f.value.len..];
      f := ParseTlv(buf);
    }
    r := Incoming(mech, true, token);
  }

  method ParseNegResp(blob: bytes) returns (r: Incoming)
    ensures r == NegResp(blob)
  {
    var outer := Inside(blob, 0xA1);
    if outer.None? { return Incoming(Unknown, true, []); }
    var s := Inside(outer.value, 0x30);
    if s.None? { return Incoming(Unknown, true, []); }
    var mech, token := Unknown, [];
    var buf := s.value;
    var f := ParseTlv(buf);
    while f.Some?
      invariant f == ParseTlv(buf)
      invariant RespFields(Found(mech, token), Children(buf)) == RespFields(NOTHING, Children(s.value))
      decreases |buf|
    {
      assert Children(buf)[1..] == Children(buf[f.value.len..]);
      if f.value.tag == 0xA1 {
        var oid := Inside(f.value.val, 0x06);
        if oid.Some? { mech := FromOid(oid.value); }
      } else if f.value.tag == 0xA2 {
        var os := Inside(f.value.val, 0x04);
        if os.Some? { token := os.value; }
      }
      buf := buf[f.value.len..];
      f := ParseTlv(buf);
    }
    if mech == Unknown {
      if Starts(token, NTLM_SIG) {
        mech := Ntlmssp;
      } else if token != [] && token[0] == 0x60 {
        mech := Krb5;
      }
    }
    r := Incoming(mech, true, token);
  }
}
