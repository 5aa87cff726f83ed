/** SMB2 response headers and the two replies the reactor builds for a
    zero-copy READ (src/smb2/mod.rs).
 */
module Response {
  import opened Wire

  const HDR_LEN := 64
  const CMD_LOGOFF := 2
  const CMD_READ := 8
  const CMD_CANCEL := 12
  const CMD_ECHO := 13
  const FLAG_RESPONSE := 1
  const FLAG_RELATED := 4
  const FLAG_SIGNED := 8
  const MAX_TRANSACT := 0x40_0000
  const MAX_READ_TARGET := 0x10_0000
  const ZC_MIN_READ := 8 * 1024
  const STATUS_SUCCESS := 0
  const PROTOCOL_ID: bytes := [0xFE, 0x53, 0x4D, 0x42]

  /** The request fields a response header echoes. */
  datatype ReqHdr = ReqHdr(
    creditCharge: nat, command: nat, credits: nat, flags: nat, next: nat,
    msgId: nat, treeId: nat, sessionId: nat)

  /** The 64-byte response header; NextCommand and the signature start as zeros. */
  function BeginResp(h: ReqHdr, st: nat, related: bool, treeId: nat, sessionId: nat): (r: bytes)
    ensures |r| == HDR_LEN
  {
    PROTOCOL_ID + Le(64, 2) + Le(h.creditCharge, 2) + Le(st, 4) + Le(h.command, 2) + Le(h.credits, 2)
    + Le(if related then FLAG_RESPONSE + FLAG_RELATED else FLAG_RESPONSE, 4)
    + Le(0, 4) + Le(h.msgId, 8) + Le(0, 4) + Le(treeId, 4) + Le(sessionId, 8) + Zeros(16)
  }

  /** A client reads out of the header what was written, as long as it fits its field. */
  lemma BeginRespFields(h: ReqHdr, st: nat, related: bool, treeId: nat, sessionId: nat)
    requires h.creditCharge < 0x1_0000 && h.command < 0x1_0000 && h.credits < 0x1_0000 && st < 0x1_0000_0000
    requires h.msgId < 0x1_0000_0000_0000_0000 && treeId < 0x1_0000_0000 && sessionId < 0x1_0000_0000_0000_0000
    ensures var r := BeginResp(h, st, related, treeId, sessionId);
            && r[..4] == PROTOCOL_ID && FromLe(r[6..8]) == h.creditCharge && FromLe(r[8..12]) == st
            && FromLe(r[12..14]) == h.command && FromLe(r[14..16]) == h.credits
            && FromLe(r[16..20]) == (if related then FLAG_RESPONSE + FLAG_RELATED else FLAG_RESPONSE)
            && FromLe(r[24..32]) == h.msgId && FromLe(r[36..40]) == treeId && FromLe(r[40..48]) == sessionId
  {
    var r := BeginResp(h, st, related, treeId, sessionId);
    var flags := if related then FLAG_RESPONSE + FLAG_RELATED else FLAG_RESPONSE;
    assert r[6..8] == Le(h.creditCharge, 2) && r[8..12] == Le(st, 4) && r[12..14] == Le(h.command, 2);
    assert r[14..16] == Le(h.credits, 2) && r[16..20] == Le(flags, 4) && r[24..32] == Le(h.msgId, 8);
    assert r[36..40] == Le(treeId, 4) && r[40..48] == Le(sessionId, 8);
    Reads(h.creditCharge, 2);
    Reads(st, 4);
    Reads(h.command, 2);
    Reads(h.credits, 2);
    Reads(flags, 4);
    Reads(h.msgId, 8);
    Reads(treeId, 4);
    Reads(sessionId, 8);
  }

  lemma Reads(n: nat, k: nat)
    requires (k == 2 && n < 0x1_0000) || (k == 4 && n < 0x1_0000_0000) || (k == 8 && n < 0x1_0000_0000_0000_0000)
    ensures FromLe(Le(n, k)) == n
  {
    PowWidths();
    LeRoundTrip(n, k);
  }

  function ErrBody(): (r: bytes)
    ensures |r| == 9
  {
    Le(9, 2) + [0, 0] + Le(0, 4) + [0]
  }

  /** Everything the reactor needs to finish a zero-copy READ. `fd` identifies
      the descriptor duplicated for this READ. */
  datatype ReadPlan = ReadPlan(
    fd: int, offset: nat, length: nat, minCount: nat, msgId: nat,
    creditCharge: nat, credits: nat, treeId: nat, sessionId: nat, linked: bool)

  /** What the protocol layer does with one request frame. */
  datatype FrameAction = Respond | CloseNow | RespondClose | ZcRead(plan: ReadPlan)

  /** The descriptor a plan owns. */
  function PlanFds(p: Option<ReadPlan>): seq<int> {
    if p.Some? then [p.value.fd] else []
  }

  function ActionPlan(a: FrameAction): Option<ReadPlan> {
    if a.ZcRead? then Some(a.plan) else None
  }

  /** Each of the `n` descriptors numbered from `s` on, once. A READ descriptor is named by the number
      of duplications before it. */
  ghost predicate EachOnce(fds: seq<int>, s: nat, n: nat) {
    && (forall d :: d in fds <==> s <= d < s + n)
    && (forall i, j :: 0 <= i < j < |fds| ==> fds[i] != fds[j])
  }

  function PlanHdr(p: ReadPlan): ReqHdr {
    ReqHdr(p.creditCharge, CMD_READ, p.credits, 0, 0, p.msgId, p.treeId, p.sessionId)
  }

  function ReadRespBody(p: ReadPlan, n: nat): (r: bytes)
    ensures |r| == 80
  {
    BeginResp(PlanHdr(p), STATUS_SUCCESS, false, p.treeId, p.sessionId)
    + Le(17, 2) + [80, 0] + Le(n, 4) + Le(0, 4) + Le(0, 4)
  }

  /** NBT prefix, success header and READ fixed part for `n` payload bytes that follow. */
  function ReadRespPrefix(p: ReadPlan, n: nat): (r: bytes)
    ensures |r| == 84
  {
    NbtPrefix(80 + n) + ReadRespBody(p, n)
  }

  function ReadErr(p: ReadPlan, st: nat): (r: bytes)
    ensures Framed(r)
  {
    var body := BeginResp(PlanHdr(p), st, false, p.treeId, p.sessionId) + ErrBody();
    FramedIff(body);
    NbtPrefix(73) + body
  }

  /** The header promises exactly the payload spliced out behind it: the two
      together are one whole frame if and only if the payload has the promised
      length (for any payload the 24-bit length can describe). */
  lemma ReadReplyFramed(p: ReadPlan, n: nat, data: bytes)
    requires n < 0x100_0000 - 80
    ensures Framed(ReadRespPrefix(p, n) + data) <==> |data| == n
  {
    var body := ReadRespBody(p, n) + Zeros(n);
    FramedIff(body);
    var f := NbtPrefix(80 + n) + body;
    var g := ReadRespPrefix(p, n) + data;
    assert forall i :: 0 <= i < 4 ==> g[i] == NbtPrefix(80 + n)[i] && f[i] == NbtPrefix(80 + n)[i];
  }
}
