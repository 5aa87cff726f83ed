/** Where the parts meet: what frame processing makes of a request is what the reactor relies on.
 */
module Service {
  import opened Wire
  import opened Response
  import opened Ring
  import opened Frames
  import opened Compound
  import opened Transform
  import opened Async

  /** A final response a request set off. */
  datatype Note = Note(cover: Cover, meta: Meta, st: nat, events: seq<Event>, outLen: nat)

  ghost predicate Sendable(n: Note) {
    NonceFits(n.cover) && Sound(n.cover) && n.outLen <= MAX_TRANSACT && forall i :: 0 <= i < |n.events| ==> Fits(n.events[i])
  }

  /** What one request meets: the handlers and keys, the channels before and after it, whether a
      session is established afterwards, the final responses it sets off, and whether it watches a
      directory. */
  datatype Setting = Setting(
    w: World, keys: map<nat, Enc>, after: map<nat, Enc>, established: bool, notes: seq<Note>, watch: bool)

  /** The messages of a frame, opened if it is sealed. */
  function Messages(a: Aead, frame: bytes, keys: map<nat, Enc>): Option<bytes>
    requires a.nonceLen <= 16
  {
    if IsTransform(frame) then Opened(a, frame, keys) else Some(frame)
  }

  /** The handlers keep to their contract: fresh replies, a plan only for a single READ and of a
      length within its limits, and every descriptor duplicated closed once or handed back. */
  ghost predicate Handled(a: Aead, frame: bytes, s: Setting, serial: nat) {
    && LegalFrame(a, frame, s.w, s.keys)
    && (forall i :: s.w.disp(i).plan.Some? ==> ZC_MIN_READ <= s.w.disp(i).plan.value.length <= MAX_READ_TARGET)
    && (Messages(a, frame, s.keys).Some? ==> Owned(Members(Messages(a, frame, s.keys).value, s.w.disp), serial))
    && (forall i :: 0 <= i < |s.notes| ==> Sendable(s.notes[i]))
  }

  function Finals(notes: seq<Note>): (fs: seq<bytes>)
    requires forall i :: 0 <= i < |notes| ==> NonceFits(notes[i].cover)
    ensures |fs| == |notes|
  {
    seq(|notes|, i requires 0 <= i < |notes| =>
      NotifyFinal(notes[i].cover, notes[i].meta, notes[i].st, notes[i].events, notes[i].outLen))
  }

  /** What the reactor is told of one request. */
  ghost function OutcomeOf(a: Aead, frame: bytes, s: Setting, serial: nat): Outcome
    requires Handled(a, frame, s, serial)
  {
    var d := Comes(a, frame, s.w, s.keys, s.after);
    Outcome(d.action, d.reply, s.established, Finals(s.notes), s.watch, d.dups, d.closed)
  }

  lemma FinalsFramed(notes: seq<Note>)
    requires forall i :: 0 <= i < |notes| ==> Sendable(notes[i])
    requires forall i :: 0 <= i < |notes| ==> NonceFits(notes[i].cover)
    ensures AllFramed(Finals(notes))
  {
    forall i | 0 <= i < |notes| ensures Framed(Finals(notes)[i]) {
      var n := notes[i];
      NotifyFinalReads(n.cover, n.meta, n.st, n.events, n.outLen);
    }
  }

  /** It is an outcome the reactor can act on: at most one whole frame to send, nothing buffered
      beside a close or a zero-copy READ, whole final responses, and every descriptor duplicated
      closed once or handed over with the plan. */
  lemma OutcomeLegal(a: Aead, frame: bytes, s: Setting, serial: nat)
    requires Handled(a, frame, s, serial)
    ensures LegalOutcome(OutcomeOf(a, frame, s, serial), serial)
  {
    FrameFramed(a, frame, s.w, s.keys, s.after);
    FrameFds(a, frame, s.w, s.keys, s.after, serial);
    FinalsFramed(s.notes);
  }

  /** Process a frame for the reactor. */
  method Serve(a: Aead, frame: bytes, tx0: bytes, s: Setting, serial: nat) returns (o: Outcome, tx: bytes, now: map<nat, Enc>)
    requires Handled(a, frame, s, serial)
    ensures o == OutcomeOf(a, frame, s, serial) && LegalOutcome(o, serial) && tx == tx0 + o.reply
    ensures now == if IsTransform(frame) && o.reply != [] then Bump(s.after, SidOf(frame)) else s.after
  {
    var d;
    d, tx, now := ProcessFrame(a, frame, tx0, s.w, s.keys, s.after);
    o := Outcome(d.action, d.reply, s.established, Finals(s.notes), s.watch, d.dups, d.closed);
    OutcomeLegal(a, frame, s, serial);
  }

  /** A server whose handlers keep to their contract, request by request, is a protocol layer that
      a connection of the reactor may be built on. */
  lemma ServerIsProtocol(a: Aead, srv: (nat, bytes, nat) -> Setting)
    requires forall n, f, serial :: Handled(a, f, srv(n, f, serial), serial)
    ensures LegalProtocol((n: nat, f: bytes, serial: nat) => OutcomeOf(a, f, srv(n, f, serial), serial))
  {
    forall n: nat, f: bytes, serial: nat
      ensures LegalOutcome(OutcomeOf(a, f, srv(n, f, serial), serial), serial)
    {
      OutcomeLegal(a, f, srv(n, f, serial), serial);
    }
  }
}
