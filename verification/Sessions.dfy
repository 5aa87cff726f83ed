/** Sessions shared between connections (src/session.rs and the session handlers of
    src/smb2/handlers.rs): setup by NTLM, Kerberos or anonymously, binding a further
    channel, LOGOFF and teardown of a connection.
 */
module Sessions {
  import opened Wire

  const MAX_PENDING_SETUPS := 4

  type Sid = nat
  type ConnId = nat

  datatype Session = Session(established: bool, guest: bool, channels: nat)

  /** What a channel waits for: an NTLM AUTHENTICATE (of its own setup or of a binding to
      someone's session), or a further Kerberos leg. */
  datatype Pending = NoPending | Ntlm(binding: bool) | Krb

  datatype Channel = Channel(established: bool, pending: Pending) {
    /** This connection's own unfinished setup. */
    predicate Own() { !established && (pending == Ntlm(false) || pending == Krb) }
  }

  const EST := Channel(true, NoPending)

  type Channels = map<Sid, Channel>

  // --------------------------------------------------------- the invariant

  /** The connections with an established channel to the session. */
  function Holders(conns: map<ConnId, Channels>, sid: Sid): set<ConnId> {
    set c | c in conns && sid in conns[c] && conns[c][sid].established
  }

  /** The connections that are setting the session up. */
  function Owners(conns: map<ConnId, Channels>, sid: Sid): set<ConnId> {
    set c | c in conns && sid in conns[c] && conns[c][sid].Own()
  }

  /** The connections that have any channel under this id. */
  function Named(conns: map<ConnId, Channels>, sid: Sid): set<ConnId> {
    set c | c in conns && sid in conns[c]
  }

  /** The unfinished setups a connection owns. */
  function Setups(chans: Channels): set<Sid> {
    set s | s in chans && chans[s].Own()
  }

  function Unfinished(chans: Channels): set<Sid> {
    set s | s in chans && !chans[s].established
  }

  /** Sound bookkeeping for one session id. */
  ghost predicate At(sessions: map<Sid, Session>, conns: map<ConnId, Channels>, made: set<Sid>, sid: Sid) {
    && (Named(conns, sid) != {} || sid in sessions ==> sid in made)
    && (sid in sessions && sessions[sid].established ==>
          Holders(conns, sid) != {} && Owners(conns, sid) == {} && sessions[sid].channels == |Holders(conns, sid)|)
    && (sid in sessions && !sessions[sid].established ==>
          |Named(conns, sid)| == 1 && Named(conns, sid) == Owners(conns, sid) && sessions[sid].channels == 0)
    && (sid !in sessions ==> Holders(conns, sid) == {} && Owners(conns, sid) == {})
  }

  ghost predicate Inv(sessions: map<Sid, Session>, conns: map<ConnId, Channels>, made: set<Sid>) {
    && (forall sid :: At(sessions, conns, made, sid))
    && (forall c :: c in conns ==> |Setups(conns[c])| <= MAX_PENDING_SETUPS)
    && (forall c, s :: c in conns && s in conns[c] && conns[c][s].established ==> conns[c][s].pending.NoPending?)
  }

  /** What the invariant says about counting and membership. */
  lemma Counted(sessions: map<Sid, Session>, conns: map<ConnId, Channels>, made: set<Sid>, sid: Sid)
    requires Inv(sessions, conns, made)
    ensures sid in sessions ==> sessions[sid].channels == |Holders(conns, sid)|
    ensures forall c :: c in Holders(conns, sid) ==> sid in sessions && sessions[sid].established
  {
    assert At(sessions, conns, made, sid);
    assert Holders(conns, sid) <= Named(conns, sid) && Holders(conns, sid) !! Owners(conns, sid);
  }

  /** With no channels left on any connection, no session is left. */
  lemma NoChannelsNoSessions(sessions: map<Sid, Session>, conns: map<ConnId, Channels>, made: set<Sid>)
    requires Inv(sessions, conns, made) && forall c :: c in conns ==> conns[c] == map[]
    ensures sessions == map[]
  {
    forall sid ensures sid !in sessions {
      assert At(sessions, conns, made, sid);
      assert Holders(conns, sid) == {} && Named(conns, sid) == {};
    }
    assert sessions.Keys == {};
  }

  /** A step that touches one session id and the channel of one connection under it keeps the
      bookkeeping of every other id. */
  lemma OthersKept(
    sessions: map<Sid, Session>, conns: map<ConnId, Channels>, made: set<Sid>,
    sessions': map<Sid, Session>, conns': map<ConnId, Channels>, made': set<Sid>, c: ConnId, sid: Sid)
    requires Inv(sessions, conns, made) && Only(sessions, conns, made, sessions', conns', made', c, sid)
    requires At(sessions', conns', made', sid)
    requires |Setups(conns'[c])| <= MAX_PENDING_SETUPS
    requires sid in conns'[c] && conns'[c][sid].established ==> conns'[c][sid].pending.NoPending?
    ensures Inv(sessions', conns', made')
  {
    forall s ensures At(sessions', conns', made', s) {
      if s != sid {
        SameNames(conns, conns', c, sid, s);
        assert At(sessions, conns, made, s);
      }
    }
  }

  /** Only `sid` and connection `c`'s channel under it differ. */
  ghost predicate Only(
    sessions: map<Sid, Session>, conns: map<ConnId, Channels>, made: set<Sid>,
    sessions': map<Sid, Session>, conns': map<ConnId, Channels>, made': set<Sid>, c: ConnId, sid: Sid)
  {
    && made <= made' && c in conns && conns'.Keys == conns.Keys
    && (forall d :: d in conns && d != c ==> conns'[d] == conns[d])
    && (forall s :: s != sid ==> (s in conns'[c] <==> s in conns[c]) && (s in conns[c] ==> conns'[c][s] == conns[c][s]))
    && (forall s :: s != sid ==> (s in sessions' <==> s in sessions) && (s in sessions ==> sessions'[s] == sessions[s]))
  }

  lemma SameNames(conns: map<ConnId, Channels>, conns': map<ConnId, Channels>, c: ConnId, sid: Sid, s: Sid)
    requires c in conns && conns'.Keys == conns.Keys && s != sid
    requires forall d :: d in conns && d != c ==> conns'[d] == conns[d]
    requires forall t :: t != sid ==> (t in conns'[c] <==> t in conns[c]) && (t in conns[c] ==> conns'[c][t] == conns[c][t])
    ensures Holders(conns', s) == Holders(conns, s) && Owners(conns', s) == Owners(conns, s)
    ensures Named(conns', s) == Named(conns, s)
  {
  }

  // ------------------------------------------------------ the kinds of step

  /** The channel of one connection under one id, set or removed. */
  function With(conns: map<ConnId, Channels>, c: ConnId, sid: Sid, ch: Channel): map<ConnId, Channels>
    requires c in conns
  {
    conns[c := Set(conns[c], sid, ch)]
  }

  function Set(chans: Channels, sid: Sid, ch: Channel): Channels { chans[sid := ch] }

  function Without(conns: map<ConnId, Channels>, c: ConnId, sid: Sid): map<ConnId, Channels>
    requires c in conns
  {
    conns[c := conns[c] - {sid}]
  }

  lemma WithNames(conns: map<ConnId, Channels>, c: ConnId, sid: Sid, ch: Channel)
    requires c in conns
    ensures var conns' := With(conns, c, sid, ch);
            && Holders(conns', sid) == (if ch.established then Holders(conns, sid) + {c} else Holders(conns, sid) - {c})
            && Owners(conns', sid) == (if ch.Own() then Owners(conns, sid) + {c} else Owners(conns, sid) - {c})
            && Named(conns', sid) == Named(conns, sid) + {c}
  {
  }

  lemma WithoutNames(conns: map<ConnId, Channels>, c: ConnId, sid: Sid)
    requires c in conns
    ensures var conns' := Without(conns, c, sid);
            && Holders(conns', sid) == Holders(conns, sid) - {c}
            && Owners(conns', sid) == Owners(conns, sid) - {c}
            && Named(conns', sid) == Named(conns, sid) - {c}
  {
  }

  lemma SetupsOf(chans: Channels, sid: Sid, ch: Channel)
    ensures Setups(Set(chans, sid, ch)) == if ch.Own() then Setups(chans) + {sid} else Setups(chans) - {sid}
  {
  }

  lemma SetupsGrow(chans: Channels, sid: Sid, ch: Channel)
    ensures |Setups(Set(chans, sid, ch))| <= |Setups(chans)| + (if ch.Own() && sid !in Setups(chans) then 1 else 0)
  {
    SetupsOf(chans, sid, ch);
    Fewer(Setups(chans), sid);
    assert sid in Setups(chans) ==> Setups(chans) + {sid} == Setups(chans);
  }

  lemma SetupsShrink(chans: Channels, sid: Sid)
    ensures |Setups(chans - {sid})| <= |Setups(chans)|
  {
    assert Setups(chans - {sid}) == Setups(chans) - {sid};
    Fewer(Setups(chans), sid);
  }

  lemma Fewer(s: set<Sid>, x: Sid)
    ensures |s - {x}| <= |s|
  {
    if x !in s { assert s - {x} == s; }
  }

  /** A connection's own setups are among its unfinished channels, so the check made
      before starting another one bounds them. */
  lemma SetupsBounded(chans: Channels)
    ensures |Setups(chans)| <= |Unfinished(chans)|
  {
    Inside(Setups(chans), Unfinished(chans));
  }

  lemma {:induction false} Inside(a: set<Sid>, b: set<Sid>)
    requires a <= b
    ensures |a| <= |b|
  {
    if x :| x in a {
      Inside(a - {x}, b - {x});
    }
  }

  /** A new setup: a fresh id, a half-open session and its owner's pending channel. */
  lemma SetupStarted(sessions: map<Sid, Session>, conns: map<ConnId, Channels>, made: set<Sid>, c: ConnId, sid: Sid, ch: Channel)
    requires Inv(sessions, conns, made) && c in conns && sid !in made && ch.Own()
    requires |Unfinished(conns[c])| < MAX_PENDING_SETUPS
    ensures Inv(sessions[sid := Session(false, false, 0)], With(conns, c, sid, ch), made + {sid})
  {
    assert At(sessions, conns, made, sid);
    WithNames(conns, c, sid, ch);
    SetupsBounded(conns[c]);
    SetupsGrow(conns[c], sid, ch);
    OthersKept(sessions, conns, made, sessions[sid := Session(false, false, 0)], With(conns, c, sid, ch), made + {sid}, c, sid);
  }

  /** A pending binding, or any other channel that is neither established nor a setup. */
  lemma PendingKept(sessions: map<Sid, Session>, conns: map<ConnId, Channels>, made: set<Sid>, c: ConnId, sid: Sid, ch: Channel)
    requires Inv(sessions, conns, made) && c in conns && sid in made && !ch.established && !ch.Own()
    requires sid in sessions ==> sessions[sid].established
    requires sid in conns[c] ==> !conns[c][sid].established
    ensures Inv(sessions, With(conns, c, sid, ch), made)
  {
    assert At(sessions, conns, made, sid);
    WithNames(conns, c, sid, ch);
    SetupsGrow(conns[c], sid, ch);
    OthersKept(sessions, conns, made, sessions, With(conns, c, sid, ch), made, c, sid);
  }

  /** A setup succeeds: its session is established with one channel. */
  lemma SetupDone(sessions: map<Sid, Session>, conns: map<ConnId, Channels>, made: set<Sid>, c: ConnId, sid: Sid, guest: bool)
    requires Inv(sessions, conns, made) && c in conns && sid in conns[c] && conns[c][sid].Own()
    ensures Inv(sessions[sid := Session(true, guest, 1)], With(conns, c, sid, EST), made)
  {
    assert At(sessions, conns, made, sid);
    WithNames(conns, c, sid, EST);
    assert Holders(conns, sid) <= Named(conns, sid) && Holders(conns, sid) !! Owners(conns, sid);
    assert c in Owners(conns, sid);
    Alone(Owners(conns, sid), c);
    SetupsGrow(conns[c], sid, EST);
    OthersKept(sessions, conns, made, sessions[sid := Session(true, guest, 1)], With(conns, c, sid, EST), made, c, sid);
  }

  lemma Alone(s: set<ConnId>, c: ConnId)
    requires |s| == 1 && c in s
    ensures s == {c}
  {
    assert |s - {c}| == 0;
  }

  /** A setup fails: session and channel go together. */
  lemma SetupFailed(sessions: map<Sid, Session>, conns: map<ConnId, Channels>, made: set<Sid>, c: ConnId, sid: Sid)
    requires Inv(sessions, conns, made) && c in conns && sid in conns[c] && conns[c][sid].Own()
    ensures Inv(sessions - {sid}, Without(conns, c, sid), made)
  {
    assert At(sessions, conns, made, sid);
    WithoutNames(conns, c, sid);
    assert c in Owners(conns, sid);
    Alone(Owners(conns, sid), c);
    SetupsShrink(conns[c], sid);
    OthersKept(sessions, conns, made, sessions - {sid}, Without(conns, c, sid), made, c, sid);
  }

  /** A channel that counts for nothing is dropped. */
  lemma PendingDropped(sessions: map<Sid, Session>, conns: map<ConnId, Channels>, made: set<Sid>, c: ConnId, sid: Sid)
    requires Inv(sessions, conns, made) && c in conns && sid in conns[c]
    requires !conns[c][sid].established && !conns[c][sid].Own()
    ensures sid in sessions ==> sessions[sid].established
    ensures Inv(sessions, Without(conns, c, sid), made)
  {
    assert At(sessions, conns, made, sid);
    WithoutNames(conns, c, sid);
    assert c in Named(conns, sid) && c !in Owners(conns, sid);
    assert Holders(conns, sid) - {c} == Holders(conns, sid);
    SetupsShrink(conns[c], sid);
    OthersKept(sessions, conns, made, sessions, Without(conns, c, sid), made, c, sid);
  }

  /** A binding succeeds: one more channel. */
  lemma Bound(sessions: map<Sid, Session>, conns: map<ConnId, Channels>, made: set<Sid>, c: ConnId, sid: Sid)
    requires Inv(sessions, conns, made) && c in conns && sid in conns[c] && !conns[c][sid].established
    requires sid in sessions && sessions[sid].established
    ensures Inv(sessions[sid := sessions[sid].(channels := sessions[sid].channels + 1)], With(conns, c, sid, EST), made)
  {
    assert At(sessions, conns, made, sid);
    WithNames(conns, c, sid, EST);
    assert c !in Holders(conns, sid);
    assert Owners(conns, sid) - {c} == Owners(conns, sid);
    SetupsGrow(conns[c], sid, EST);
    OthersKept(sessions, conns, made, sessions[sid := sessions[sid].(channels := sessions[sid].channels + 1)],
               With(conns, c, sid, EST), made, c, sid);
  }

  /** A session created already established (anonymous, or Kerberos in one leg). */
  lemma BornEstablished(sessions: map<Sid, Session>, conns: map<ConnId, Channels>, made: set<Sid>, c: ConnId, sid: Sid, guest: bool)
    requires Inv(sessions, conns, made) && c in conns && sid !in made
    ensures Inv(sessions[sid := Session(true, guest, 1)], With(conns, c, sid, EST), made + {sid})
  {
    assert At(sessions, conns, made, sid);
    WithNames(conns, c, sid, EST);
    assert Holders(conns, sid) + {c} == {c};
    SetupsGrow(conns[c], sid, EST);
    OthersKept(sessions, conns, made, sessions[sid := Session(true, guest, 1)], With(conns, c, sid, EST), made + {sid}, c, sid);
  }

  /** The session table after an established channel to `sid` goes. */
  function Leave(sessions: map<Sid, Session>, sid: Sid): map<Sid, Session>
    requires sid in sessions
  {
    if sessions[sid].channels <= 1 then sessions - {sid}
    else sessions[sid := sessions[sid].(channels := sessions[sid].channels - 1)]
  }

  /** An established channel goes, and the session with its last one. */
  lemma ChannelLeft(sessions: map<Sid, Session>, conns: map<ConnId, Channels>, made: set<Sid>, c: ConnId, sid: Sid)
    requires Inv(sessions, conns, made) && c in conns && sid in conns[c] && conns[c][sid].established
    ensures sid in sessions && sessions[sid].channels > 0 && Inv(Leave(sessions, sid), Without(conns, c, sid), made)
  {
    assert At(sessions, conns, made, sid);
    assert c in Holders(conns, sid) && c in Named(conns, sid) && c !in Owners(conns, sid);
    WithoutNames(conns, c, sid);
    assert Owners(conns, sid) - {c} == Owners(conns, sid);
    assert |Holders(conns, sid) - {c}| == |Holders(conns, sid)| - 1;
    SetupsShrink(conns[c], sid);
    OthersKept(sessions, conns, made, Leave(sessions, sid), Without(conns, c, sid), made, c, sid);
  }

  /** The registry holds exactly the sessions that some connection has established or is
      setting up. */
  lemma LiveExactly(sessions: map<Sid, Session>, conns: map<ConnId, Channels>, made: set<Sid>, sid: Sid)
    requires Inv(sessions, conns, made)
    ensures sid in sessions <==> Holders(conns, sid) + Owners(conns, sid) != {}
  {
    assert At(sessions, conns, made, sid);
  }

  lemma Joined(sessions: map<Sid, Session>, conns: map<ConnId, Channels>, made: set<Sid>, c: ConnId)
    requires Inv(sessions, conns, made) && c !in conns
    ensures Inv(sessions, conns[c := map[]], made)
  {
    var conns' := conns[c := map[]];
    forall s ensures At(sessions, conns', made, s) {
      assert At(sessions, conns, made, s);
      assert Holders(conns', s) == Holders(conns, s) && Owners(conns', s) == Owners(conns, s);
      assert Named(conns', s) == Named(conns, s);
    }
    assert Setups(map[]) == {};
  }

  /** Sessions that remain keep who they are. */
  ghost predicate Kept(now: map<Sid, Session>, was: map<Sid, Session>) {
    forall s :: s in now ==> s in was && now[s].established == was[s].established && now[s].guest == was[s].guest
  }

  // ------------------------------------------------------------- the code

  datatype Status =
    | Success | MoreProcessing | NotAccepted | SessionDeleted | InsufficientResources | AccessDenied | LogonFailure

  datatype Verdict = User | Guest | Reject

  datatype GssStep = Continue | Done | Failed

  /** The shared registry and every connection's channels. Session ids handed to the setup
      methods are drawn at random by the source; they are taken to be new. */
  class Server {
    var sessions: map<Sid, Session>
    var conns: map<ConnId, Channels>
    ghost var made: set<Sid>

    ghost predicate Valid()
      reads this
    {
      Inv(sessions, conns, made)
    }

    constructor ()
      ensures Valid() && sessions == map[] && conns == map[]
    {
      sessions, conns, made := map[], map[], {};
      new;
      assert forall s :: Holders(conns, s) == {} && Owners(conns, s) == {} && Named(conns, s) == {};
    }

    method Connect(c: ConnId)
      requires Valid() && c !in conns
      modifies this
      ensures Valid() && conns == old(conns)[c := map[]] && sessions == old(sessions)
    {
      Joined(sessions, conns, made, c);
      conns := conns[c := map[]];
    }

    method Start(c: ConnId, newSid: Sid, p: Pending) returns (st: Status)
      requires Valid() && c in conns && newSid !in made && (p == Ntlm(false) || p == Krb)
      modifies this
      ensures Valid()
      ensures if |Unfinished(old(conns)[c])| >= MAX_PENDING_SETUPS
              then st == InsufficientResources && conns == old(conns) && sessions == old(sessions)
              else && st == MoreProcessing
                   && conns == With(old(conns), c, newSid, Channel(false, p))
                   && sessions == old(sessions)[newSid := Session(false, false, 0)]
    {
      if |Unfinished(conns[c])| >= MAX_PENDING_SETUPS { return InsufficientResources; }
      SetupStarted(sessions, conns, made, c, newSid, Channel(false, p));
      sessions := sessions[newSid := Session(false, false, 0)];
      conns := With(conns, c, newSid, Channel(false, p));
      made := made + {newSid};
      st := MoreProcessing;
    }

    /** The first NTLM leg. `allowed`: multichannel is on and the dialect is SMB 3. */
    method NtlmNegotiate(c: ConnId, sid: Sid, binding: bool, allowed: bool, newSid: Sid) returns (st: Status)
      requires Valid() && c in conns && newSid !in made
      modifies this
      ensures Valid()
      ensures !st.MoreProcessing? ==> conns == old(conns) && sessions == old(sessions)
      // a further channel may be bound to an established session of a user, once; a setup may start
      // unless too many are under way
      ensures st.MoreProcessing? <==>
                if binding then
                  && allowed && sid in old(sessions) && old(sessions)[sid].established && !old(sessions)[sid].guest
                  && !(sid in old(conns)[c] && old(conns)[c][sid].established)
                else |Unfinished(old(conns)[c])| < MAX_PENDING_SETUPS
      ensures st.MoreProcessing? && binding ==>
                && allowed && sid in old(sessions) && old(sessions)[sid].established && !old(sessions)[sid].guest
                && !(sid in old(conns)[c] && old(conns)[c][sid].established)
                && sessions == old(sessions) && conns == With(old(conns), c, sid, Channel(false, Ntlm(true)))
      ensures st.MoreProcessing? && !binding ==>
                && |Unfinished(old(conns)[c])| < MAX_PENDING_SETUPS
                && sessions == old(sessions)[newSid := Session(false, false, 0)]
                && conns == With(old(conns), c, newSid, Channel(false, Ntlm(false)))
    {
      if !binding {
        st := Start(c, newSid, Ntlm(false));
      } else if !allowed {
        st := NotAccepted;
      } else if !(sid in sessions && sessions[sid].established && !sessions[sid].guest) {
        st := SessionDeleted;
      } else if sid in conns[c] && conns[c][sid].established {
        st := NotAccepted;
      } else {
        assert At(sessions, conns, made, sid);
        PendingKept(sessions, conns, made, c, sid, Channel(false, Ntlm(true)));
        conns := With(conns, c, sid, Channel(false, Ntlm(true)));
        st := MoreProcessing;
      }
    }

    /** The second NTLM leg. `proof`: the client proved the identity the session is bound to;
        `verdict`: what a first authentication came to; `sealable`: a cipher was negotiated. */
    method NtlmAuthenticate(c: ConnId, sid: Sid, proof: bool, verdict: Verdict, encrypt: bool, sealable: bool)
      returns (st: Status)
      requires Valid() && c in conns
      modifies this
      ensures Valid() && made == old(made)
      // an unknown channel changes nothing, and neither does one with nothing pending
      ensures sid !in old(conns)[c] ==> st == SessionDeleted && conns == old(conns) && sessions == old(sessions)
      ensures sid in old(conns)[c] && !old(conns)[c][sid].pending.Ntlm? ==>
                st == Success && conns == old(conns) && sessions == old(sessions)
      // a further channel to a session that is gone ends with nothing pending
      ensures sid in old(conns)[c] && old(conns)[c][sid].pending == Ntlm(true) && sid !in old(sessions) ==>
                st == SessionDeleted && conns == With(old(conns), c, sid, Channel(false, NoPending)) && sessions == old(sessions)
      // a further channel is established exactly when the identity was proved
      ensures sid in old(conns)[c] && old(conns)[c][sid].pending == Ntlm(true) && sid in old(sessions) ==>
                if old(sessions)[sid].established && !old(sessions)[sid].guest && proof && (encrypt ==> sealable)
                then st == Success && conns == With(old(conns), c, sid, EST)
                     && sessions == old(sessions)[sid := old(sessions)[sid].(channels := old(sessions)[sid].channels + 1)]
                else st == AccessDenied && conns == Without(old(conns), c, sid) && sessions == old(sessions)
      // a setup ends established or leaves nothing behind
      ensures sid in old(conns)[c] && old(conns)[c][sid].pending == Ntlm(false) ==>
                if (verdict.User? && (encrypt ==> sealable)) || (verdict.Guest? && !encrypt)
                then st == Success && conns == With(old(conns), c, sid, EST)
                     && sessions == old(sessions)[sid := Session(true, verdict.Guest?, 1)]
                else st == (if verdict.Reject? then LogonFailure else AccessDenied)
                     && conns == Without(old(conns), c, sid) && sessions == old(sessions) - {sid}
    {
      if sid !in conns[c] { return SessionDeleted; }
      var ch := conns[c][sid];
      if !ch.pending.Ntlm? { return Success; }
      assert At(sessions, conns, made, sid);
      assert !ch.established && c in Named(conns, sid);
      if !ch.pending.binding {
        assert c in Owners(conns, sid);
        st := FinishSetup(c, sid, verdict, encrypt, sealable);
      } else if sid !in sessions {
        PendingKept(sessions, conns, made, c, sid, Channel(false, NoPending));
        conns := With(conns, c, sid, Channel(false, NoPending));
        st := SessionDeleted;
      } else {
        st := FinishBinding(c, sid, proof, encrypt, sealable);
      }
    }

    method FinishBinding(c: ConnId, sid: Sid, proof: bool, encrypt: bool, sealable: bool) returns (st: Status)
      requires Valid() && c in conns && sid in conns[c] && conns[c][sid] == Channel(false, Ntlm(true)) && sid in sessions
      modifies this
      ensures Valid() && made == old(made)
      ensures if old(sessions)[sid].established && !old(sessions)[sid].guest && proof && (encrypt ==> sealable)
              then st == Success && conns == With(old(conns), c, sid, EST)
                   && sessions == old(sessions)[sid := old(sessions)[sid].(channels := old(sessions)[sid].channels + 1)]
              else st == AccessDenied && conns == Without(old(conns), c, sid) && sessions == old(sessions)
    {
      var s := sessions[sid];
      if s.established && !s.guest && proof && (encrypt ==> sealable) {
        Bound(sessions, conns, made, c, sid);
        sessions := sessions[sid := s.(channels := s.channels + 1)];
        conns := With(conns, c, sid, EST);
        st := Success;
      } else {
        PendingDropped(sessions, conns, made, c, sid);
        conns := Without(conns, c, sid);
        st := AccessDenied;
      }
    }

    method FinishSetup(c: ConnId, sid: Sid, verdict: Verdict, encrypt: bool, sealable: bool) returns (st: Status)
      requires Valid() && c in conns && sid in conns[c] && conns[c][sid].Own()
      modifies this
      ensures Valid() && made == old(made)
      ensures if (verdict.User? && (encrypt ==> sealable)) || (verdict.Guest? && !encrypt)
              then st == Success && conns == With(old(conns), c, sid, EST)
                   && sessions == old(sessions)[sid := Session(true, verdict.Guest?, 1)]
              else st == (if verdict.Reject? then LogonFailure else AccessDenied)
                   && conns == Without(old(conns), c, sid) && sessions == old(sessions) - {sid}
    {
      if (verdict.User? && (encrypt ==> sealable)) || (verdict.Guest? && !encrypt) {
        SetupDone(sessions, conns, made, c, sid, verdict.Guest?);
        sessions := sessions[sid := Session(true, verdict.Guest?, 1)];
        conns := With(conns, c, sid, EST);
        st := Success;
      } else {
        st := if verdict.Reject? then LogonFailure else AccessDenied;
        Abandon(c, sid);
      }
    }

    /** Drop a setup and the session it was for. */
    method Abandon(c: ConnId, sid: Sid)
      requires Valid() && c in conns && sid in conns[c] && conns[c][sid].Own()
      modifies this
      ensures Valid() && made == old(made) && conns == Without(old(conns), c, sid) && sessions == old(sessions) - {sid}
    {
      SetupFailed(sessions, conns, made, c, sid);
      conns := Without(conns, c, sid);
      sessions := sessions - {sid};
    }

    method Enter(c: ConnId, newSid: Sid, guest: bool)
      requires Valid() && c in conns && newSid !in made
      modifies this
      ensures Valid() && conns == With(old(conns), c, newSid, EST)
      ensures sessions == old(sessions)[newSid := Session(true, guest, 1)]
    {
      BornEstablished(sessions, conns, made, c, newSid, guest);
      sessions := sessions[newSid := Session(true, guest, 1)];
      conns := With(conns, c, newSid, EST);
      made := made + {newSid};
    }

    /** No security token at all. */
    method Anonymous(c: ConnId, allowGuest: bool, encrypt: bool, newSid: Sid) returns (st: Status)
      requires Valid() && c in conns && newSid !in made
      modifies this
      ensures Valid() && (st.Success? <==> allowGuest && !encrypt)
      ensures st.Success? ==> sessions == old(sessions)[newSid := Session(true, true, 1)]
                              && conns == With(old(conns), c, newSid, EST)
      ensures !st.Success? ==> sessions == old(sessions) && conns == old(conns)
    {
      if !allowGuest {
        st := LogonFailure;
      } else if encrypt {
        st := AccessDenied;
      } else {
        Enter(c, newSid, true);
        st := Success;
      }
    }

    /** One Kerberos leg. */
    method KerberosLeg(c: ConnId, sid: Sid, step: GssStep, encrypt: bool, sealable: bool, newSid: Sid) returns (st: Status)
      requires Valid() && c in conns && newSid !in made
      modifies this
      ensures Valid()
      ensures var existing := sid in old(conns)[c] && old(conns)[c][sid].pending.Krb?;
              if step.Done? && (encrypt ==> sealable)
              then var s := if existing then sid else newSid;
                   && st == Success && conns == With(old(conns), c, s, EST)
                   && sessions == old(sessions)[s := Session(true, false, 1)]
              else if !step.Continue?
              then && st == (if step.Done? then AccessDenied else LogonFailure)
                   && (if existing then conns == Without(old(conns), c, sid) && sessions == old(sessions) - {sid}
                       else conns == old(conns) && sessions == old(sessions))
              else if existing then st == MoreProcessing && conns == old(conns) && sessions == old(sessions)
              else if |Unfinished(old(conns)[c])| >= MAX_PENDING_SETUPS
              then st == InsufficientResources && conns == old(conns) && sessions == old(sessions)
              else st == MoreProcessing && conns == With(old(conns), c, newSid, Channel(false, Krb))
                   && sessions == old(sessions)[newSid := Session(false, false, 0)]
    {
      var existing := sid in conns[c] && conns[c][sid].pending.Krb?;
      if existing {
        st := ContinueLeg(c, sid, step, encrypt, sealable);
      } else if step.Continue? {
        st := Start(c, newSid, Krb);
      } else if step.Done? && (encrypt ==> sealable) {
        Enter(c, newSid, false);
        st := Success;
      } else {
        st := if step.Done? then AccessDenied else LogonFailure;
      }
    }

    method ContinueLeg(c: ConnId, sid: Sid, step: GssStep, encrypt: bool, sealable: bool) returns (st: Status)
      requires Valid() && c in conns && sid in conns[c] && conns[c][sid].pending.Krb?
      modifies this
      ensures Valid()
      ensures if step.Done? && (encrypt ==> sealable)
              then st == Success && conns == With(old(conns), c, sid, EST)
                   && sessions == old(sessions)[sid := Session(true, false, 1)]
              else if step.Continue? then st == MoreProcessing && conns == old(conns) && sessions == old(sessions)
              else st == (if step.Done? then AccessDenied else LogonFailure)
                   && conns == Without(old(conns), c, sid) && sessions == old(sessions) - {sid}
    {
      assert conns[c][sid].Own();
      if step.Continue? {
        st := MoreProcessing;
      } else if step.Done? && (encrypt ==> sealable) {
        SetupDone(sessions, conns, made, c, sid, false);
        sessions := sessions[sid := Session(true, false, 1)];
        conns := With(conns, c, sid, EST);
        st := Success;
      } else {
        st := if step.Done? then AccessDenied else LogonFailure;
        Abandon(c, sid);
      }
    }

    /** Only an established channel can log off. */
    method Logoff(c: ConnId, sid: Sid) returns (st: Status)
      requires Valid() && c in conns
      modifies this
      ensures Valid()
      ensures st.Success? <==> sid in old(conns)[c] && old(conns)[c][sid].established
      ensures st.Success? ==> sid in old(sessions) && conns == Without(old(conns), c, sid) && sessions == Leave(old(sessions), sid)
      ensures !st.Success? ==> conns == old(conns) && sessions == old(sessions)
    {
      if !(sid in conns[c] && conns[c][sid].established) { return SessionDeleted; }
      Depart(c, sid);
      st := Success;
    }

    method Depart(c: ConnId, sid: Sid)
      requires Valid() && c in conns && sid in conns[c] && conns[c][sid].established
      modifies this
      ensures Valid() && made == old(made) && sid in old(sessions)
      ensures conns == Without(old(conns), c, sid) && sessions == Leave(old(sessions), sid)
    {
      ChannelLeft(sessions, conns, made, c, sid);
      conns := Without(conns, c, sid);
      sessions := Leave(sessions, sid);
    }

    /** Drop one channel of a connection that is gone. */
    method DropChannel(c: ConnId, sid: Sid)
      requires Valid() && c in conns && sid in conns[c]
      modifies this
      ensures Valid() && made == old(made) && conns == Without(old(conns), c, sid) && Kept(sessions, old(sessions))
    {
      if conns[c][sid].established {
        Depart(c, sid);
      } else if sid in sessions && !sessions[sid].established {
        assert At(sessions, conns, made, sid) && c in Named(conns, sid);
        Abandon(c, sid);
      } else {
        assert At(sessions, conns, made, sid);
        assert c in Owners(conns, sid) ==> sid in sessions;
        PendingDropped(sessions, conns, made, c, sid);
        conns := Without(conns, c, sid);
      }
    }

    /** A connection is gone: everything it held goes with it. */
    method TeardownConn(c: ConnId)
      requires Valid() && c in conns
      modifies this
      ensures Valid() && conns == old(conns)[c := map[]] && Kept(sessions, old(sessions))
    {
      while conns[c] != map[]
        invariant Valid() && conns.Keys == old(conns).Keys
        invariant conns == old(conns)[c := conns[c]] && Kept(sessions, old(sessions))
        decreases |conns[c]|
      {
        assert conns[c].Keys != {};
        var sid :| sid in conns[c];
        assert (conns[c] - {sid}).Keys == conns[c].Keys - {sid};
        DropChannel(c, sid);
      }
    }

    /** Tearing down every connection empties the registry. */
    method TeardownAll()
      requires Valid()
      modifies this
      ensures Valid() && sessions == map[] && conns.Keys == old(conns).Keys
    {
      var left := conns.Keys;
      while left != {}
        invariant Valid() && left <= conns.Keys == old(conns).Keys
        invariant forall c :: c in conns && c !in left ==> conns[c] == map[]
        decreases |left|
      {
        var c :| c in left;
        TeardownConn(c);
        left := left - {c};
      }
      NoChannelsNoSessions(sessions, conns, made);
    }
  }
}
