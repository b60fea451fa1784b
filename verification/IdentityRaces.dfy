/** Refresh calls that race for one token, and the reuse of spent tokens. */
module IdentityRaces {
  import opened Wrappers
  import opened Tokens
  import opened IdentityMachine
  import opened IdentityFamilies
  import opened IdentityInvariant
  import opened IdentityRuns

  // ---------- Credentials that were handed out ----------

  ghost predicate HandsOut(pc: Pc) { pc.Done? && pc.outcome.Issued? }

  ghost predicate CredentialsStored(db: Store, creds: Credentials) {
    SnapOf(db, creds.session) && CredentialsMatch(creds)
  }

  /** Credentials that were handed out belong to stored rows, no two to the same row. */
  ghost predicate IssuedOk(s: State) {
    && (forall c | c in s.calls && HandsOut(s.calls[c].pc) :: CredentialsStored(s.db, s.calls[c].pc.outcome.credentials))
    && (forall c, d | c in s.calls && d in s.calls && c != d && HandsOut(s.calls[c].pc) && HandsOut(s.calls[d].pc) ::
          s.calls[c].pc.outcome.credentials.session.id != s.calls[d].pc.outcome.credentials.session.id)
  }

  /** A step that hands out credentials has just stored their session under a new id. */
  lemma IssuingStep(cfg: Config, s: State, c: CallId, choice: Choice)
    requires Enabled(s, Advance(c, choice)) && CallOk(s, s.calls[c])
    requires NextPc(cfg, s, c, choice).Done? && NextPc(cfg, s, c, choice).outcome.Issued?
    ensures var creds := NextPc(cfg, s, c, choice).outcome.credentials; var db' := NextDb(s, c, choice);
      CredentialsStored(db', creds) && creds.session.id.value !in s.db
  {
  }

  /** A call with credentials had them before the step, or got them in it, for a row that is new. */
  lemma HandedOutBy(cfg: Config, s: State, a: Action, c: CallId)
    requires Enabled(s, a) && CallsOk(s) && c in Next(cfg, s, a).calls && HandsOut(Next(cfg, s, a).calls[c].pc)
    ensures !(a.Advance? && a.c == c) ==> c in s.calls && Next(cfg, s, a).calls[c] == s.calls[c]
    ensures a.Advance? && a.c == c ==>
      var creds := Next(cfg, s, a).calls[c].pc.outcome.credentials;
      CredentialsStored(Next(cfg, s, a).db, creds) && creds.session.id.value !in s.db
  {
    if a.Advance? && a.c == c {
      assert CallOk(s, s.calls[c]);
      IssuingStep(cfg, s, c, a.choice);
    }
  }

  lemma NextIssuedOk(cfg: Config, s: State, a: Action)
    requires Enabled(s, a) && CallsOk(s) && IssuedOk(s)
    ensures IssuedOk(Next(cfg, s, a))
  {
    var s' := Next(cfg, s, a);
    NextEvolves(cfg, s, a);
    forall c | c in s'.calls && HandsOut(s'.calls[c].pc)
      ensures CredentialsStored(s'.db, s'.calls[c].pc.outcome.credentials)
    {
      HandedOutBy(cfg, s, a, c);
      if !(a.Advance? && a.c == c) { SnapKept(s.db, s'.db, s.calls[c].pc.outcome.credentials.session); }
    }
    forall c, d | c in s'.calls && d in s'.calls && c != d && HandsOut(s'.calls[c].pc) && HandsOut(s'.calls[d].pc)
      ensures s'.calls[c].pc.outcome.credentials.session.id != s'.calls[d].pc.outcome.credentials.session.id
    {
      HandedOutBy(cfg, s, a, c);
      HandedOutBy(cfg, s, a, d);
    }
  }

  lemma SnapKept(db: Store, db': Store, snap: Session)
    requires SnapOf(db, snap) && Evolves(db, db')
    ensures SnapOf(db', snap)
  {
    assert RowEvolves(db[snap.id.value], db'[snap.id.value]);
  }

  // ---------- What a refresh of a stored token leads to ----------

  /** The call presents the refresh token of row `id`. */
  ghost predicate Pursues(s: State, call: Call, id: Id) {
    && id in s.db && call.request.Refresh? && Encodable(call.request.token)
    && HasRefresh(s.db[id], Hash(call.request.token))
  }

  /** Each way such a call can end leaves its mark on the row. */
  ghost predicate Settled(s: State, call: Call, id: Id)
    requires id in s.db
  {
    call.pc.Done? ==>
      match call.pc.outcome
      case Issued(creds) => creds.session.id.Some? && s.db[id].replacedBy == creds.session.id
      case InvalidRefreshToken => s.db[id].revokedAt.Some?
      case ReusedRefreshToken => s.db[id].revokedAt.Some?
      case ExpiredRefreshToken => PastDeadline(s.db[id], s.now)
      case _ => false
  }

  lemma SnapIsRow(s: State, snap: Session, id: Id, h: TokenHash)
    requires TokensOk(s) && SnapOf(s.db, snap) && HasRefresh(snap, h) && id in s.db && HasRefresh(s.db[id], h)
    ensures snap.id == Some(id)
  {
    OneHolder(s, id, snap.id.value, h);
  }

  lemma LookupSettles(cfg: Config, s: State, fams: Families, c: CallId, choice: Choice, id: Id)
    requires Represents(s.db, fams) && TokensOk(s) && Enabled(s, Advance(c, choice)) && Pursues(s, s.calls[c], id)
    requires CallOk(s, s.calls[c]) && s.calls[c].pc.RefreshLookup?
    ensures NextPc(cfg, s, c, choice).Done? ==>
      NextPc(cfg, s, c, choice).outcome.InvalidRefreshToken? && s.db[id].revokedAt.Some?
  {
    var pc := s.calls[c].pc;
    FoundIsTheRow(s, choice.row, id, pc.h);
    UsableOrRevoked(s.db, fams, id, pc.h, pc.again);
    assert NextPc(cfg, s, c, choice) == AfterRefreshLookup(pc.h, Some(s.db[id]), pc.again);
  }

  lemma UsableOrRevoked(db: Store, fams: Families, id: Id, h: TokenHash, again: bool)
    requires Represents(db, fams) && id in db && HasRefresh(db[id], h)
    ensures AfterRefreshLookup(h, Some(db[id]), again).Done? ==>
      AfterRefreshLookup(h, Some(db[id]), again).outcome.InvalidRefreshToken? && db[id].revokedAt.Some?
  {
    RowIsSnap(db, fams, id);
  }

  lemma FoundIsTheRow(s: State, row: Option<Id>, id: Id, h: TokenHash)
    requires TokensOk(s) && id in s.db && HasRefresh(s.db[id], h) && FindsRefresh(s.db, h, row)
    ensures row == Some(id) && RowAt(s.db, row) == Some(s.db[id])
  {
    if row.Some? { OneHolder(s, id, row.value, h); }
  }

  lemma CheckSettles(cfg: Config, s: State, c: CallId, choice: Choice, id: Id)
    requires TokensOk(s) && Enabled(s, Advance(c, choice)) && Pursues(s, s.calls[c], id)
    requires CallOk(s, s.calls[c]) && s.calls[c].pc.RefreshCheck?
    ensures NextPc(cfg, s, c, choice).Done? ==>
      NextPc(cfg, s, c, choice).outcome.ExpiredRefreshToken? && PastDeadline(s.db[id], s.now)
  {
    SnapIsRow(s, s.calls[c].pc.session, id, s.calls[c].pc.h);
  }

  lemma ReplaceSettles(cfg: Config, s: State, c: CallId, choice: Choice, id: Id)
    requires TokensOk(s) && Enabled(s, Advance(c, choice)) && Pursues(s, s.calls[c], id)
    requires CallOk(s, s.calls[c]) && s.calls[c].pc.RefreshReplace?
    ensures var pc' := NextPc(cfg, s, c, choice); pc'.Done? ==>
      && pc'.outcome.Issued? && pc'.outcome.credentials.session.id.Some?
      && id in NextDb(s, c, choice) && NextDb(s, c, choice)[id].replacedBy == pc'.outcome.credentials.session.id
  {
    SnapIsRow(s, s.calls[c].pc.session, id, s.calls[c].pc.h);
  }

  lemma RevokeRowsSettles(cfg: Config, s: State, c: CallId, choice: Choice, id: Id)
    requires TokensOk(s) && Enabled(s, Advance(c, choice)) && Pursues(s, s.calls[c], id)
    requires CallOk(s, s.calls[c]) && s.calls[c].pc.RevokeRows?
    ensures NextPc(cfg, s, c, choice) == Done(ReusedRefreshToken)
    ensures id in NextDb(s, c, choice) && NextDb(s, c, choice)[id].revokedAt.Some?
  {
    SnapIsRow(s, s.calls[c].pc.session.(revokedAt := None), id, Hash(s.calls[c].request.token));
  }

  /** The last step of the call leaves the mark of its outcome on the row. */
  lemma MoverSettles(cfg: Config, s: State, fams: Families, c: CallId, choice: Choice, id: Id)
    requires Represents(s.db, fams) && TokensOk(s) && Enabled(s, Advance(c, choice)) && Pursues(s, s.calls[c], id)
    requires CallOk(s, s.calls[c]) && Evolves(s.db, NextDb(s, c, choice))
    ensures Settled(Next(cfg, s, Advance(c, choice)), s.calls[c].(pc := NextPc(cfg, s, c, choice)), id)
  {
    var pc := s.calls[c].pc;
    assert RowEvolves(s.db[id], NextDb(s, c, choice)[id]);
    if pc.RefreshLookup? {
      LookupSettles(cfg, s, fams, c, choice, id);
    } else if pc.RefreshCheck? {
      CheckSettles(cfg, s, c, choice, id);
    } else if pc.RefreshReplace? {
      ReplaceSettles(cfg, s, c, choice, id);
    } else if pc.RevokeRows? {
      RevokeRowsSettles(cfg, s, c, choice, id);
    } else {
      assert pc.RefreshCreate? || pc.Stamp?;
    }
  }

  /** A refresh of row `id`'s token that began after state `s`, in which the row was stored. */
  ghost predicate LaterRefresh(cfg: Config, s: State, acts: seq<Action>, c: CallId, id: Id) {
    && Reachable(cfg, s) && Legal(cfg, s, acts) && id in s.db && s.db[id].refreshHash.Some?
    && c !in s.calls && c in Exec(cfg, s, acts).calls
    && Exec(cfg, s, acts).calls[c].request.Refresh?
    && GetTokenHash(Exec(cfg, s, acts).calls[c].request.token) == s.db[id].refreshHash
  }

  ghost predicate PursuesAndSettled(s: State, c: CallId, id: Id) {
    c in s.calls && Pursues(s, s.calls[c], id) && Settled(s, s.calls[c], id)
  }

  /** A call keeps its request, and appears only by beginning. */
  lemma CallHistory(cfg: Config, s: State, a: Action, c: CallId)
    requires Enabled(s, a) && c in Next(cfg, s, a).calls
    ensures c in s.calls ==> Next(cfg, s, a).calls[c].request == s.calls[c].request
    ensures c in s.calls && !(a.Advance? && a.c == c) ==> Next(cfg, s, a).calls[c] == s.calls[c]
    ensures c !in s.calls ==> a.Begin? && a.c == c && Next(cfg, s, a).calls[c] == Call(a.request, FirstPc(a.request))
    ensures c in s.calls && a.Advance? && a.c == c ==>
      Next(cfg, s, a).calls[c] == s.calls[c].(pc := NextPc(cfg, s, c, a.choice))
  {
  }

  lemma SettledIsStable(s: State, s': State, call: Call, id: Id)
    requires id in s.db && Settled(s, call, id) && Evolves(s.db, s'.db) && s.now <= s'.now
    ensures id in s'.db && Settled(s', call, id)
  {
    assert RowEvolves(s.db[id], s'.db[id]);
  }

  lemma SettlesStep(cfg: Config, s: State, fams: Families, a: Action, c: CallId, id: Id)
    requires Inv(s, fams) && Enabled(s, a) && PursuesAndSettled(s, c, id)
    ensures PursuesAndSettled(Next(cfg, s, a), c, id)
  {
    var s' := Next(cfg, s, a);
    NextEvolves(cfg, s, a);
    RowHashesKept(s.db, s'.db, id);
    CallHistory(cfg, s, a, c);
    if a.Advance? && a.c == c {
      assert CallOk(s, s.calls[c]);
      MoverSettles(cfg, s, fams, c, a.choice, id);
    } else {
      SettledIsStable(s, s', s.calls[c], id);
    }
  }

  lemma BeginSettles(cfg: Config, s: State, a: Action, c: CallId, id: Id)
    requires Enabled(s, a) && c !in s.calls && c in Next(cfg, s, a).calls && id in s.db && s.db[id].refreshHash.Some?
    requires Next(cfg, s, a).calls[c].request.Refresh?
    requires GetTokenHash(Next(cfg, s, a).calls[c].request.token) == s.db[id].refreshHash
    ensures PursuesAndSettled(Next(cfg, s, a), c, id)
    ensures Next(cfg, s, a).calls[c].pc == RefreshLookup(Hash(Next(cfg, s, a).calls[c].request.token), false)
  {
  }

  /** Everything a run from `s` keeps, one step before its end. */
  lemma LastStep(cfg: Config, s: State, acts: seq<Action>, id: Id) returns (fams: Families)
    requires Reachable(cfg, s) && Legal(cfg, s, acts) && acts != [] && id in s.db
    ensures var front := acts[..|acts|-1]; var m := Exec(cfg, s, front);
      Legal(cfg, s, front) && Enabled(m, acts[|acts|-1]) && Inv(m, fams) && id in m.db && RowEvolves(s.db[id], m.db[id])
  {
    var before := ReachableInv(cfg, s);
    var front := acts[..|acts|-1];
    RunEvolves(cfg, s, before, front);
    RunInv(cfg, s, before, front);
    fams := FamiliesAfter(cfg, s, before, front);
  }

  /** A refresh begun after its token was stored: every later state finds it settled. */
  lemma {:induction false} RefreshSettles(cfg: Config, s: State, acts: seq<Action>, c: CallId, id: Id)
    requires LaterRefresh(cfg, s, acts, c, id)
    ensures PursuesAndSettled(Exec(cfg, s, acts), c, id)
  {
    var fams := LastStep(cfg, s, acts, id);
    var front, a := acts[..|acts|-1], acts[|acts|-1];
    var m := Exec(cfg, s, front);
    CallHistory(cfg, m, a, c);
    if c in m.calls {
      RefreshSettles(cfg, s, front, c, id);
      SettlesStep(cfg, m, fams, a, c, id);
    } else {
      BeginSettles(cfg, m, a, c, id);
    }
  }

  // ---------- Reuse ----------

  /** A call that met the replaced row on its first lookup can only be on its way to revoking the family. */
  ghost predicate OnlyRevokes(pc: Pc) {
    match pc
    case RefreshLookup(_, again) => !again
    case Stamp(_, _) => true
    case RevokeRows(_, _) => true
    case Done(outcome) => outcome.InvalidRefreshToken? || outcome.ReusedRefreshToken?
    case _ => false
  }

  lemma OnlyRevokesStep(cfg: Config, s: State, c: CallId, choice: Choice, id: Id)
    requires TokensOk(s) && Enabled(s, Advance(c, choice)) && Pursues(s, s.calls[c], id) && CallOk(s, s.calls[c])
    requires s.db[id].replacedBy.Some? && OnlyRevokes(s.calls[c].pc)
    ensures OnlyRevokes(NextPc(cfg, s, c, choice))
  {
    match s.calls[c].pc
    case RefreshLookup(h, _) =>
      assert choice.row.Some?;
      OneHolder(s, id, choice.row.value, h);
    case Stamp(_, _) =>
    case RevokeRows(_, _) =>
  }

  lemma {:induction false} SpentTokenOnlyRevokes(cfg: Config, s: State, acts: seq<Action>, c: CallId, id: Id)
    requires LaterRefresh(cfg, s, acts, c, id) && s.db[id].replacedBy.Some?
    ensures OnlyRevokes(Exec(cfg, s, acts).calls[c].pc)
  {
    var fams := LastStep(cfg, s, acts, id);
    var front, a := acts[..|acts|-1], acts[|acts|-1];
    var m := Exec(cfg, s, front);
    CallHistory(cfg, m, a, c);
    if c in m.calls {
      SpentTokenOnlyRevokes(cfg, s, front, c, id);
      if a.Advance? && a.c == c {
        RefreshSettles(cfg, s, front, c, id);
        assert CallOk(m, m.calls[c]);
        OnlyRevokesStep(cfg, m, c, a.choice, id);
      }
    } else {
      BeginSettles(cfg, m, a, c, id);
    }
  }

  lemma ReachableLater(cfg: Config, s: State, acts: seq<Action>)
    requires Reachable(cfg, s) && Legal(cfg, s, acts)
    ensures Reachable(cfg, Exec(cfg, s, acts))
  {
    var start, before :| Legal(cfg, Init(start), before) && s == Exec(cfg, Init(start), before);
    ExecConcat(cfg, Init(start), before, acts);
  }

  lemma {:induction false} ExecConcat(cfg: Config, s: State, xs: seq<Action>, ys: seq<Action>)
    requires Legal(cfg, s, xs) && Legal(cfg, Exec(cfg, s, xs), ys)
    ensures Legal(cfg, s, xs + ys) && Exec(cfg, s, xs + ys) == Exec(cfg, Exec(cfg, s, xs), ys)
    decreases |ys|
  {
    if ys == [] {
      assert xs + ys == xs;
    } else {
      var front, a := ys[..|ys|-1], ys[|ys|-1];
      ExecConcat(cfg, s, xs, front);
      ExecSnoc(cfg, s, xs + front, a);
      assert xs + ys == xs + front + [a];
    }
  }

  ghost predicate FamilyRevoked(db: Store, id: Id)
    requires id in db
  {
    forall x | x in db && db[x].familyId == db[id].familyId :: db[x].revokedAt.Some?
  }

  lemma RevokedRowRevokesFamily(cfg: Config, s: State, id: Id)
    requires Reachable(cfg, s) && id in s.db && s.db[id].revokedAt.Some?
    ensures FamilyRevoked(s.db, id)
  {
    forall x | x in s.db && s.db[x].familyId == s.db[id].familyId ensures s.db[x].revokedAt.Some? {
      RevocationIsWhole(cfg, s, id, x);
    }
  }

  /**
   Presenting a consumed refresh token, of any generation and at any time, is
   refused, and when the call ends its whole family is revoked.
   */
  lemma ReuseRevokesFamily(cfg: Config, s: State, acts: seq<Action>, c: CallId, id: Id)
    requires LaterRefresh(cfg, s, acts, c, id) && s.db[id].replacedBy.Some? && Exec(cfg, s, acts).calls[c].pc.Done?
    ensures var outcome := Exec(cfg, s, acts).calls[c].pc.outcome;
      outcome.ReusedRefreshToken? || outcome.InvalidRefreshToken?
    ensures id in Exec(cfg, s, acts).db && FamilyRevoked(Exec(cfg, s, acts).db, id)
  {
    SpentTokenOnlyRevokes(cfg, s, acts, c, id);
    RefreshSettles(cfg, s, acts, c, id);
    ReachableLater(cfg, s, acts);
    RevokedRowRevokesFamily(cfg, Exec(cfg, s, acts), id);
  }

  /** A refresh begun when its family was already revoked is refused as invalid, never reported as a reuse. */
  lemma {:induction false} RevokedTokenIsInvalid(cfg: Config, s: State, acts: seq<Action>, c: CallId, id: Id)
    requires LaterRefresh(cfg, s, acts, c, id) && s.db[id].revokedAt.Some?
    ensures var pc := Exec(cfg, s, acts).calls[c].pc;
      (pc.RefreshLookup? && !pc.again) || pc == Done(InvalidRefreshToken)
  {
    var fams := LastStep(cfg, s, acts, id);
    var front, a := acts[..|acts|-1], acts[|acts|-1];
    var m := Exec(cfg, s, front);
    CallHistory(cfg, m, a, c);
    if c in m.calls {
      RevokedTokenIsInvalid(cfg, s, front, c, id);
      if a.Advance? && a.c == c {
        RefreshSettles(cfg, s, front, c, id);
        assert CallOk(m, m.calls[c]);
        FoundIsTheRow(m, a.choice.row, id, m.calls[c].pc.h);
      }
    } else {
      BeginSettles(cfg, m, a, c, id);
    }
  }

  // ---------- Revocation by token ----------

  /** A revocation by either token of row `id` that began after state `s`, in which the row was stored. */
  ghost predicate LaterRevoke(cfg: Config, s: State, acts: seq<Action>, c: CallId, id: Id) {
    && Reachable(cfg, s) && Legal(cfg, s, acts) && id in s.db && c !in s.calls && c in Exec(cfg, s, acts).calls
    && Exec(cfg, s, acts).calls[c].request.Revoke? && Encodable(Exec(cfg, s, acts).calls[c].request.token)
    && Hash(Exec(cfg, s, acts).calls[c].request.token) in Hashes(s.db[id])
  }

  ghost predicate Revoking(s: State, c: CallId, id: Id) {
    && c in s.calls && id in s.db && s.calls[c].request.Revoke?
    && Hash(s.calls[c].request.token) in Hashes(s.db[id])
    && (s.calls[c].pc.RevokeLookupRefresh? ==> HasRefresh(s.db[id], Hash(s.calls[c].request.token)))
    && (s.calls[c].pc.Done? ==> s.db[id].revokedAt.Some?)
  }

  lemma RevokingMove(cfg: Config, s: State, c: CallId, choice: Choice, id: Id)
    requires TokensOk(s) && Enabled(s, Advance(c, choice)) && CallOk(s, s.calls[c]) && Revoking(s, c, id)
    requires Evolves(s.db, NextDb(s, c, choice))
    ensures Revoking(Next(cfg, s, Advance(c, choice)), c, id)
  {
    var pc, h := s.calls[c].pc, Hash(s.calls[c].request.token);
    RowHashesKept(s.db, NextDb(s, c, choice), id);
    if pc.RevokeRows? { OneHolder(s, id, pc.session.id.value, h); }
  }

  lemma RevokingStep(cfg: Config, s: State, fams: Families, a: Action, c: CallId, id: Id)
    requires Inv(s, fams) && Enabled(s, a) && Revoking(s, c, id)
    ensures Revoking(Next(cfg, s, a), c, id)
  {
    NextEvolves(cfg, s, a);
    CallHistory(cfg, s, a, c);
    if a.Advance? && a.c == c {
      assert CallOk(s, s.calls[c]);
      RevokingMove(cfg, s, c, a.choice, id);
    } else {
      RowHashesKept(s.db, Next(cfg, s, a).db, id);
      assert RowEvolves(s.db[id], Next(cfg, s, a).db[id]);
    }
  }

  lemma BeginRevoking(cfg: Config, s: State, a: Action, c: CallId, id: Id)
    requires Enabled(s, a) && c !in s.calls && c in Next(cfg, s, a).calls && id in s.db
    requires Next(cfg, s, a).calls[c].request.Revoke? && Encodable(Next(cfg, s, a).calls[c].request.token)
    requires Hash(Next(cfg, s, a).calls[c].request.token) in Hashes(s.db[id])
    ensures Revoking(Next(cfg, s, a), c, id)
  {
  }

  lemma {:induction false} RevokeSettles(cfg: Config, s: State, acts: seq<Action>, c: CallId, id: Id)
    requires LaterRevoke(cfg, s, acts, c, id)
    ensures Revoking(Exec(cfg, s, acts), c, id)
  {
    var fams := LastStep(cfg, s, acts, id);
    var front, a := acts[..|acts|-1], acts[|acts|-1];
    var m := Exec(cfg, s, front);
    CallHistory(cfg, m, a, c);
    if c in m.calls {
      RevokeSettles(cfg, s, front, c, id);
      RevokingStep(cfg, m, fams, a, c, id);
    } else {
      BeginRevoking(cfg, m, a, c, id);
    }
  }

  /**
   Once a revocation by any token of a family has returned, every token of that
   family is dead for good: whatever runs afterwards, no access is accepted, no
   refresh exchanged, and no row of the family added.
   */
  lemma RevokedFamilyIsDead(cfg: Config, s: State, acts: seq<Action>, c: CallId, id: Id, later: seq<Action>, x: Id)
    requires LaterRevoke(cfg, s, acts, c, id) && Exec(cfg, s, acts).calls[c].pc.Done?
    requires Legal(cfg, Exec(cfg, s, acts), later)
    requires SameFamily(Exec(cfg, Exec(cfg, s, acts), later).db, id, x)
    ensures var e := Exec(cfg, s, acts); var l := Exec(cfg, e, later);
      x in e.db && l.db[x] == e.db[x] && !Accepts(l, x) && !Replaceable(l.db, l.now, l.db[x])
  {
    var e := Exec(cfg, s, acts);
    var l := Exec(cfg, e, later);
    RevokeSettles(cfg, s, acts, c, id);
    ReachableLater(cfg, s, acts);
    ReachableLater(cfg, e, later);
    RevocationIsFinal(cfg, e, later, id);
    var fams := ReachableInv(cfg, e);
    RunEvolves(cfg, e, fams, later);
    assert RowEvolves(e.db[id], l.db[id]);
    var fams' := ReachableInv(cfg, l);
    var fid, i := Locate(l.db, fams', x);
  }

  // ---------- Two calls, one token ----------

  /** Two finished refreshes of one stored token, both begun after it was stored; `c` obtained credentials. */
  ghost predicate Race(cfg: Config, s: State, acts: seq<Action>, c: CallId, d: CallId, id: Id) {
    && c != d && LaterRefresh(cfg, s, acts, c, id) && LaterRefresh(cfg, s, acts, d, id)
    && Exec(cfg, s, acts).calls[c].pc.Done? && Exec(cfg, s, acts).calls[c].pc.outcome.Issued?
    && Exec(cfg, s, acts).calls[d].pc.Done?
  }

  lemma {:induction false} RunIssuedOk(cfg: Config, s: State, fams: Families, acts: seq<Action>)
    requires Inv(s, fams) && IssuedOk(s) && Legal(cfg, s, acts)
    ensures IssuedOk(Exec(cfg, s, acts))
  {
    if acts != [] {
      var front := acts[..|acts|-1];
      RunIssuedOk(cfg, s, fams, front);
      RunInv(cfg, s, fams, front);
      NextIssuedOk(cfg, Exec(cfg, s, front), acts[|acts|-1]);
    }
  }

  lemma ReachableIssuedOk(cfg: Config, s: State)
    requires Reachable(cfg, s)
    ensures IssuedOk(s)
  {
    var start, acts :| Legal(cfg, Init(start), acts) && s == Exec(cfg, Init(start), acts);
    RunIssuedOk(cfg, Init(start), map[], acts);
  }

  /** The loser never gets credentials, and leaves the family revoked unless it reports the deadline. */
  lemma LoserRevokesOrExpires(cfg: Config, s: State, acts: seq<Action>, c: CallId, d: CallId, id: Id)
    requires Race(cfg, s, acts, c, d, id)
    ensures var e := Exec(cfg, s, acts);
      && id in e.db && e.db[id].refreshHash.Some? && !e.calls[d].pc.outcome.Issued?
      && (FamilyRevoked(e.db, id) || (e.calls[d].pc.outcome.ExpiredRefreshToken? && PastDeadline(e.db[id], e.now)))
  {
    var e := Exec(cfg, s, acts);
    RefreshSettles(cfg, s, acts, c, id);
    RefreshSettles(cfg, s, acts, d, id);
    ReachableLater(cfg, s, acts);
    ReachableIssuedOk(cfg, e);
    if e.db[id].revokedAt.Some? { RevokedRowRevokesFamily(cfg, e, id); }
  }

  /**
   Race safety: once two refreshes of one token have finished and one of them
   obtained credentials, no access token of the family is accepted and no
   refresh token of it can be exchanged, the winner's included. Before the
   family's deadline that is because the whole family is revoked.
   */
  lemma RaceLeavesNothingAlive(cfg: Config, s: State, acts: seq<Action>, c: CallId, d: CallId, id: Id, x: Id)
    requires Race(cfg, s, acts, c, d, id) && SameFamily(Exec(cfg, s, acts).db, id, x)
    ensures var e := Exec(cfg, s, acts);
      && !Accepts(e, x) && !Replaceable(e.db, e.now, e.db[x])
      && (!PastDeadline(e.db[id], e.now) ==> e.db[x].revokedAt.Some?)
  {
    var e := Exec(cfg, s, acts);
    LoserRevokesOrExpires(cfg, s, acts, c, d, id);
    ReachableLater(cfg, s, acts);
    DeadlineCapsEveryGeneration(cfg, e, id);
    DeadlineCapsEveryGeneration(cfg, e, x);
    var fams := ReachableInv(cfg, e);
    var fid, i := Locate(e.db, fams, x);
    assert e.db[x].id == Some(x);
    if FamilyRevoked(e.db, id) { assert e.db[x].revokedAt.Some?; }
  }

  // ---------- What revokes a family ----------

  /** A finished call that revoked the family its token belongs to. */
  ghost predicate Revoker(s: State, c: CallId, fid: Option<Id>) {
    && c in s.calls && s.calls[c].pc.Done?
    && ((s.calls[c].request.Revoke? && s.calls[c].pc.outcome.Revoked?)
        || (s.calls[c].request.Refresh? && s.calls[c].pc.outcome.ReusedRefreshToken?))
    && HeldInFamily(s.db, Presented(s.calls[c].request), fid)
  }

  ghost predicate Caused(s: State) {
    forall id | id in s.db && s.db[id].revokedAt.Some? :: exists c :: Revoker(s, c, s.db[id].familyId)
  }

  lemma RevokerStays(cfg: Config, s: State, a: Action, c: CallId, fid: Option<Id>)
    requires Enabled(s, a) && CallsOk(s) && Revoker(s, c, fid)
    ensures Revoker(Next(cfg, s, a), c, fid)
  {
    NextEvolves(cfg, s, a);
    var id :| HeldBy(s.db, Presented(s.calls[c].request), id) && s.db[id].familyId == fid;
    RowHashesKept(s.db, Next(cfg, s, a).db, id);
    assert HeldBy(Next(cfg, s, a).db, Presented(s.calls[c].request), id);
  }

  /** A row turns revoked only in a revoking step of a call on its own family. */
  lemma NewlyRevoked(cfg: Config, s: State, a: Action, id: Id)
    requires Enabled(s, a) && CallsOk(s) && id in Next(cfg, s, a).db && Next(cfg, s, a).db[id].revokedAt.Some?
    requires id in s.db ==> s.db[id].revokedAt.None?
    ensures a.Advance? && Revoker(Next(cfg, s, a), a.c, Next(cfg, s, a).db[id].familyId)
  {
    var s' := Next(cfg, s, a);
    if a.Advance? {
      var call := s.calls[a.c];
      assert CallOk(s, call);
      if call.pc.RevokeRows? {
        NextEvolves(cfg, s, a);
        var x := call.pc.session.id.value;
        RowHashesKept(s.db, s'.db, x);
        assert HeldBy(s'.db, Presented(call.request), x);
      }
    }
  }

  lemma NextCaused(cfg: Config, s: State, a: Action)
    requires Enabled(s, a) && CallsOk(s) && Caused(s)
    ensures Caused(Next(cfg, s, a))
  {
    var s' := Next(cfg, s, a);
    NextEvolves(cfg, s, a);
    forall id | id in s'.db && s'.db[id].revokedAt.Some? ensures exists c :: Revoker(s', c, s'.db[id].familyId) {
      if id in s.db && s.db[id].revokedAt.Some? {
        var c :| Revoker(s, c, s.db[id].familyId);
        RevokerStays(cfg, s, a, c, s.db[id].familyId);
        assert RowEvolves(s.db[id], s'.db[id]);
      } else {
        NewlyRevoked(cfg, s, a, id);
      }
    }
  }

  lemma {:induction false} RunCaused(cfg: Config, s: State, fams: Families, acts: seq<Action>)
    requires Inv(s, fams) && Caused(s) && Legal(cfg, s, acts)
    ensures Caused(Exec(cfg, s, acts))
  {
    if acts != [] {
      var front := acts[..|acts|-1];
      RunCaused(cfg, s, fams, front);
      RunInv(cfg, s, fams, front);
      NextCaused(cfg, Exec(cfg, s, front), acts[|acts|-1]);
    }
  }

  /** No family is revoked unless one of its own tokens was revoked, or a spent one presented again. */
  lemma RevocationHasCause(cfg: Config, s: State, id: Id)
    requires Reachable(cfg, s) && id in s.db && s.db[id].revokedAt.Some?
    ensures exists c :: Revoker(s, c, s.db[id].familyId)
  {
    var start, acts :| Legal(cfg, Init(start), acts) && s == Exec(cfg, Init(start), acts);
    RunCaused(cfg, Init(start), map[], acts);
  }
}
