/**
 What every step of every call keeps: the rows represent families, no token is
 shared, and each call's snapshot is an earlier version of a stored row.
 */
module IdentityInvariant {
  import opened Wrappers
  import opened Tokens
  import opened IdentityMachine
  import opened IdentityFamilies

  // ---------- How rows evolve ----------

  /** A row keeps everything but its two nullable marks, and a mark once set stays as it is. */
  ghost predicate RowEvolves(r: Session, r': Session) {
    && r' == r.(replacedBy := r'.replacedBy, revokedAt := r'.revokedAt)
    && (r.replacedBy.Some? ==> r'.replacedBy == r.replacedBy)
    && (r.revokedAt.Some? ==> r'.revokedAt == r.revokedAt)
  }

  ghost predicate Evolves(db: Store, db': Store) {
    forall id | id in db :: id in db' && RowEvolves(db[id], db'[id])
  }

  lemma EvolvesTransitive(a: Store, b: Store, c: Store)
    requires Evolves(a, b) && Evolves(b, c)
    ensures Evolves(a, c)
  {
    forall id | id in a ensures id in c && RowEvolves(a[id], c[id]) {
      assert RowEvolves(a[id], b[id]) && RowEvolves(b[id], c[id]);
    }
  }

  // ---------- What a call knows ----------

  /** `snap` is a row as it once was. */
  ghost predicate SnapOf(db: Store, snap: Session) {
    snap.id.Some? && snap.id.value in db && RowEvolves(snap, db[snap.id.value])
  }

  ghost predicate Usable(snap: Session, h: TokenHash) {
    HasRefresh(snap, h) && snap.revokedAt.None? && snap.replacedBy.None? && snap.refreshExpiresAt.Some?
  }

  ghost predicate PastDeadline(row: Session, now: int) {
    row.refreshExpiresAt.Some? && row.refreshExpiresAt.value <= now
  }

  /** The refresh token can never be exchanged again; each of the three reasons is permanent. */
  ghost predicate Unusable(db: Store, now: int, h: TokenHash) {
    exists id :: id in db && HasRefresh(db[id], h) &&
      (db[id].revokedAt.Some? || db[id].replacedBy.Some? || PastDeadline(db[id], now))
  }

  ghost predicate CredentialsMatch(creds: Credentials) {
    && creds.session.tokenHash == Hash(creds.token)
    && creds.session.refreshHash == (if creds.refresh.Some? then Some(Hash(creds.refresh.value)) else None)
  }

  /** The session a revocation starts from, whatever revocation time it now carries. */
  ghost predicate RevocationOk(db: Store, request: Request, session: Session, outcome: Outcome) {
    && SnapOf(db, session.(revokedAt := None))
    && match request
       case Refresh(t, _) => outcome == ReusedRefreshToken && HasRefresh(session, Hash(t)) && session.replacedBy.Some?
       case Revoke(t) => outcome == Revoked && (HasAccess(session, Hash(t)) || HasRefresh(session, Hash(t)))
       case _ => false
  }

  ghost predicate CallOk(s: State, call: Call) {
    var request := call.request;
    match call.pc
    case IssueCreate => request.Issue?
    case IssueInsert(creds) =>
      && request.Issue? && CredentialsMatch(creds) && OpensFamily(creds.session)
      && ClaimsOf(creds.session) == request.claims.(context := CopyContext(request.claims.context))
      && creds.refresh.Some? == request.wantRefresh
    case ValidateLookup(h) => request.Validate? && GetTokenHash(request.token) == Some(h)
    case ValidateCheck(snap) =>
      && request.Validate? && SnapOf(s.db, snap) && HasAccess(snap, Hash(request.token))
      && snap.revokedAt.None? && snap.replacedBy.None?
    case RefreshLookup(h, again) =>
      request.Refresh? && GetTokenHash(request.token) == Some(h) && (again ==> Unusable(s.db, s.now, h))
    case RefreshCheck(h, snap, again) =>
      && request.Refresh? && GetTokenHash(request.token) == Some(h) && SnapOf(s.db, snap) && Usable(snap, h)
      && (again ==> PastDeadline(snap, s.now))
    case RefreshCreate(h, snap) =>
      request.Refresh? && GetTokenHash(request.token) == Some(h) && SnapOf(s.db, snap) && Usable(snap, h)
    case RefreshReplace(h, snap, creds) =>
      && request.Refresh? && GetTokenHash(request.token) == Some(h) && SnapOf(s.db, snap) && Usable(snap, h)
      && CredentialsMatch(creds) && Continues(creds.session, snap) && creds.refresh.Some? == request.wantRefresh
    case RefreshFallback => false
    case RevokeLookupAccess(h) => request.Revoke? && GetTokenHash(request.token) == Some(h)
    case RevokeLookupRefresh(h) => request.Revoke? && GetTokenHash(request.token) == Some(h)
    case Stamp(session, outcome) => RevocationOk(s.db, request, session, outcome)
    case RevokeRows(session, outcome) =>
      RevocationOk(s.db, request, session, outcome) && session.revokedAt.Some? && session.revokedAt.value <= s.now
    case Done(_) => true
  }

  // ---------- Tokens are never shared ----------

  ghost function Hashes(session: Session): set<TokenHash> {
    {session.tokenHash} + (if session.refreshHash.Some? then {session.refreshHash.value} else {})
  }

  /** The session a call has created but not stored. */
  ghost function InFlight(pc: Pc): Option<Session> {
    match pc
    case IssueInsert(creds) => Some(creds.session)
    case RefreshReplace(_, _, creds) => Some(creds.session)
    case _ => None
  }

  ghost predicate TwoTokens(session: Session, drawn: set<Token>) {
    session.refreshHash != Some(session.tokenHash) && forall h | h in Hashes(session) :: h.token in drawn
  }

  ghost predicate RowTokensOk(db: Store, drawn: set<Token>) {
    && (forall id | id in db :: TwoTokens(db[id], drawn))
    && (forall a, b | a in db && b in db && a != b :: Hashes(db[a]) !! Hashes(db[b]))
  }

  ghost predicate TokensOk(s: State) {
    && RowTokensOk(s.db, s.drawn)
    && (forall c | c in s.calls && InFlight(s.calls[c].pc).Some? :: TwoTokens(InFlight(s.calls[c].pc).value, s.drawn))
    && (forall c, id | c in s.calls && InFlight(s.calls[c].pc).Some? && id in s.db ::
          Hashes(InFlight(s.calls[c].pc).value) !! Hashes(s.db[id]))
    && (forall c, d | c in s.calls && d in s.calls && c != d && InFlight(s.calls[c].pc).Some? && InFlight(s.calls[d].pc).Some? ::
          Hashes(InFlight(s.calls[c].pc).value) !! Hashes(InFlight(s.calls[d].pc).value))
  }

  /** A token belongs to one row, so both lookups have one answer. */
  lemma OneHolder(s: State, a: Id, b: Id, h: TokenHash)
    requires TokensOk(s) && a in s.db && b in s.db && h in Hashes(s.db[a]) && h in Hashes(s.db[b])
    ensures a == b
  {
  }

  // ---------- The invariant ----------

  ghost predicate CallsOk(s: State) {
    forall c | c in s.calls :: CallOk(s, s.calls[c])
  }

  ghost predicate Inv(s: State, fams: Families) {
    Represents(s.db, fams) && CallsOk(s) && TokensOk(s)
  }

  /** The families after a step; only three kinds of step change them, each in one atomic operation. */
  ghost function NextFamilies(s: State, fams: Families, a: Action): Families
    requires Enabled(s, a)
  {
    if !a.Advance? then fams else
    match s.calls[a.c].pc
    case IssueInsert(creds) => fams[a.choice.id := NewFamily(creds.session, a.choice.id)]
    case RefreshReplace(_, session, creds) =>
      if Replaceable(s.db, s.now, session) && session.familyId.Some? && session.familyId.value in fams
      then fams[session.familyId.value := Rotated(fams[session.familyId.value], creds.session, a.choice.id)]
      else fams
    case RevokeRows(session, _) =>
      if session.familyId.Some? && session.familyId.value in fams
      then fams[session.familyId.value := RevokedFamily(fams[session.familyId.value], session.revokedAt)]
      else fams
    case _ => fams
  }

  lemma NextEvolves(cfg: Config, s: State, a: Action)
    requires Enabled(s, a) && CallsOk(s)
    ensures s.now <= Next(cfg, s, a).now && Evolves(s.db, Next(cfg, s, a).db)
  {
    if a.Advance? {
      assert CallOk(s, s.calls[a.c]);
      match s.calls[a.c].pc
      case RefreshReplace(_, snap, _) =>
      case RevokeRows(session, _) =>
      case _ =>
    }
  }

  lemma FamilyOfSnap(db: Store, fams: Families, snap: Session)
    requires Represents(db, fams) && SnapOf(db, snap)
    ensures snap.familyId.Some? && snap.familyId.value in fams
    ensures CopyContext(snap.context) == snap.context
  {
    var fid, i := Locate(db, fams, snap.id.value);
  }

  lemma NextRepresents(cfg: Config, s: State, fams: Families, a: Action)
    requires Enabled(s, a) && Inv(s, fams)
    ensures Represents(Next(cfg, s, a).db, NextFamilies(s, fams, a))
  {
    if a.Advance? {
      assert CallOk(s, s.calls[a.c]);
      match s.calls[a.c].pc
      case IssueInsert(creds) => InsertRepresents(s.db, fams, creds.session, a.choice.id);
      case RefreshReplace(_, snap, creds) =>
        if Replaceable(s.db, s.now, snap) {
          ReplaceRepresents(s.db, fams, s.now, snap, creds.session, a.choice.id);
        }
      case RevokeRows(session, _) =>
        FamilyOfSnap(s.db, fams, session.(revokedAt := None));
        RevokeRepresents(s.db, fams, session);
      case _ =>
    }
  }

  // ---------- Calls ----------

  lemma UnusableIsStable(s: State, s': State, h: TokenHash)
    requires Unusable(s.db, s.now, h) && Evolves(s.db, s'.db) && s.now <= s'.now
    ensures Unusable(s'.db, s'.now, h)
  {
    var id :| id in s.db && HasRefresh(s.db[id], h) &&
      (s.db[id].revokedAt.Some? || s.db[id].replacedBy.Some? || PastDeadline(s.db[id], s.now));
    assert RowEvolves(s.db[id], s'.db[id]);
  }

  /** No step of another call can make a call's knowledge wrong. */
  lemma CallOkIsStable(s: State, s': State, call: Call)
    requires CallOk(s, call) && Evolves(s.db, s'.db) && s.now <= s'.now
    ensures CallOk(s', call)
  {
    if call.pc.RefreshLookup? && call.pc.again { UnusableIsStable(s, s', call.pc.h); }
  }

  /** A rejected replacement means the token is unusable for good. */
  lemma RejectedIsUnusable(s: State, fams: Families, snap: Session, h: TokenHash)
    requires Represents(s.db, fams) && SnapOf(s.db, snap) && Usable(snap, h) && !Replaceable(s.db, s.now, snap)
    ensures Unusable(s.db, s.now, h)
  {
    var id := snap.id.value;
    var fid, i := Locate(s.db, fams, id);
    assert HasRefresh(s.db[id], h);
  }

  lemma RowIsSnap(db: Store, fams: Families, id: Id)
    requires Represents(db, fams) && id in db
    ensures SnapOf(db, db[id]) && (db[id].refreshHash.Some? ==> db[id].refreshExpiresAt.Some?)
    ensures SnapOf(db, db[id].(revokedAt := None))
  {
    var fid, i := Locate(db, fams, id);
  }

  /** The second lookup of a rejected refresh meets the reason for the rejection. */
  lemma FoundUnusable(s: State, id: Id, h: TokenHash)
    requires TokensOk(s) && Unusable(s.db, s.now, h) && id in s.db && HasRefresh(s.db[id], h)
    ensures s.db[id].revokedAt.Some? || s.db[id].replacedBy.Some? || PastDeadline(s.db[id], s.now)
  {
    var other :| other in s.db && HasRefresh(s.db[other], h) &&
      (s.db[other].revokedAt.Some? || s.db[other].replacedBy.Some? || PastDeadline(s.db[other], s.now));
    OneHolder(s, id, other, h);
  }

  /** Where a found row leads is consistent with what the row says. */
  lemma FoundRowOk(s: State, request: Request, h: TokenHash, id: Id, again: bool)
    requires request.Refresh? && GetTokenHash(request.token) == Some(h)
    requires id in s.db && HasRefresh(s.db[id], h) && SnapOf(s.db, s.db[id]) && SnapOf(s.db, s.db[id].(revokedAt := None))
    requires again ==> s.db[id].revokedAt.Some? || s.db[id].replacedBy.Some? || PastDeadline(s.db[id], s.now)
    ensures CallOk(s, Call(request, AfterRefreshLookup(h, Some(s.db[id]), again)))
  {
  }

  lemma RefreshLookupOk(s: State, fams: Families, call: Call, row: Option<Id>)
    requires Represents(s.db, fams) && TokensOk(s)
    requires CallOk(s, call) && call.pc.RefreshLookup? && FindsRefresh(s.db, call.pc.h, row)
    ensures CallOk(s, call.(pc := AfterRefreshLookup(call.pc.h, RowAt(s.db, row), call.pc.again)))
  {
    if row.Some? {
      RowIsSnap(s.db, fams, row.value);
      if call.pc.again { FoundUnusable(s, row.value, call.pc.h); }
      FoundRowOk(s, call.request, call.pc.h, row.value, call.pc.again);
    }
  }

  lemma LookupOk(s: State, fams: Families, call: Call, row: Option<Id>)
    requires Represents(s.db, fams) && CallOk(s, call)
    requires match call.pc
      case ValidateLookup(h) => FindsAccess(s.db, h, row)
      case RevokeLookupAccess(h) => FindsAccess(s.db, h, row)
      case RevokeLookupRefresh(h) => FindsRefresh(s.db, h, row)
      case _ => false
    ensures call.pc.ValidateLookup? ==> CallOk(s, call.(pc := AfterValidateLookup(RowAt(s.db, row))))
    ensures !call.pc.ValidateLookup? && row.Some? ==> CallOk(s, call.(pc := Stamp(s.db[row.value], Revoked)))
    ensures call.pc.RevokeLookupAccess? && row.None? ==> CallOk(s, call.(pc := RevokeLookupRefresh(call.pc.h)))
  {
    if row.Some? { RowIsSnap(s.db, fams, row.value); }
  }

  lemma IssueCreateOk(cfg: Config, s: State, call: Call, choice: Choice)
    requires CallOk(s, call) && call.pc.IssueCreate? && FreshDraw(s, choice, call.request.wantRefresh)
    ensures CallOk(s, call.(pc := IssueInsert(Credentials(choice.token, choice.refresh,
        CreateSession(cfg, s.now, call.request.claims, None, None, choice.token, choice.refresh)))))
  {
  }

  lemma RefreshCreateOk(cfg: Config, s: State, fams: Families, call: Call, choice: Choice)
    requires Represents(s.db, fams) && CallOk(s, call) && call.pc.RefreshCreate? && FreshDraw(s, choice, call.request.wantRefresh)
    ensures var snap := call.pc.session;
      CallOk(s, call.(pc := RefreshReplace(call.pc.h, snap, Credentials(choice.token, choice.refresh,
        CreateSession(cfg, s.now, ClaimsOf(snap), snap.refreshExpiresAt, snap.familyId, choice.token, choice.refresh)))))
  {
    FamilyOfSnap(s.db, fams, call.pc.session);
  }

  lemma StoringStepOk(cfg: Config, s: State, fams: Families, c: CallId, choice: Choice)
    requires Represents(s.db, fams) && Enabled(s, Advance(c, choice)) && CallOk(s, s.calls[c])
    requires choice.NewId?
    ensures CallOk(s, s.calls[c].(pc := NextPc(cfg, s, c, choice)))
  {
    var pc := s.calls[c].pc;
    if pc.RefreshReplace? && !Replaceable(s.db, s.now, pc.session) {
      RejectedIsUnusable(s, fams, pc.session, pc.h);
    }
  }

  /** Steps that decide on the clock alone, or revoke. */
  lemma LocalStepOk(cfg: Config, s: State, c: CallId, choice: Choice)
    requires Enabled(s, Advance(c, choice)) && CallOk(s, s.calls[c])
    requires choice.Nothing?
    ensures CallOk(s, s.calls[c].(pc := NextPc(cfg, s, c, choice)))
  {
  }

  lemma LookupStepOk(cfg: Config, s: State, fams: Families, c: CallId, choice: Choice)
    requires Represents(s.db, fams) && TokensOk(s) && Enabled(s, Advance(c, choice)) && CallOk(s, s.calls[c])
    requires choice.Found?
    ensures CallOk(s, s.calls[c].(pc := NextPc(cfg, s, c, choice)))
  {
    var call := s.calls[c];
    if call.pc.RefreshLookup? {
      RefreshLookupOk(s, fams, call, choice.row);
    } else {
      LookupOk(s, fams, call, choice.row);
    }
  }

  lemma CreateStepOk(cfg: Config, s: State, fams: Families, c: CallId, choice: Choice)
    requires Represents(s.db, fams) && Enabled(s, Advance(c, choice)) && CallOk(s, s.calls[c])
    requires choice.Draw?
    ensures CallOk(s, s.calls[c].(pc := NextPc(cfg, s, c, choice)))
  {
    var call := s.calls[c];
    if call.pc.IssueCreate? {
      IssueCreateOk(cfg, s, call, choice);
    } else {
      RefreshCreateOk(cfg, s, fams, call, choice);
    }
  }

  lemma MoverOk(cfg: Config, s: State, fams: Families, c: CallId, choice: Choice)
    requires Represents(s.db, fams) && TokensOk(s) && Enabled(s, Advance(c, choice)) && CallOk(s, s.calls[c])
    ensures CallOk(s, s.calls[c].(pc := NextPc(cfg, s, c, choice)))
  {
    match choice
    case Found(_) => LookupStepOk(cfg, s, fams, c, choice);
    case Draw(_, _) => CreateStepOk(cfg, s, fams, c, choice);
    case NewId(_) => StoringStepOk(cfg, s, fams, c, choice);
    case Nothing => LocalStepOk(cfg, s, c, choice);
  }

  lemma BeginOk(s: State, request: Request)
    ensures CallOk(s, Call(request, FirstPc(request)))
  {
  }

  lemma NextCallOk(cfg: Config, s: State, fams: Families, a: Action, c: CallId)
    requires Enabled(s, a) && Inv(s, fams) && c in Next(cfg, s, a).calls
    ensures CallOk(s, Next(cfg, s, a).calls[c])
  {
    if a.Advance? && c == a.c {
      MoverOk(cfg, s, fams, c, a.choice);
    } else if a.Begin? && c == a.c {
      BeginOk(s, a.request);
    }
  }

  lemma NextCallsOk(cfg: Config, s: State, fams: Families, a: Action)
    requires Enabled(s, a) && Inv(s, fams)
    ensures CallsOk(Next(cfg, s, a))
  {
    var s' := Next(cfg, s, a);
    NextEvolves(cfg, s, a);
    forall c | c in s'.calls ensures CallOk(s', s'.calls[c]) {
      NextCallOk(cfg, s, fams, a, c);
      CallOkIsStable(s, s', s'.calls[c]);
    }
  }

  // ---------- Tokens ----------

  lemma RowHashesKept(db: Store, db': Store, id: Id)
    requires Evolves(db, db') && id in db
    ensures id in db' && Hashes(db'[id]) == Hashes(db[id]) && db'[id].tokenHash == db[id].tokenHash
    ensures db'[id].refreshHash == db[id].refreshHash
  {
  }

  /** A step that stores no new row and creates no session. */
  lemma TokensOkFramed(s: State, s': State)
    requires TokensOk(s) && Evolves(s.db, s'.db) && s'.db.Keys == s.db.Keys && s.drawn <= s'.drawn
    requires forall c | c in s'.calls && InFlight(s'.calls[c].pc).Some? ::
      c in s.calls && InFlight(s'.calls[c].pc) == InFlight(s.calls[c].pc)
    ensures TokensOk(s')
  {
    forall id | id in s.db ensures Hashes(s'.db[id]) == Hashes(s.db[id]) && TwoTokens(s'.db[id], s'.drawn) {
      RowHashesKept(s.db, s'.db, id);
      assert TwoTokens(s.db[id], s.drawn);
    }
  }

  lemma RowTokensOkStored(db: Store, db': Store, drawn: set<Token>, draft: Session, id: Id)
    requires RowTokensOk(db, drawn) && Evolves(db, db') && db'.Keys == db.Keys + {id} && id !in db
    requires TwoTokens(draft, drawn) && forall x | x in db :: Hashes(draft) !! Hashes(db[x])
    requires db'[id].tokenHash == draft.tokenHash && db'[id].refreshHash == draft.refreshHash
    ensures RowTokensOk(db', drawn) && Hashes(db'[id]) == Hashes(draft)
    ensures forall x | x in db :: Hashes(db'[x]) == Hashes(db[x])
  {
    forall x | x in db ensures Hashes(db'[x]) == Hashes(db[x]) && TwoTokens(db'[x], drawn) {
      RowHashesKept(db, db', x);
      assert TwoTokens(db[x], drawn);
    }
  }

  /** A step that stores the session its call created. */
  lemma TokensOkStored(s: State, s': State, c: CallId, id: Id)
    requires TokensOk(s) && Evolves(s.db, s'.db) && s'.db.Keys == s.db.Keys + {id} && id !in s.db && s.drawn == s'.drawn
    requires c in s.calls && s'.calls.Keys == s.calls.Keys && InFlight(s.calls[c].pc).Some? && InFlight(s'.calls[c].pc).None?
    requires s'.db[id].tokenHash == InFlight(s.calls[c].pc).value.tokenHash
    requires s'.db[id].refreshHash == InFlight(s.calls[c].pc).value.refreshHash
    requires forall d | d in s'.calls && d != c :: s'.calls[d] == s.calls[d]
    ensures TokensOk(s')
  {
    var draft := InFlight(s.calls[c].pc).value;
    RowTokensOkStored(s.db, s'.db, s.drawn, draft, id);
    forall d | d in s'.calls && InFlight(s'.calls[d].pc).Some?
      ensures d != c && s'.calls[d] == s.calls[d] && Hashes(InFlight(s.calls[d].pc).value) !! Hashes(draft)
    {
    }
  }

  /** A step that draws tokens for a session of its call. */
  lemma TokensOkDrawn(s: State, s': State, c: CallId, choice: Choice, want: bool)
    requires TokensOk(s) && s'.db == s.db && FreshDraw(s, choice, want) && s'.drawn == s.drawn + DrawnBy(choice)
    requires c in s.calls && s'.calls.Keys == s.calls.Keys && InFlight(s'.calls[c].pc).Some?
    requires InFlight(s'.calls[c].pc).value.tokenHash == Hash(choice.token)
    requires InFlight(s'.calls[c].pc).value.refreshHash == (if choice.refresh.Some? then Some(Hash(choice.refresh.value)) else None)
    requires forall d | d in s'.calls && d != c :: s'.calls[d] == s.calls[d]
    ensures TokensOk(s')
  {
    var draft := InFlight(s'.calls[c].pc).value;
    assert TwoTokens(draft, s'.drawn);
    assert forall h | h in Hashes(draft) :: h.token !in s.drawn;
    forall id | id in s.db ensures TwoTokens(s'.db[id], s'.drawn) && Hashes(draft) !! Hashes(s.db[id]) {
      assert TwoTokens(s.db[id], s.drawn);
    }
    forall d | d in s.calls && d != c && InFlight(s.calls[d].pc).Some?
      ensures TwoTokens(InFlight(s'.calls[d].pc).value, s'.drawn) && Hashes(draft) !! Hashes(InFlight(s'.calls[d].pc).value)
    {
      assert TwoTokens(InFlight(s.calls[d].pc).value, s.drawn);
    }
  }

  ghost predicate StoresDraft(s: State, pc: Pc) {
    pc.IssueInsert? || (pc.RefreshReplace? && Replaceable(s.db, s.now, pc.session))
  }

  /** Only a create step opens a draft, and only a storing step adds a row. */
  lemma StepFootprint(cfg: Config, s: State, c: CallId, choice: Choice)
    requires Enabled(s, Advance(c, choice)) && CallOk(s, s.calls[c])
    ensures var pc := s.calls[c].pc; var pc' := NextPc(cfg, s, c, choice);
      && (!pc.IssueCreate? && !pc.RefreshCreate? ==> InFlight(pc').None? && DrawnBy(choice) == {})
      && (!StoresDraft(s, pc) ==> NextDb(s, c, choice).Keys == s.db.Keys)
      && (pc.IssueCreate? || pc.RefreshCreate? ==> NextDb(s, c, choice) == s.db)
  {
  }

  lemma StoreStep(s: State, c: CallId, choice: Choice)
    requires Enabled(s, Advance(c, choice)) && CallOk(s, s.calls[c]) && StoresDraft(s, s.calls[c].pc)
    ensures var db' := NextDb(s, c, choice); var draft := InFlight(s.calls[c].pc).value;
      && choice.NewId? && choice.id !in s.db && db'.Keys == s.db.Keys + {choice.id}
      && db'[choice.id].tokenHash == draft.tokenHash && db'[choice.id].refreshHash == draft.refreshHash
  {
  }

  ghost predicate CreatesDraft(pc: Pc) { pc.IssueCreate? || pc.RefreshCreate? }

  lemma CreatingTokensOk(cfg: Config, s: State, c: CallId, choice: Choice)
    requires Enabled(s, Advance(c, choice)) && TokensOk(s) && CallOk(s, s.calls[c]) && CreatesDraft(s.calls[c].pc)
    ensures TokensOk(Next(cfg, s, Advance(c, choice)))
  {
    TokensOkDrawn(s, Next(cfg, s, Advance(c, choice)), c, choice, s.calls[c].request.wantRefresh);
  }

  lemma StoringTokensOk(cfg: Config, s: State, c: CallId, choice: Choice)
    requires Enabled(s, Advance(c, choice)) && TokensOk(s) && CallOk(s, s.calls[c]) && StoresDraft(s, s.calls[c].pc)
    requires Evolves(s.db, Next(cfg, s, Advance(c, choice)).db)
    ensures TokensOk(Next(cfg, s, Advance(c, choice)))
  {
    StepFootprint(cfg, s, c, choice);
    StoreStep(s, c, choice);
    TokensOkStored(s, Next(cfg, s, Advance(c, choice)), c, choice.id);
  }

  lemma AdvanceTokensOk(cfg: Config, s: State, c: CallId, choice: Choice)
    requires Enabled(s, Advance(c, choice)) && TokensOk(s) && CallOk(s, s.calls[c])
    requires Evolves(s.db, Next(cfg, s, Advance(c, choice)).db)
    ensures TokensOk(Next(cfg, s, Advance(c, choice)))
  {
    if CreatesDraft(s.calls[c].pc) {
      CreatingTokensOk(cfg, s, c, choice);
    } else if StoresDraft(s, s.calls[c].pc) {
      StoringTokensOk(cfg, s, c, choice);
    } else {
      StepFootprint(cfg, s, c, choice);
      TokensOkFramed(s, Next(cfg, s, Advance(c, choice)));
    }
  }

  lemma NextTokensOk(cfg: Config, s: State, a: Action)
    requires Enabled(s, a) && CallsOk(s) && TokensOk(s)
    ensures TokensOk(Next(cfg, s, a))
  {
    NextEvolves(cfg, s, a);
    if a.Advance? {
      AdvanceTokensOk(cfg, s, a.c, a.choice);
    } else {
      TokensOkFramed(s, Next(cfg, s, a));
    }
  }

  /** Every step of every call keeps the invariant, and the families move by one atomic operation. */
  lemma NextInv(cfg: Config, s: State, fams: Families, a: Action)
    requires Enabled(s, a) && Inv(s, fams)
    ensures Inv(Next(cfg, s, a), NextFamilies(s, fams, a))
  {
    NextRepresents(cfg, s, fams, a);
    NextCallsOk(cfg, s, fams, a);
    NextTokensOk(cfg, s, a);
  }
}
