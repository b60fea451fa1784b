/**
 Every call takes effect at one moment between its begin and its end.

 `Atomic` says what a call does to the families when nothing interleaves with
 it, outcome by outcome. The one freedom it leaves is the one the code has: a
 refresh that reports the deadline revokes nothing, whether or not its token
 has been spent meanwhile.
 */
module IdentityAtomic {
  import opened Wrappers
  import opened Tokens
  import opened IdentityMachine
  import opened IdentityFamilies
  import opened IdentityInvariant

  // ---------- The atomic specification ----------

  /** The i-th member of family `fid` carries the refresh token. */
  ghost predicate Carries(fams: Families, fid: Id, i: int, h: TokenHash) {
    fid in fams && InChain(fams[fid], i) && fams[fid].chain[i].refreshHash == Some(h)
  }

  ghost predicate CarriesAccess(fams: Families, fid: Id, i: int, h: TokenHash) {
    fid in fams && InChain(fams[fid], i) && fams[fid].chain[i].tokenHash == h
  }

  /** The access token of the live head of an unrevoked family. */
  ghost predicate LiveHead(fams: Families, fid: Id, h: TokenHash) {
    fid in fams && 0 < |fams[fid].chain| && fams[fid].revokedAt.None? && Head(fams[fid]).tokenHash == h
  }

  ghost predicate LiveAccess(fams: Families, h: TokenHash, now: int) {
    exists fid :: LiveHead(fams, fid, h) && now < Head(fams[fid]).expiresAt
  }

  ghost predicate RevokedBy(fams: Families, fams': Families, fid: Id, now: int) {
    fid in fams && exists at :: at <= now && fams' == fams[fid := RevokedFamily(fams[fid], Some(at))]
  }

  ghost predicate IdIsNew(fams: Families, id: Id) {
    forall fid, i | fid in fams && InChain(fams[fid], i) :: fams[fid].chain[i].id != id
  }

  /** The credentials were created no later than `now` from these claims. */
  ghost predicate CreatedBy(cfg: Config, now: int, creds: Credentials, claims: Claims, inherited: Option<int>, familyId: Option<Id>) {
    exists t :: t <= now && creds.session == CreateSession(cfg, t, claims, inherited, familyId, creds.token, creds.refresh)
  }

  ghost predicate AtomicIssue(cfg: Config, fams: Families, fams': Families, now: int, request: Request, creds: Credentials)
    requires request.Issue?
  {
    && creds.refresh.Some? == request.wantRefresh
    && creds.session.id.Some? && IdIsNew(fams, creds.session.id.value) && creds.session.familyId == creds.session.id
    && CreatedBy(cfg, now, creds.(session := creds.session.(id := None, familyId := None)), request.claims, None, None)
    && fams' == fams[creds.session.id.value := NewFamily(creds.session, creds.session.id.value)]
  }

  ghost predicate AtomicRotation(cfg: Config, fams: Families, fams': Families, now: int, fid: Id, request: Request, creds: Credentials)
    requires request.Refresh?
  {
    && fid in fams && Rotatable(fams[fid], now) && Head(fams[fid]).refreshHash == Some(Hash(request.token))
    && creds.refresh.Some? == request.wantRefresh
    && creds.session.id.Some? && IdIsNew(fams, creds.session.id.value)
    && CreatedBy(cfg, now, creds.(session := creds.session.(id := None)), fams[fid].claims, fams[fid].deadline, Some(fid))
    && fams' == fams[fid := Rotated(fams[fid], creds.session, creds.session.id.value)]
  }

  ghost predicate AtomicRefresh(cfg: Config, fams: Families, fams': Families, now: int, request: Request, outcome: Outcome)
    requires request.Refresh?
  {
    var h := Hash(request.token);
    match outcome
    case Issued(creds) => Encodable(request.token) && exists fid :: AtomicRotation(cfg, fams, fams', now, fid, request, creds)
    case ReusedRefreshToken =>
      exists fid, i :: Carries(fams, fid, i, h) && i + 1 < |fams[fid].chain| && RevokedBy(fams, fams', fid, now)
    case ExpiredRefreshToken =>
      fams' == fams && exists fid, i :: Carries(fams, fid, i, h) && fams[fid].deadline.Some? && fams[fid].deadline.value <= now
    case InvalidRefreshToken =>
      fams' == fams && (Encodable(request.token) ==> forall fid, i | Carries(fams, fid, i, h) :: fams[fid].revokedAt.Some?)
    case _ => false
  }

  ghost predicate AtomicValidate(fams: Families, fams': Families, now: int, token: Token, outcome: Outcome) {
    fams' == fams &&
    match outcome
    case Validated(session) =>
      exists fid :: LiveHead(fams, fid, Hash(token)) && now < Head(fams[fid]).expiresAt
        && session == RowOf(fid, fams[fid], |fams[fid].chain| - 1)
    case InvalidSessionToken => Encodable(token) ==> forall fid :: !LiveHead(fams, fid, Hash(token))
    case ExpiredSession =>
      !LiveAccess(fams, Hash(token), now)
      && exists fid, i :: CarriesAccess(fams, fid, i, Hash(token)) && fams[fid].chain[i].expiresAt <= now
    case _ => false
  }

  ghost predicate AtomicRevoke(fams: Families, fams': Families, now: int, token: Token, outcome: Outcome) {
    var h := Hash(token);
    && outcome.Revoked?
    && ((exists fid, i :: (Carries(fams, fid, i, h) || CarriesAccess(fams, fid, i, h)) && RevokedBy(fams, fams', fid, now))
        || (fams' == fams && (Encodable(token) ==> forall fid, i :: !Carries(fams, fid, i, h) && !CarriesAccess(fams, fid, i, h))))
  }

  ghost predicate Atomic(cfg: Config, fams: Families, fams': Families, now: int, request: Request, outcome: Outcome) {
    match request
    case Issue(_, _) => outcome.Issued? && AtomicIssue(cfg, fams, fams', now, request, outcome.credentials)
    case Validate(t) => AtomicValidate(fams, fams', now, t, outcome)
    case Refresh(_, _) => AtomicRefresh(cfg, fams, fams', now, request, outcome)
    case Revoke(t) => AtomicRevoke(fams, fams', now, t, outcome)
  }

  // ---------- Rows and members ----------

  lemma MemberRow(db: Store, fams: Families, fid: Id, i: int)
    requires Represents(db, fams) && fid in fams && InChain(fams[fid], i)
    ensures var id := fams[fid].chain[i].id; id in db && db[id] == RowOf(fid, fams[fid], i)
  {
    assert FamilyStored(db, fid, fams[fid]);
  }

  lemma NewIdIsNew(db: Store, fams: Families, id: Id)
    requires Represents(db, fams) && id !in db
    ensures IdIsNew(fams, id)
  {
    forall fid, i | fid in fams && InChain(fams[fid], i) ensures fams[fid].chain[i].id != id {
      MemberRow(db, fams, fid, i);
    }
  }

  lemma RowCarries(db: Store, fams: Families, id: Id, h: TokenHash) returns (fid: Id, i: nat)
    requires Represents(db, fams) && id in db && (HasRefresh(db[id], h) || HasAccess(db[id], h))
    ensures db[id].familyId == Some(fid) && fid in fams && i < |fams[fid].chain| && db[id] == RowOf(fid, fams[fid], i)
    ensures HasRefresh(db[id], h) ==> Carries(fams, fid, i, h)
    ensures HasAccess(db[id], h) ==> CarriesAccess(fams, fid, i, h)
  {
    fid, i := Locate(db, fams, id);
  }

  /** The families know exactly the tokens of the rows. */
  lemma UnknownRefresh(db: Store, fams: Families, h: TokenHash)
    requires Represents(db, fams) && FindsRefresh(db, h, None)
    ensures forall fid, i :: !Carries(fams, fid, i, h)
  {
    forall fid, i ensures !Carries(fams, fid, i, h) {
      if Carries(fams, fid, i, h) { MemberRow(db, fams, fid, i); }
    }
  }

  lemma UnknownAccess(db: Store, fams: Families, h: TokenHash)
    requires Represents(db, fams) && FindsAccess(db, h, None)
    ensures forall fid, i :: !CarriesAccess(fams, fid, i, h)
  {
    forall fid, i ensures !CarriesAccess(fams, fid, i, h) {
      if CarriesAccess(fams, fid, i, h) { MemberRow(db, fams, fid, i); }
    }
  }

  /** A live head is the row that holds its access token, unrevoked and unreplaced. */
  lemma LiveHeadRow(s: State, fams: Families, id: Id, fid: Id, h: TokenHash)
    requires Represents(s.db, fams) && TokensOk(s) && id in s.db && HasAccess(s.db[id], h) && LiveHead(fams, fid, h)
    ensures s.db[id].revokedAt.None? && s.db[id].replacedBy.None? && s.db[id].expiresAt == Head(fams[fid]).expiresAt
  {
    var last := |fams[fid].chain| - 1;
    assert InChain(fams[fid], last);
    MemberRow(s.db, fams, fid, last);
    OneHolder(s, id, fams[fid].chain[last].id, h);
  }

  lemma RevokedRefresh(s: State, fams: Families, id: Id, h: TokenHash)
    requires Represents(s.db, fams) && TokensOk(s) && id in s.db && HasRefresh(s.db[id], h) && s.db[id].revokedAt.Some?
    ensures forall fid, i | Carries(fams, fid, i, h) :: fams[fid].revokedAt.Some?
  {
    forall fid, i | Carries(fams, fid, i, h) ensures fams[fid].revokedAt.Some? {
      MemberRow(s.db, fams, fid, i);
      OneHolder(s, id, fams[fid].chain[i].id, h);
    }
  }
}
