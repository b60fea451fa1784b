/**
 What the tokens that were handed out are good for: how long they live, what
 their sessions hold, what presenting them comes to, and when a revocation says
 it happened.
 */
module IdentityLifetimes {
  import opened Wrappers
  import opened Tokens
  import opened IdentityMachine
  import opened IdentityFamilies
  import opened IdentityInvariant
  import opened IdentityRuns
  import opened IdentityRaces
  import opened IdentityLinear

  // ---------- Credentials ----------

  /**
   Credentials created when the clock read `t`, under a deadline or none. The
   access token lives for the access lifetime or to the deadline, whichever
   ends first; a refresh token, if wanted, lives to the deadline.
   */
  ghost predicate Promised(cfg: Config, t: int, claims: Claims, want: bool, deadline: Option<int>, creds: Credentials) {
    var session := creds.session;
    && session.tokenHash == Hash(creds.token)
    && session.expiresAt <= t + cfg.lifetime && (deadline.Some? ==> session.expiresAt <= deadline.value)
    && (session.expiresAt == t + cfg.lifetime || deadline == Some(session.expiresAt))
    && (creds.refresh.Some? <==> want) && (session.refreshHash.Some? <==> want) && (session.refreshExpiresAt.Some? <==> want)
    && (want ==> session.refreshHash == Some(Hash(creds.refresh.value)) && session.refreshExpiresAt == deadline)
    && session.identity == claims.identity && session.amr == claims.amr
    && (session.context.Some? <==> claims.context.Some? && claims.context.value != map[])
    && (session.context.Some? ==> session.context == claims.context)
    && session.revokedAt.None? && session.replacedBy.None?
  }

  /**
   At its own k-th step the call created the credentials: for an issue, from the
   caller's claims under a deadline counted from that moment; for a refresh,
   from the session that `from` read, under the deadline it already had.
   */
  ghost predicate CreatedAt(cfg: Config, start: int, acts: seq<Action>, c: CallId, k: int, request: Request,
                            from: Option<Session>, creds: Credentials)
  {
    && Legal(cfg, Init(start), acts) && Own(acts, c, k)
    && var m := At(cfg, start, acts, k);
    && c in m.calls && m.calls[c].request == request
    && match request
       case Issue(claims, want) =>
         from.None? && Promised(cfg, m.now, claims, want, if want then Some(m.now + cfg.refreshLifetime) else None, creds)
       case Refresh(token, want) =>
         && from.Some? && HasRefresh(from.value, Hash(token)) && from.value.refreshExpiresAt.Some?
         && Promised(cfg, m.now, Claims(from.value.identity, from.value.amr, from.value.context), want,
                     from.value.refreshExpiresAt, creds)
       case _ => false
  }

  ghost predicate Created(cfg: Config, start: int, acts: seq<Action>, c: CallId, request: Request,
                          from: Option<Session>, creds: Credentials)
  {
    exists k :: CreatedAt(cfg, start, acts, c, k, request, from, creds)
  }

  /** The row that was read as `from` is now replaced by row `id`, and nothing else of it changed but a revocation. */
  ghost predicate Succeeded(db: Store, from: Session, id: Option<Id>) {
    SnapOf(db, from) && id.Some? && db[from.id.value].replacedBy == id
  }

  /** The session handed out is the root of its own family, or the successor of the one that was read. */
  ghost predicate Placed(db: Store, from: Option<Session>, session: Session) {
    if from.Some? then Succeeded(db, from.value, session.id) && session.familyId == from.value.familyId
    else session.id.Some? && session.familyId == session.id
  }

  ghost predicate Provenance(cfg: Config, start: int, acts: seq<Action>, c: CallId)
    requires Legal(cfg, Init(start), acts) && c in Exec(cfg, Init(start), acts).calls
  {
    var e := Exec(cfg, Init(start), acts);
    var request := e.calls[c].request;
    match e.calls[c].pc
    case IssueInsert(creds) => Created(cfg, start, acts, c, request, None, creds)
    case RefreshReplace(_, snap, creds) =>
      creds.session.familyId == snap.familyId && Created(cfg, start, acts, c, request, Some(snap), creds)
    case Done(Issued(creds)) =>
      exists from :: Created(cfg, start, acts, c, request, from, creds) && Placed(e.db, from, creds.session)
    case _ => true
  }

  lemma CreatedExtends(cfg: Config, start: int, acts: seq<Action>, c: CallId, request: Request,
                       from: Option<Session>, creds: Credentials)
    requires Legal(cfg, Init(start), acts) && acts != [] && Created(cfg, start, acts[..|acts|-1], c, request, from, creds)
    ensures Created(cfg, start, acts, c, request, from, creds)
  {
    var k :| CreatedAt(cfg, start, acts[..|acts|-1], c, k, request, from, creds);
    PrefixMoments(cfg, start, acts, k);
    assert CreatedAt(cfg, start, acts, c, k, request, from, creds);
  }

  lemma PlacedIsStable(db: Store, db': Store, from: Option<Session>, session: Session)
    requires Placed(db, from, session) && Evolves(db, db')
    ensures Placed(db', from, session)
  {
    if from.Some? { assert RowEvolves(db[from.value.id.value], db'[from.value.id.value]); }
  }

  /** A step of another call, or of the clock. */
  lemma ProvenanceExtends(cfg: Config, start: int, acts: seq<Action>, c: CallId)
    requires Legal(cfg, Init(start), acts) && acts != [] && !(acts[|acts|-1].Advance? && acts[|acts|-1].c == c)
    requires Legal(cfg, Init(start), acts[..|acts|-1]) && c in Exec(cfg, Init(start), acts[..|acts|-1]).calls
    requires Provenance(cfg, start, acts[..|acts|-1], c) && c in Exec(cfg, Init(start), acts).calls
    ensures Provenance(cfg, start, acts, c)
  {
    var front := acts[..|acts|-1];
    var m, e := Exec(cfg, Init(start), front), Exec(cfg, Init(start), acts);
    LastMoment(cfg, start, acts);
    CallHistory(cfg, m, acts[|acts|-1], c);
    NextEvolves(cfg, m, acts[|acts|-1]);
    var request := m.calls[c].request;
    match m.calls[c].pc
    case IssueInsert(creds) =>
      CreatedExtends(cfg, start, acts, c, request, None, creds);
    case RefreshReplace(_, snap, creds) =>
      CreatedExtends(cfg, start, acts, c, request, Some(snap), creds);
    case Done(Issued(creds)) =>
      var from :| Created(cfg, start, front, c, request, from, creds) && Placed(m.db, from, creds.session);
      CreatedExtends(cfg, start, acts, c, request, from, creds);
      PlacedIsStable(m.db, e.db, from, creds.session);
    case _ =>
  }

  /** Creation keeps the promise, whatever the lifetimes. */
  lemma CreationKeepsPromise(cfg: Config, t: int, claims: Claims, inherited: Option<int>, familyId: Option<Id>,
                             token: Token, refresh: Option<Token>)
    ensures Promised(cfg, t, claims, refresh.Some?,
                     if inherited.Some? then inherited else if refresh.Some? then Some(t + cfg.refreshLifetime) else None,
                     Credentials(token, refresh, CreateSession(cfg, t, claims, inherited, familyId, token, refresh)))
  {
  }

  lemma CreatingStep(cfg: Config, start: int, acts: seq<Action>, c: CallId)
    requires LastIsOwn(cfg, start, acts, c) && c in Exec(cfg, Init(start), acts).calls
    requires CreatesDraft(Before(cfg, start, acts).calls[c].pc)
    ensures Provenance(cfg, start, acts, c)
  {
    LastMoment(cfg, start, acts);
    var n := |acts| - 1;
    var m, choice := Before(cfg, start, acts), acts[n].choice;
    var request := m.calls[c].request;
    assert CallOk(m, m.calls[c]);
    CallHistory(cfg, m, acts[n], c);
    match m.calls[c].pc
    case IssueCreate =>
      CreationKeepsPromise(cfg, m.now, request.claims, None, None, choice.token, choice.refresh);
      assert CreatedAt(cfg, start, acts, c, n, request, None, NextPc(cfg, m, c, choice).credentials);
    case RefreshCreate(h, snap) =>
      CreationKeepsPromise(cfg, m.now, ClaimsOf(snap), snap.refreshExpiresAt, snap.familyId, choice.token, choice.refresh);
      assert CreatedAt(cfg, start, acts, c, n, request, Some(snap), NextPc(cfg, m, c, choice).credentials);
  }

  /** What a call stood ready to store, with the ids that storing adds. */
  ghost function Saved(pc: Pc, id: Id): Credentials
    requires pc.IssueInsert? || pc.RefreshReplace?
  {
    var creds := pc.credentials;
    creds.(session := creds.session.(id := Some(id), familyId := if pc.IssueInsert? then Some(id) else creds.session.familyId))
  }

  ghost function ReadBy(pc: Pc): Option<Session> { if pc.RefreshReplace? then Some(pc.session) else None }

  /** A step that stores a session hands it out, placed in its family. */
  lemma StoringPlaces(cfg: Config, s: State, c: CallId, choice: Choice)
    requires Enabled(s, Advance(c, choice)) && CallOk(s, s.calls[c]) && StoresDraft(s, s.calls[c].pc)
    requires var pc := s.calls[c].pc; pc.RefreshReplace? ==> pc.credentials.session.familyId == pc.session.familyId
    ensures var pc := s.calls[c].pc;
      NextPc(cfg, s, c, choice) == Done(Issued(Saved(pc, choice.id)))
      && Placed(NextDb(s, c, choice), ReadBy(pc), Saved(pc, choice.id).session)
  {
    var pc := s.calls[c].pc;
    if pc.RefreshReplace? { ReplacedIsSucceeded(s.db, pc.session, pc.credentials.session, choice.id); }
  }

  lemma StoringStep(cfg: Config, start: int, acts: seq<Action>, c: CallId)
    requires LastIsOwn(cfg, start, acts, c) && c in Exec(cfg, Init(start), acts).calls
    requires Provenance(cfg, start, acts[..|acts|-1], c) && StoresDraft(Before(cfg, start, acts), Before(cfg, start, acts).calls[c].pc)
    ensures Provenance(cfg, start, acts, c)
  {
    LastMoment(cfg, start, acts);
    var m, choice := Before(cfg, start, acts), acts[|acts|-1].choice;
    var request, pc := m.calls[c].request, m.calls[c].pc;
    CallHistory(cfg, m, acts[|acts|-1], c);
    assert CallOk(m, m.calls[c]);
    StoringPlaces(cfg, m, c, choice);
    CreatedExtends(cfg, start, acts, c, request, ReadBy(pc), pc.credentials);
    CreatedIsSaved(cfg, start, acts, c, request, ReadBy(pc), pc.credentials, choice.id, Saved(pc, choice.id).session.familyId);
  }

  /** The ids that storing adds are no part of the promise. */
  lemma CreatedIsSaved(cfg: Config, start: int, acts: seq<Action>, c: CallId, request: Request,
                       from: Option<Session>, creds: Credentials, id: Id, fid: Option<Id>)
    requires Created(cfg, start, acts, c, request, from, creds)
    ensures Created(cfg, start, acts, c, request, from, creds.(session := creds.session.(id := Some(id), familyId := fid)))
  {
    var k :| CreatedAt(cfg, start, acts, c, k, request, from, creds);
    assert CreatedAt(cfg, start, acts, c, k, request, from, creds.(session := creds.session.(id := Some(id), familyId := fid)));
  }

  lemma ReplacedIsSucceeded(db: Store, snap: Session, draft: Session, id: Id)
    requires SnapOf(db, snap) && db[snap.id.value].replacedBy.None? && snap.replacedBy.None?
    ensures Succeeded(Replace(db, snap, draft, id), snap, Some(id))
  {
  }

  /** No other step ends in credentials, or in a draft of them. */
  lemma OtherStepsIssueNothing(cfg: Config, s: State, c: CallId, choice: Choice)
    requires Enabled(s, Advance(c, choice)) && CallOk(s, s.calls[c])
    requires !CreatesDraft(s.calls[c].pc) && !StoresDraft(s, s.calls[c].pc)
    ensures var pc' := NextPc(cfg, s, c, choice); InFlight(pc').None? && !HandsOut(pc')
  {
  }

  lemma {:induction false} CallsHaveProvenance(cfg: Config, start: int, acts: seq<Action>, c: CallId)
    requires Legal(cfg, Init(start), acts) && c in Exec(cfg, Init(start), acts).calls
    ensures Provenance(cfg, start, acts, c)
  {
    var front, a := acts[..|acts|-1], acts[|acts|-1];
    var m := Exec(cfg, Init(start), front);
    LastMoment(cfg, start, acts);
    CallHistory(cfg, m, a, c);
    if c in m.calls {
      CallsHaveProvenance(cfg, start, front, c);
      if !(a.Advance? && a.c == c) {
        ProvenanceExtends(cfg, start, acts, c);
      } else if CreatesDraft(m.calls[c].pc) {
        CreatingStep(cfg, start, acts, c);
      } else if StoresDraft(m, m.calls[c].pc) {
        StoringStep(cfg, start, acts, c);
      } else {
        assert CallOk(m, m.calls[c]);
        OtherStepsIssueNothing(cfg, m, c, a.choice);
      }
    }
  }

  /**
   Whenever credentials are handed out, the call created them at one of its own
   steps, and promised what that moment's clock allows; and the stored row is
   the session handed out, but for a later replacement or revocation.
   */
  lemma CredentialsKeepPromises(cfg: Config, start: int, acts: seq<Action>, c: CallId)
    requires Legal(cfg, Init(start), acts) && c in Exec(cfg, Init(start), acts).calls
    requires HandsOut(Exec(cfg, Init(start), acts).calls[c].pc)
    ensures var e := Exec(cfg, Init(start), acts); var creds := e.calls[c].pc.outcome.credentials;
      && SnapOf(e.db, creds.session)
      && exists from :: Created(cfg, start, acts, c, e.calls[c].request, from, creds) && Placed(e.db, from, creds.session)
  {
    CallsHaveProvenance(cfg, start, acts, c);
    ReachableIssuedOk(cfg, Exec(cfg, Init(start), acts));
  }

  // ---------- Presenting an access token ----------

  /** A validation of row `id`'s access token, and what it may so far have come to. */
  ghost predicate Validating(s: State, call: Call, id: Id) {
    && id in s.db && call.request.Validate? && GetTokenHash(call.request.token) == Some(s.db[id].tokenHash)
    && match call.pc
       case ValidateLookup(_) => true
       case ValidateCheck(session) => session.id == Some(id)
       case Done(Validated(session)) => session.id == Some(id) && SnapOf(s.db, session)
       case Done(InvalidSessionToken) => s.db[id].revokedAt.Some? || s.db[id].replacedBy.Some?
       case Done(ExpiredSession) => s.db[id].expiresAt <= s.now
       case _ => false
  }

  lemma ValidatingIsStable(s: State, s': State, call: Call, id: Id)
    requires Validating(s, call, id) && Evolves(s.db, s'.db) && s.now <= s'.now
    ensures Validating(s', call, id)
  {
    assert RowEvolves(s.db[id], s'.db[id]);
  }

  /** What the lookup of the row leads to. */
  lemma FoundIsValidating(s: State, fams: Families, request: Request, id: Id)
    requires Represents(s.db, fams) && id in s.db && request.Validate?
    requires GetTokenHash(request.token) == Some(s.db[id].tokenHash)
    ensures Validating(s, Call(request, AfterValidateLookup(Some(s.db[id]))), id)
  {
    RowIsSnap(s.db, fams, id);
  }

  lemma ValidatingMove(cfg: Config, s: State, fams: Families, c: CallId, choice: Choice, id: Id)
    requires Represents(s.db, fams) && TokensOk(s) && Enabled(s, Advance(c, choice)) && CallOk(s, s.calls[c])
    requires Validating(s, s.calls[c], id)
    ensures Validating(s, s.calls[c].(pc := NextPc(cfg, s, c, choice)), id)
  {
    if s.calls[c].pc.ValidateLookup? {
      OneAnswer(s, choice.row, id, s.calls[c].pc.h);
      FoundIsValidating(s, fams, s.calls[c].request, id);
    }
  }

  lemma OneAnswer(s: State, row: Option<Id>, id: Id, h: TokenHash)
    requires TokensOk(s) && id in s.db && HasAccess(s.db[id], h) && FindsAccess(s.db, h, row)
    ensures row == Some(id) && RowAt(s.db, row) == Some(s.db[id])
  {
    if row.Some? { OneHolder(s, id, row.value, h); }
  }

  lemma ValidatingStep(cfg: Config, s: State, fams: Families, a: Action, c: CallId, id: Id)
    requires Inv(s, fams) && Enabled(s, a) && c in s.calls && Validating(s, s.calls[c], id)
    ensures c in Next(cfg, s, a).calls && Validating(Next(cfg, s, a), Next(cfg, s, a).calls[c], id)
  {
    var s' := Next(cfg, s, a);
    NextEvolves(cfg, s, a);
    CallHistory(cfg, s, a, c);
    if a.Advance? && a.c == c {
      assert CallOk(s, s.calls[c]);
      ValidatingMove(cfg, s, fams, c, a.choice, id);
    }
    ValidatingIsStable(s, s', s'.calls[c], id);
  }

  /** A validation of row `id`'s access token that began after state `s`, in which the row was stored. */
  ghost predicate LaterValidate(cfg: Config, s: State, acts: seq<Action>, c: CallId, id: Id) {
    && Reachable(cfg, s) && Legal(cfg, s, acts) && id in s.db && c !in s.calls && c in Exec(cfg, s, acts).calls
    && Exec(cfg, s, acts).calls[c].request.Validate?
    && GetTokenHash(Exec(cfg, s, acts).calls[c].request.token) == Some(s.db[id].tokenHash)
  }

  lemma {:induction false} ValidateSettles(cfg: Config, s: State, acts: seq<Action>, c: CallId, id: Id)
    requires LaterValidate(cfg, s, acts, c, id)
    ensures Validating(Exec(cfg, s, acts), Exec(cfg, s, acts).calls[c], id)
  {
    var fams := LastStep(cfg, s, acts, id);
    var front, a := acts[..|acts|-1], acts[|acts|-1];
    var m := Exec(cfg, s, front);
    CallHistory(cfg, m, a, c);
    if c in m.calls {
      ValidateSettles(cfg, s, front, c, id);
      ValidatingStep(cfg, m, fams, a, c, id);
    }
  }

  /**
   An access token works until it expires: a validation that finishes while the
   row is neither revoked nor replaced, and before its expiry, accepts the token
   and returns that very row. Whatever else it reports is true of the row.
   */
  lemma LiveTokenIsAccepted(cfg: Config, s: State, acts: seq<Action>, c: CallId, id: Id)
    requires LaterValidate(cfg, s, acts, c, id) && Exec(cfg, s, acts).calls[c].pc.Done?
    ensures var e := Exec(cfg, s, acts); var outcome := e.calls[c].pc.outcome;
      && id in e.db
      && (e.db[id].revokedAt.None? && e.db[id].replacedBy.None? && e.now < e.db[id].expiresAt ==> outcome == Validated(e.db[id]))
      && (outcome.Validated? ==> SnapOf(e.db, outcome.session) && outcome.session.id == Some(id))
      && (outcome.InvalidSessionToken? ==> e.db[id].revokedAt.Some? || e.db[id].replacedBy.Some?)
      && (outcome.ExpiredSession? ==> e.db[id].expiresAt <= e.now)
      && (outcome.Validated? || outcome.InvalidSessionToken? || outcome.ExpiredSession?)
  {
    ValidateSettles(cfg, s, acts, c, id);
  }

  ghost predicate DrawnEncodable(s: State) {
    forall token | token in s.drawn :: Encodable(token)
  }

  lemma {:induction false} RunDrawnEncodable(cfg: Config, s: State, acts: seq<Action>)
    requires Legal(cfg, s, acts) && DrawnEncodable(s)
    ensures DrawnEncodable(Exec(cfg, s, acts))
  {
    if acts != [] { RunDrawnEncodable(cfg, s, acts[..|acts|-1]); }
  }

  /** The tokens of stored rows were drawn, and so can be presented. */
  lemma StoredTokensHaveHashes(cfg: Config, s: State, id: Id)
    requires Reachable(cfg, s) && id in s.db
    ensures forall h | h in Hashes(s.db[id]) :: Encodable(h.token)
  {
    var start, acts :| Legal(cfg, Init(start), acts) && s == Exec(cfg, Init(start), acts);
    RunDrawnEncodable(cfg, Init(start), acts);
    var fams := ReachableInv(cfg, s);
    assert TwoTokens(s.db[id], s.drawn);
  }

  /** So the access token of any credentials that were handed out is accepted to the second of its promised expiry. */
  lemma IssuedTokenIsAccepted(cfg: Config, s: State, acts: seq<Action>, c: CallId, d: CallId)
    requires Reachable(cfg, s) && c in s.calls && HandsOut(s.calls[c].pc) && Legal(cfg, s, acts)
    requires var creds := s.calls[c].pc.outcome.credentials; var e := Exec(cfg, s, acts);
      d !in s.calls && d in e.calls && e.calls[d] == Call(Validate(creds.token), e.calls[d].pc) && e.calls[d].pc.Done?
    ensures var session, e := s.calls[c].pc.outcome.credentials.session, Exec(cfg, s, acts);
      && session.id.Some? && session.id.value in e.db
      && var row := e.db[session.id.value];
         row.revokedAt.None? && row.replacedBy.None? && e.now < session.expiresAt ==> e.calls[d].pc.outcome == Validated(row)
  {
    var creds := s.calls[c].pc.outcome.credentials;
    ReachableIssuedOk(cfg, s);
    var id := creds.session.id.value;
    assert CredentialsStored(s.db, creds) && RowEvolves(creds.session, s.db[id]);
    StoredTokensHaveHashes(cfg, s, id);
    LiveTokenIsAccepted(cfg, s, acts, d, id);
    var fams := ReachableInv(cfg, s);
    RunEvolves(cfg, s, fams, acts);
    assert RowEvolves(s.db[id], Exec(cfg, s, acts).db[id]);
  }

  /**
   A refresh token works until its deadline: a finished refresh of a stored
   token handed out credentials that replaced the row, or the row is revoked, or
   its deadline has passed.
   */
  lemma LiveTokenIsExchanged(cfg: Config, s: State, acts: seq<Action>, c: CallId, id: Id)
    requires LaterRefresh(cfg, s, acts, c, id) && Exec(cfg, s, acts).calls[c].pc.Done?
    ensures var e := Exec(cfg, s, acts); var outcome := e.calls[c].pc.outcome;
      && id in e.db && e.db[id].refreshExpiresAt.Some?
      && match outcome
         case Issued(creds) => creds.session.id.Some? && e.db[id].replacedBy == creds.session.id
         case InvalidRefreshToken => e.db[id].revokedAt.Some?
         case ReusedRefreshToken => e.db[id].revokedAt.Some?
         case ExpiredRefreshToken => e.db[id].refreshExpiresAt.value <= e.now
         case _ => false
  {
    RefreshSettles(cfg, s, acts, c, id);
    ReachableLater(cfg, s, acts);
    var fams := ReachableInv(cfg, Exec(cfg, s, acts));
    RowIsSnap(Exec(cfg, s, acts).db, fams, id);
  }

  // ---------- Times of revocation ----------

  /** At the k-th step some call read the clock, as `t`, to revoke the family. */
  ghost predicate StampedAt(cfg: Config, start: int, acts: seq<Action>, k: int, t: int, fid: Option<Id>) {
    && Legal(cfg, Init(start), acts) && 0 <= k < |acts| && acts[k].Advance?
    && var m := At(cfg, start, acts, k);
    && m.now == t && acts[k].c in m.calls && m.calls[acts[k].c].pc.Stamp? && m.calls[acts[k].c].pc.session.familyId == fid
  }

  ghost predicate Stamped(cfg: Config, start: int, acts: seq<Action>, t: int, fid: Option<Id>) {
    exists k :: StampedAt(cfg, start, acts, k, t, fid)
  }

  lemma StampedExtends(cfg: Config, start: int, acts: seq<Action>, t: int, fid: Option<Id>)
    requires Legal(cfg, Init(start), acts) && acts != [] && Stamped(cfg, start, acts[..|acts|-1], t, fid)
    ensures Stamped(cfg, start, acts, t, fid)
  {
    var k :| StampedAt(cfg, start, acts[..|acts|-1], k, t, fid);
    PrefixMoments(cfg, start, acts, k);
    assert StampedAt(cfg, start, acts, k, t, fid);
  }

  ghost predicate RevokersStamped(cfg: Config, start: int, acts: seq<Action>)
    requires Legal(cfg, Init(start), acts)
  {
    var e := Exec(cfg, Init(start), acts);
    forall c | c in e.calls && e.calls[c].pc.RevokeRows? ::
      var session := e.calls[c].pc.session; session.revokedAt.Some? && Stamped(cfg, start, acts, session.revokedAt.value, session.familyId)
  }

  ghost predicate RowsStamped(cfg: Config, start: int, acts: seq<Action>)
    requires Legal(cfg, Init(start), acts)
  {
    var e := Exec(cfg, Init(start), acts);
    forall id | id in e.db && e.db[id].revokedAt.Some? :: Stamped(cfg, start, acts, e.db[id].revokedAt.value, e.db[id].familyId)
  }

  /** A call about to revoke was so before the step, or has just stamped its session. */
  lemma StampingStep(cfg: Config, s: State, a: Action, c: CallId)
    requires Enabled(s, a) && CallsOk(s) && c in Next(cfg, s, a).calls && Next(cfg, s, a).calls[c].pc.RevokeRows?
    ensures c in s.calls
    ensures var session := Next(cfg, s, a).calls[c].pc.session;
      || s.calls[c] == Next(cfg, s, a).calls[c]
      || (a.Advance? && a.c == c && s.calls[c].pc.Stamp? && session == s.calls[c].pc.session.(revokedAt := Some(s.now)))
  {
    CallHistory(cfg, s, a, c);
  }

  /** A revoked row was so before the step, or has just got the time of the call that revoked it. */
  lemma MarkingStep(cfg: Config, s: State, a: Action, id: Id)
    requires Enabled(s, a) && CallsOk(s) && id in Next(cfg, s, a).db && Next(cfg, s, a).db[id].revokedAt.Some?
    ensures var row := Next(cfg, s, a).db[id];
      || (id in s.db && s.db[id].revokedAt == row.revokedAt && s.db[id].familyId == row.familyId)
      || (a.Advance? && s.calls[a.c].pc.RevokeRows? && s.calls[a.c].pc.session.familyId == row.familyId
          && s.calls[a.c].pc.session.revokedAt == row.revokedAt)
  {
    if a.Advance? { assert CallOk(s, s.calls[a.c]); }
  }

  lemma {:induction false} RunIsStamped(cfg: Config, start: int, acts: seq<Action>)
    requires Legal(cfg, Init(start), acts)
    ensures RevokersStamped(cfg, start, acts) && RowsStamped(cfg, start, acts)
  {
    if acts != [] {
      var front, a, n := acts[..|acts|-1], acts[|acts|-1], |acts| - 1;
      var m, e := Exec(cfg, Init(start), front), Exec(cfg, Init(start), acts);
      RunIsStamped(cfg, start, front);
      LastMoment(cfg, start, acts);
      forall c | c in e.calls && e.calls[c].pc.RevokeRows?
        ensures var session := e.calls[c].pc.session;
          session.revokedAt.Some? && Stamped(cfg, start, acts, session.revokedAt.value, session.familyId)
      {
        var session := e.calls[c].pc.session;
        StampingStep(cfg, m, a, c);
        if m.calls[c] == e.calls[c] {
          StampedExtends(cfg, start, acts, session.revokedAt.value, session.familyId);
        } else {
          assert StampedAt(cfg, start, acts, n, m.now, session.familyId);
        }
      }
      forall id | id in e.db && e.db[id].revokedAt.Some?
        ensures Stamped(cfg, start, acts, e.db[id].revokedAt.value, e.db[id].familyId)
      {
        MarkingStep(cfg, m, a, id);
        StampedExtends(cfg, start, acts, e.db[id].revokedAt.value, e.db[id].familyId);
      }
    }
  }

  /** The revocation time of every row is what the clock read when some call stamped a session of its family. */
  lemma RevocationTimeIsRead(cfg: Config, start: int, acts: seq<Action>, id: Id)
    requires Legal(cfg, Init(start), acts)
    requires id in Exec(cfg, Init(start), acts).db && Exec(cfg, Init(start), acts).db[id].revokedAt.Some?
    ensures var row := Exec(cfg, Init(start), acts).db[id]; Stamped(cfg, start, acts, row.revokedAt.value, row.familyId)
  {
    RunIsStamped(cfg, start, acts);
  }
}
