/** The moments at which calls take effect, in every run. */
module IdentityLinear {
  import opened Wrappers
  import opened Tokens
  import opened IdentityMachine
  import opened IdentityFamilies
  import opened IdentityInvariant
  import opened IdentityRuns
  import opened IdentityRaces
  import opened IdentityAtomic

  // ---------- A call that finishes does so atomically ----------

  lemma InsertIsAtomic(cfg: Config, s: State, fams: Families, c: CallId, choice: Choice)
    requires Represents(s.db, fams) && Enabled(s, Advance(c, choice)) && CallOk(s, s.calls[c]) && s.calls[c].pc.IssueInsert?
    requires CreatedBy(cfg, s.now, s.calls[c].pc.credentials, s.calls[c].request.claims, None, None)
    ensures NextPc(cfg, s, c, choice).Done?
    ensures Atomic(cfg, fams, NextFamilies(s, fams, Advance(c, choice)), s.now, s.calls[c].request, NextPc(cfg, s, c, choice).outcome)
  {
    NewIdIsNew(s.db, fams, choice.id);
    var creds := s.calls[c].pc.credentials;
    var t :| t <= s.now && creds.session == CreateSession(cfg, t, s.calls[c].request.claims, None, None, creds.token, creds.refresh);
    var creds' := NextPc(cfg, s, c, choice).outcome.credentials;
    assert creds'.(session := creds'.session.(id := None, familyId := None)) == creds;
  }

  lemma ValidateLookupIsAtomic(cfg: Config, s: State, fams: Families, c: CallId, choice: Choice)
    requires Represents(s.db, fams) && TokensOk(s) && Enabled(s, Advance(c, choice)) && CallOk(s, s.calls[c])
    requires s.calls[c].pc.ValidateLookup? && NextPc(cfg, s, c, choice).Done?
    ensures Atomic(cfg, fams, fams, s.now, s.calls[c].request, NextPc(cfg, s, c, choice).outcome)
  {
    var h := s.calls[c].pc.h;
    forall fid ensures !LiveHead(fams, fid, h) {
      if LiveHead(fams, fid, h) {
        if choice.row.Some? { LiveHeadRow(s, fams, choice.row.value, fid, h); }
      }
    }
  }

  lemma ExpiredCheckIsAtomic(cfg: Config, s: State, fams: Families, c: CallId)
    requires Represents(s.db, fams) && TokensOk(s) && c in s.calls && CallOk(s, s.calls[c])
    requires s.calls[c].pc.ValidateCheck? && s.calls[c].pc.session.expiresAt <= s.now
    ensures Atomic(cfg, fams, fams, s.now, s.calls[c].request, ExpiredSession)
  {
    var h, id := Hash(s.calls[c].request.token), s.calls[c].pc.session.id.value;
    var fid, i := RowCarries(s.db, fams, id, h);
    if x :| LiveHead(fams, x, h) && s.now < Head(fams[x]).expiresAt {
      LiveHeadRow(s, fams, id, x, h);
    }
  }

  /** A lookup that refuses found no row or a revoked one. */
  lemma RefusedLookup(s: State, fams: Families, h: TokenHash, row: Option<Id>, again: bool)
    requires Represents(s.db, fams) && TokensOk(s) && FindsRefresh(s.db, h, row)
    requires AfterRefreshLookup(h, RowAt(s.db, row), again).Done?
    ensures AfterRefreshLookup(h, RowAt(s.db, row), again).outcome.InvalidRefreshToken?
    ensures forall fid, i | Carries(fams, fid, i, h) :: fams[fid].revokedAt.Some?
  {
    if row.Some? {
      RowIsSnap(s.db, fams, row.value);
      RevokedRefresh(s, fams, row.value, h);
    } else {
      UnknownRefresh(s.db, fams, h);
    }
  }

  lemma RefreshLookupIsAtomic(cfg: Config, s: State, fams: Families, c: CallId, choice: Choice)
    requires Represents(s.db, fams) && TokensOk(s) && Enabled(s, Advance(c, choice)) && CallOk(s, s.calls[c])
    requires s.calls[c].pc.RefreshLookup? && NextPc(cfg, s, c, choice).Done?
    ensures Atomic(cfg, fams, fams, s.now, s.calls[c].request, NextPc(cfg, s, c, choice).outcome)
  {
    RefusedLookup(s, fams, s.calls[c].pc.h, choice.row, s.calls[c].pc.again);
  }

  lemma RefreshCheckIsAtomic(cfg: Config, s: State, fams: Families, c: CallId, choice: Choice)
    requires Represents(s.db, fams) && Enabled(s, Advance(c, choice)) && CallOk(s, s.calls[c])
    requires s.calls[c].pc.RefreshCheck? && NextPc(cfg, s, c, choice).Done?
    ensures Atomic(cfg, fams, fams, s.now, s.calls[c].request, NextPc(cfg, s, c, choice).outcome)
  {
    var fid, i := RowCarries(s.db, fams, s.calls[c].pc.session.id.value, s.calls[c].pc.h);
  }

  /** The draft of the replacement is the one an atomic rotation of the head creates. */
  lemma DraftContinuesHead(cfg: Config, s: State, fams: Families, fid: Id, f: Family, snap: Session, creds: Credentials)
    requires fid in fams && f == fams[fid] && SnapOf(s.db, snap) && 0 < |f.chain|
    requires s.db[snap.id.value] == RowOf(fid, f, |f.chain| - 1) && Head(f).refreshHash.Some?
    requires CreatedBy(cfg, s.now, creds, ClaimsOf(snap), snap.refreshExpiresAt, snap.familyId)
    ensures CreatedBy(cfg, s.now, creds, f.claims, f.deadline, Some(fid)) && creds.session.id.None?
  {
    assert RowEvolves(snap, s.db[snap.id.value]);
  }

  lemma RotationIsAtomic(cfg: Config, s: State, fams: Families, request: Request, snap: Session, creds: Credentials, id: Id)
    returns (fid: Id)
    requires Represents(s.db, fams) && Replaceable(s.db, s.now, snap) && SnapOf(s.db, snap) && id !in s.db
    requires request.Refresh? && HasRefresh(snap, Hash(request.token)) && creds.refresh.Some? == request.wantRefresh
    requires CreatedBy(cfg, s.now, creds, ClaimsOf(snap), snap.refreshExpiresAt, snap.familyId)
    ensures snap.familyId == Some(fid) && fid in fams
    ensures AtomicRotation(cfg, fams, fams[fid := Rotated(fams[fid], creds.session, id)], s.now, fid, request,
                           creds.(session := creds.session.(id := Some(id))))
  {
    fid := ReplaceableIsHead(s.db, fams, s.now, snap);
    NewIdIsNew(s.db, fams, id);
    DraftContinuesHead(cfg, s, fams, fid, fams[fid], snap, creds);
    var creds' := creds.(session := creds.session.(id := Some(id)));
    assert creds'.(session := creds'.session.(id := None)) == creds;
    assert Rotated(fams[fid], creds'.session, id) == Rotated(fams[fid], creds.session, id);
  }

  lemma ReplaceIsAtomic(cfg: Config, s: State, fams: Families, c: CallId, choice: Choice)
    requires Represents(s.db, fams) && Enabled(s, Advance(c, choice)) && CallOk(s, s.calls[c])
    requires s.calls[c].pc.RefreshReplace? && NextPc(cfg, s, c, choice).Done?
    requires var pc := s.calls[c].pc;
      CreatedBy(cfg, s.now, pc.credentials, ClaimsOf(pc.session), pc.session.refreshExpiresAt, pc.session.familyId)
    ensures Atomic(cfg, fams, NextFamilies(s, fams, Advance(c, choice)), s.now, s.calls[c].request, NextPc(cfg, s, c, choice).outcome)
  {
    var pc := s.calls[c].pc;
    var fid := RotationIsAtomic(cfg, s, fams, s.calls[c].request, pc.session, pc.credentials, choice.id);
  }

  lemma RevokeRowsIsAtomic(cfg: Config, s: State, fams: Families, c: CallId, choice: Choice)
    requires Represents(s.db, fams) && Enabled(s, Advance(c, choice)) && CallOk(s, s.calls[c]) && s.calls[c].pc.RevokeRows?
    ensures NextPc(cfg, s, c, choice).Done?
    ensures Atomic(cfg, fams, NextFamilies(s, fams, Advance(c, choice)), s.now, s.calls[c].request, NextPc(cfg, s, c, choice).outcome)
  {
    var session, h := s.calls[c].pc.session, Presented(s.calls[c].request).value;
    var fid, i := RowCarries(s.db, fams, session.id.value, h);
    var fams' := NextFamilies(s, fams, Advance(c, choice));
    assert session.familyId == Some(fid);
    assert fams' == fams[fid := RevokedFamily(fams[fid], Some(session.revokedAt.value))];
    assert RevokedBy(fams, fams', fid, s.now);
  }

  // ---------- Moments of a run ----------

  ghost function At(cfg: Config, start: int, acts: seq<Action>, k: nat): State
    requires Legal(cfg, Init(start), acts) && k <= |acts|
  {
    LegalPrefix(cfg, Init(start), acts, k);
    Exec(cfg, Init(start), acts[..k])
  }

  ghost function FamsAt(cfg: Config, start: int, acts: seq<Action>, k: nat): Families
    requires Legal(cfg, Init(start), acts) && k <= |acts|
  {
    LegalPrefix(cfg, Init(start), acts, k);
    FamiliesAfter(cfg, Init(start), map[], acts[..k])
  }

  /** The k-th step is a step of call `c`, so it lies between the call's begin and its end. */
  ghost predicate Own(acts: seq<Action>, c: CallId, k: int) {
    0 <= k < |acts| && !acts[k].Tick? && acts[k].c == c
  }

  /** At its own k-th step the call does to the families what an atomic call does. */
  ghost predicate TakesEffect(cfg: Config, start: int, acts: seq<Action>, c: CallId, k: int, request: Request, outcome: Outcome) {
    && Legal(cfg, Init(start), acts) && Own(acts, c, k)
    && Atomic(cfg, FamsAt(cfg, start, acts, k), FamsAt(cfg, start, acts, k + 1), At(cfg, start, acts, k).now, request, outcome)
  }

  /** `row` is the live head of a family and holds the access token. */
  ghost predicate LiveRow(fams: Families, h: TokenHash, row: Session) {
    exists fid :: LiveHead(fams, fid, h) && row == RowOf(fid, fams[fid], |fams[fid].chain| - 1)
  }

  /** The call looked its token up in the live head of a family. */
  ghost predicate SawLive(cfg: Config, start: int, acts: seq<Action>, c: CallId, k: int, h: TokenHash, snap: Session) {
    && Legal(cfg, Init(start), acts) && Own(acts, c, k)
    && FamsAt(cfg, start, acts, k + 1) == FamsAt(cfg, start, acts, k)
    && At(cfg, start, acts, k).now <= Exec(cfg, Init(start), acts).now
    && LiveRow(FamsAt(cfg, start, acts, k), h, snap)
  }

  /** The call found no row with this access token. */
  ghost predicate SawNoAccess(cfg: Config, start: int, acts: seq<Action>, c: CallId, k: int, h: TokenHash) {
    && Legal(cfg, Init(start), acts) && Own(acts, c, k)
    && FamsAt(cfg, start, acts, k + 1) == FamsAt(cfg, start, acts, k)
    && FindsAccess(At(cfg, start, acts, k).db, h, None)
    && Evolves(At(cfg, start, acts, k).db, Exec(cfg, Init(start), acts).db)
  }

  ghost predicate History(cfg: Config, start: int, acts: seq<Action>, c: CallId)
    requires Legal(cfg, Init(start), acts) && c in Exec(cfg, Init(start), acts).calls
  {
    var s := Exec(cfg, Init(start), acts);
    var call := s.calls[c];
    match call.pc
    case Done(outcome) => exists k :: TakesEffect(cfg, start, acts, c, k, call.request, outcome)
    case ValidateCheck(snap) =>
      call.request.Validate? && exists k :: SawLive(cfg, start, acts, c, k, Hash(call.request.token), snap)
    case RevokeLookupRefresh(h) => exists k :: SawNoAccess(cfg, start, acts, c, k, h)
    case IssueInsert(creds) => call.request.Issue? && CreatedBy(cfg, s.now, creds, call.request.claims, None, None)
    case RefreshReplace(_, snap, creds) =>
      CreatedBy(cfg, s.now, creds, ClaimsOf(snap), snap.refreshExpiresAt, snap.familyId)
    case _ => true
  }

  lemma PrefixMoments(cfg: Config, start: int, acts: seq<Action>, k: nat)
    requires Legal(cfg, Init(start), acts) && k < |acts|
    ensures var front := acts[..|acts|-1];
      && Legal(cfg, Init(start), front)
      && At(cfg, start, acts, k) == At(cfg, start, front, k) && FamsAt(cfg, start, acts, k) == FamsAt(cfg, start, front, k)
  {
    assert acts[..|acts|-1][..k] == acts[..k];
  }

  lemma LastMoment(cfg: Config, start: int, acts: seq<Action>)
    requires Legal(cfg, Init(start), acts) && acts != []
    ensures var n := |acts| - 1; var front := acts[..n];
      && Legal(cfg, Init(start), front) && Enabled(Exec(cfg, Init(start), front), acts[n])
      && At(cfg, start, acts, n) == Exec(cfg, Init(start), front)
      && FamsAt(cfg, start, acts, n + 1) == NextFamilies(At(cfg, start, acts, n), FamsAt(cfg, start, acts, n), acts[n])
      && FamsAt(cfg, start, acts, n) == FamiliesAfter(cfg, Init(start), map[], front)
      && Inv(At(cfg, start, acts, n), FamsAt(cfg, start, acts, n))
  {
    var n := |acts| - 1;
    assert acts[..n + 1] == acts;
    RunInv(cfg, Init(start), map[], acts[..n]);
  }

  lemma EffectExtends(cfg: Config, start: int, acts: seq<Action>, c: CallId, k: int, request: Request, outcome: Outcome)
    requires Legal(cfg, Init(start), acts) && acts != [] && TakesEffect(cfg, start, acts[..|acts|-1], c, k, request, outcome)
    ensures TakesEffect(cfg, start, acts, c, k, request, outcome)
  {
    PrefixMoments(cfg, start, acts, k);
    PrefixMoments(cfg, start, acts, k + 1);
  }

  lemma SawLiveExtends(cfg: Config, start: int, acts: seq<Action>, c: CallId, k: int, h: TokenHash, snap: Session)
    requires Legal(cfg, Init(start), acts) && acts != [] && SawLive(cfg, start, acts[..|acts|-1], c, k, h, snap)
    ensures SawLive(cfg, start, acts, c, k, h, snap)
  {
    PrefixMoments(cfg, start, acts, k);
    PrefixMoments(cfg, start, acts, k + 1);
    ClockLater(cfg, start, acts);
  }

  lemma ClockLater(cfg: Config, start: int, acts: seq<Action>)
    requires Legal(cfg, Init(start), acts) && acts != []
    ensures Legal(cfg, Init(start), acts[..|acts|-1])
    ensures Exec(cfg, Init(start), acts[..|acts|-1]).now <= Exec(cfg, Init(start), acts).now
  {
  }

  lemma SawNoAccessExtends(cfg: Config, start: int, acts: seq<Action>, c: CallId, k: int, h: TokenHash)
    requires Legal(cfg, Init(start), acts) && acts != [] && SawNoAccess(cfg, start, acts[..|acts|-1], c, k, h)
    ensures SawNoAccess(cfg, start, acts, c, k, h)
  {
    PrefixMoments(cfg, start, acts, k);
    PrefixMoments(cfg, start, acts, k + 1);
    LastMoment(cfg, start, acts);
    var m := Exec(cfg, Init(start), acts[..|acts|-1]);
    NextEvolves(cfg, m, acts[|acts|-1]);
    EvolvesTransitive(At(cfg, start, acts, k).db, m.db, Exec(cfg, Init(start), acts).db);
  }

  lemma CreatedByLater(cfg: Config, now: int, now': int, creds: Credentials, claims: Claims, inherited: Option<int>, familyId: Option<Id>)
    requires CreatedBy(cfg, now, creds, claims, inherited, familyId) && now <= now'
    ensures CreatedBy(cfg, now', creds, claims, inherited, familyId)
  {
    var t :| t <= now && creds.session == CreateSession(cfg, t, claims, inherited, familyId, creds.token, creds.refresh);
  }

  // ---------- Every step of a call adds to its history ----------

  lemma FoundLive(db: Store, fams: Families, id: Id, h: TokenHash)
    requires Represents(db, fams) && id in db && HasAccess(db[id], h) && db[id].revokedAt.None? && db[id].replacedBy.None?
    ensures LiveRow(fams, h, db[id])
  {
    var fid, i := RowCarries(db, fams, id, h);
    assert i == |fams[fid].chain| - 1;
    assert LiveHead(fams, fid, h);
  }

  /** The last step is call `c`'s. */
  ghost predicate LastIsOwn(cfg: Config, start: int, acts: seq<Action>, c: CallId) {
    && Legal(cfg, Init(start), acts) && acts != [] && acts[|acts|-1].Advance? && acts[|acts|-1].c == c
    && Legal(cfg, Init(start), acts[..|acts|-1]) && c in Before(cfg, start, acts).calls
  }

  ghost function Before(cfg: Config, start: int, acts: seq<Action>): State
    requires acts != [] && Legal(cfg, Init(start), acts[..|acts|-1])
  {
    Exec(cfg, Init(start), acts[..|acts|-1])
  }

  /** A lookup leaves families and rows alone. */
  lemma LookupMoment(cfg: Config, start: int, acts: seq<Action>, c: CallId)
    requires LastIsOwn(cfg, start, acts, c)
    requires var pc := Before(cfg, start, acts).calls[c].pc; pc.ValidateLookup? || pc.RevokeLookupAccess?
    ensures FamsAt(cfg, start, acts, |acts|) == FamsAt(cfg, start, acts, |acts| - 1)
    ensures At(cfg, start, acts, |acts| - 1) == Before(cfg, start, acts)
    ensures Exec(cfg, Init(start), acts).now == Before(cfg, start, acts).now
    ensures Exec(cfg, Init(start), acts).db == Before(cfg, start, acts).db
    ensures Represents(Before(cfg, start, acts).db, FamsAt(cfg, start, acts, |acts| - 1))
  {
    LastMoment(cfg, start, acts);
  }

  lemma SawLiveNow(cfg: Config, start: int, acts: seq<Action>, c: CallId, h: TokenHash, id: Id)
    requires LastIsOwn(cfg, start, acts, c) && Before(cfg, start, acts).calls[c].pc == ValidateLookup(h)
    requires var db := Before(cfg, start, acts).db;
      id in db && HasAccess(db[id], h) && db[id].revokedAt.None? && db[id].replacedBy.None?
    ensures SawLive(cfg, start, acts, c, |acts| - 1, h, Before(cfg, start, acts).db[id])
  {
    LookupMoment(cfg, start, acts, c);
    FoundLive(Before(cfg, start, acts).db, FamsAt(cfg, start, acts, |acts| - 1), id, h);
  }

  lemma ValidatedThen(cfg: Config, start: int, acts: seq<Action>, c: CallId, k: int, token: Token, snap: Session)
    requires SawLive(cfg, start, acts, c, k, Hash(token), snap) && Exec(cfg, Init(start), acts).now < snap.expiresAt
    ensures TakesEffect(cfg, start, acts, c, k, Validate(token), Validated(snap))
  {
    var fams := FamsAt(cfg, start, acts, k);
    var fid :| LiveHead(fams, fid, Hash(token)) && snap == RowOf(fid, fams[fid], |fams[fid].chain| - 1);
    assert At(cfg, start, acts, k).now < Head(fams[fid]).expiresAt;
  }

  lemma UnknownThen(cfg: Config, start: int, acts: seq<Action>, c: CallId, k: int, token: Token)
    requires SawNoAccess(cfg, start, acts, c, k, Hash(token))
    requires FindsRefresh(Exec(cfg, Init(start), acts).db, Hash(token), None)
    ensures TakesEffect(cfg, start, acts, c, k, Revoke(token), Revoked)
  {
    var s, fams := At(cfg, start, acts, k), FamsAt(cfg, start, acts, k);
    LegalPrefix(cfg, Init(start), acts, k);
    RunInv(cfg, Init(start), map[], acts[..k]);
    UnknownBefore(s.db, Exec(cfg, Init(start), acts).db, Hash(token));
    UnknownAccess(s.db, fams, Hash(token));
    UnknownRefresh(s.db, fams, Hash(token));
    assert AtomicRevoke(fams, fams, s.now, token, Revoked);
  }

  /** A refresh token that no row has now, no row had before. */
  lemma UnknownBefore(db: Store, db': Store, h: TokenHash)
    requires Evolves(db, db') && FindsRefresh(db', h, None)
    ensures FindsRefresh(db, h, None)
  {
    forall id | id in db ensures !HasRefresh(db[id], h) {
      assert RowEvolves(db[id], db'[id]);
    }
  }

  /** The steps that finish a call at the moment they are taken. */
  lemma FinishesNow(cfg: Config, s: State, fams: Families, c: CallId, choice: Choice)
    requires Inv(s, fams) && Enabled(s, Advance(c, choice)) && NextPc(cfg, s, c, choice).Done?
    requires !s.calls[c].pc.RevokeLookupRefresh? && !NextPc(cfg, s, c, choice).outcome.Validated?
    requires s.calls[c].pc.IssueInsert? ==>
      CreatedBy(cfg, s.now, s.calls[c].pc.credentials, s.calls[c].request.claims, None, None)
    requires s.calls[c].pc.RefreshReplace? ==>
      CreatedBy(cfg, s.now, s.calls[c].pc.credentials, ClaimsOf(s.calls[c].pc.session),
                s.calls[c].pc.session.refreshExpiresAt, s.calls[c].pc.session.familyId)
    ensures Atomic(cfg, fams, NextFamilies(s, fams, Advance(c, choice)), s.now, s.calls[c].request, NextPc(cfg, s, c, choice).outcome)
  {
    var call := s.calls[c];
    assert CallOk(s, call);
    if call.pc.IssueInsert? {
      InsertIsAtomic(cfg, s, fams, c, choice);
    } else if call.pc.RefreshReplace? {
      ReplaceIsAtomic(cfg, s, fams, c, choice);
    } else if call.pc.RevokeRows? {
      RevokeRowsIsAtomic(cfg, s, fams, c, choice);
    } else if call.pc.ValidateLookup? {
      ValidateLookupIsAtomic(cfg, s, fams, c, choice);
    } else if call.pc.ValidateCheck? {
      ExpiredCheckIsAtomic(cfg, s, fams, c);
    } else if call.pc.RefreshLookup? {
      RefreshLookupIsAtomic(cfg, s, fams, c, choice);
    } else {
      RefreshCheckIsAtomic(cfg, s, fams, c, choice);
    }
  }

  lemma FinishValidated(cfg: Config, start: int, acts: seq<Action>, c: CallId, token: Token, snap: Session)
    requires LastIsOwn(cfg, start, acts, c) && History(cfg, start, acts[..|acts|-1], c)
    requires Before(cfg, start, acts).calls[c] == Call(Validate(token), ValidateCheck(snap))
    requires Before(cfg, start, acts).now < snap.expiresAt
    ensures exists k :: TakesEffect(cfg, start, acts, c, k, Validate(token), Validated(snap))
  {
    var k :| SawLive(cfg, start, acts[..|acts|-1], c, k, Hash(token), snap);
    SawLiveExtends(cfg, start, acts, c, k, Hash(token), snap);
    ValidatedThen(cfg, start, acts, c, k, token, snap);
  }

  lemma FinishUnknown(cfg: Config, start: int, acts: seq<Action>, c: CallId, token: Token)
    requires LastIsOwn(cfg, start, acts, c) && History(cfg, start, acts[..|acts|-1], c)
    requires Before(cfg, start, acts).calls[c] == Call(Revoke(token), RevokeLookupRefresh(Hash(token)))
    requires FindsRefresh(Before(cfg, start, acts).db, Hash(token), None)
    ensures exists k :: TakesEffect(cfg, start, acts, c, k, Revoke(token), Revoked)
  {
    var k :| SawNoAccess(cfg, start, acts[..|acts|-1], c, k, Hash(token));
    SawNoAccessExtends(cfg, start, acts, c, k, Hash(token));
    UnknownThen(cfg, start, acts, c, k, token);
  }

  /** The two ends whose moment lies earlier: an accepted validation and a revocation of an unknown token. */
  lemma EarlierMoments(cfg: Config, s: State, c: CallId, choice: Choice)
    requires Enabled(s, Advance(c, choice)) && CallOk(s, s.calls[c]) && NextPc(cfg, s, c, choice).Done?
    ensures NextPc(cfg, s, c, choice).outcome.Validated? ==>
      && s.calls[c].request.Validate? && s.calls[c].pc == ValidateCheck(NextPc(cfg, s, c, choice).outcome.session)
      && s.now < s.calls[c].pc.session.expiresAt
    ensures s.calls[c].pc.RevokeLookupRefresh? ==>
      && s.calls[c].request.Revoke? && s.calls[c].pc.h == Hash(s.calls[c].request.token)
      && NextPc(cfg, s, c, choice).outcome.Revoked? && FindsRefresh(s.db, s.calls[c].pc.h, None)
  {
  }

  lemma FinishNowHistory(cfg: Config, start: int, acts: seq<Action>, c: CallId, outcome: Outcome)
    requires LastIsOwn(cfg, start, acts, c) && History(cfg, start, acts[..|acts|-1], c)
    requires NextPc(cfg, Before(cfg, start, acts), c, acts[|acts|-1].choice) == Done(outcome)
    requires !outcome.Validated? && !Before(cfg, start, acts).calls[c].pc.RevokeLookupRefresh?
    ensures TakesEffect(cfg, start, acts, c, |acts| - 1, Before(cfg, start, acts).calls[c].request, outcome)
  {
    LastMoment(cfg, start, acts);
    FinishesNow(cfg, Before(cfg, start, acts), FamsAt(cfg, start, acts, |acts| - 1), c, acts[|acts|-1].choice);
  }

  lemma FinishHistory(cfg: Config, start: int, acts: seq<Action>, c: CallId, request: Request, outcome: Outcome)
    requires LastIsOwn(cfg, start, acts, c) && History(cfg, start, acts[..|acts|-1], c)
    requires request == Before(cfg, start, acts).calls[c].request
    requires NextPc(cfg, Before(cfg, start, acts), c, acts[|acts|-1].choice) == Done(outcome)
    ensures exists k :: TakesEffect(cfg, start, acts, c, k, request, outcome)
  {
    LastMoment(cfg, start, acts);
    EarlierMoments(cfg, Before(cfg, start, acts), c, acts[|acts|-1].choice);
    if outcome.Validated? {
      FinishValidated(cfg, start, acts, c, request.token, outcome.session);
    } else if Before(cfg, start, acts).calls[c].pc.RevokeLookupRefresh? {
      FinishUnknown(cfg, start, acts, c, request.token);
    } else {
      FinishNowHistory(cfg, start, acts, c, outcome);
    }
  }

  lemma CreateHistory(cfg: Config, s: State, fams: Families, c: CallId, choice: Choice)
    requires Inv(s, fams) && Enabled(s, Advance(c, choice)) && (s.calls[c].pc.IssueCreate? || s.calls[c].pc.RefreshCreate?)
    ensures var pc' := NextPc(cfg, s, c, choice);
      if s.calls[c].pc.IssueCreate? then
        pc'.IssueInsert? && s.calls[c].request.Issue?
        && CreatedBy(cfg, s.now, pc'.credentials, s.calls[c].request.claims, None, None)
      else
        pc'.RefreshReplace?
        && CreatedBy(cfg, s.now, pc'.credentials, ClaimsOf(pc'.session), pc'.session.refreshExpiresAt, pc'.session.familyId)
  {
  }

  lemma LookupHistory(cfg: Config, start: int, acts: seq<Action>, c: CallId)
    requires LastIsOwn(cfg, start, acts, c) && Enabled(Before(cfg, start, acts), acts[|acts|-1])
    requires CallOk(Before(cfg, start, acts), Before(cfg, start, acts).calls[c])
    requires !NextPc(cfg, Before(cfg, start, acts), c, acts[|acts|-1].choice).Done?
    ensures var m := Before(cfg, start, acts); var pc' := NextPc(cfg, m, c, acts[|acts|-1].choice);
      && (pc'.ValidateCheck? ==>
            m.calls[c].request.Validate? && SawLive(cfg, start, acts, c, |acts| - 1, Hash(m.calls[c].request.token), pc'.session))
      && (pc'.RevokeLookupRefresh? ==> SawNoAccess(cfg, start, acts, c, |acts| - 1, pc'.h))
  {
    var m, choice := Before(cfg, start, acts), acts[|acts|-1].choice;
    if m.calls[c].pc.ValidateLookup? {
      SawLiveNow(cfg, start, acts, c, m.calls[c].pc.h, choice.row.value);
    } else if m.calls[c].pc.RevokeLookupAccess? {
      LookupMoment(cfg, start, acts, c);
    }
  }

  lemma AdvanceHistory(cfg: Config, start: int, acts: seq<Action>, c: CallId)
    requires LastIsOwn(cfg, start, acts, c) && c in Exec(cfg, Init(start), acts).calls
    requires !NextPc(cfg, Before(cfg, start, acts), c, acts[|acts|-1].choice).Done?
    ensures History(cfg, start, acts, c)
  {
    LastMoment(cfg, start, acts);
    var n := |acts| - 1;
    var m := Before(cfg, start, acts);
    CallHistory(cfg, m, acts[n], c);
    assert CallOk(m, m.calls[c]);
    if m.calls[c].pc.IssueCreate? || m.calls[c].pc.RefreshCreate? {
      CreateHistory(cfg, m, FamsAt(cfg, start, acts, n), c, acts[n].choice);
    } else {
      LookupHistory(cfg, start, acts, c);
    }
  }

  lemma OtherHistory(cfg: Config, start: int, acts: seq<Action>, c: CallId)
    requires Legal(cfg, Init(start), acts) && acts != [] && !(acts[|acts|-1].Advance? && acts[|acts|-1].c == c)
    requires Legal(cfg, Init(start), acts[..|acts|-1]) && c in Exec(cfg, Init(start), acts[..|acts|-1]).calls
    requires History(cfg, start, acts[..|acts|-1], c) && c in Exec(cfg, Init(start), acts).calls
    ensures History(cfg, start, acts, c)
  {
    LastMoment(cfg, start, acts);
    var front := acts[..|acts|-1];
    var m, e := Exec(cfg, Init(start), front), Exec(cfg, Init(start), acts);
    CallHistory(cfg, m, acts[|acts|-1], c);
    NextEvolves(cfg, m, acts[|acts|-1]);
    var call := m.calls[c];
    match call.pc
    case Done(outcome) =>
      var k :| TakesEffect(cfg, start, front, c, k, call.request, outcome);
      EffectExtends(cfg, start, acts, c, k, call.request, outcome);
    case ValidateCheck(snap) =>
      var k :| SawLive(cfg, start, front, c, k, Hash(call.request.token), snap);
      SawLiveExtends(cfg, start, acts, c, k, Hash(call.request.token), snap);
    case RevokeLookupRefresh(h) =>
      var k :| SawNoAccess(cfg, start, front, c, k, h);
      SawNoAccessExtends(cfg, start, acts, c, k, h);
    case IssueInsert(creds) => CreatedByLater(cfg, m.now, e.now, creds, call.request.claims, None, None);
    case RefreshReplace(_, snap, creds) =>
      CreatedByLater(cfg, m.now, e.now, creds, ClaimsOf(snap), snap.refreshExpiresAt, snap.familyId);
    case _ =>
  }

  lemma BeginHistory(cfg: Config, start: int, acts: seq<Action>, c: CallId)
    requires Legal(cfg, Init(start), acts) && acts != [] && c in Exec(cfg, Init(start), acts).calls
    requires Legal(cfg, Init(start), acts[..|acts|-1]) && c !in Exec(cfg, Init(start), acts[..|acts|-1]).calls
    ensures History(cfg, start, acts, c)
  {
    LastMoment(cfg, start, acts);
    var n := |acts| - 1;
    var e := Exec(cfg, Init(start), acts);
    CallHistory(cfg, Exec(cfg, Init(start), acts[..n]), acts[n], c);
    if e.calls[c].pc.Done? {
      assert TakesEffect(cfg, start, acts, c, n, e.calls[c].request, e.calls[c].pc.outcome);
    }
  }

  lemma {:induction false} CallsHaveHistory(cfg: Config, start: int, acts: seq<Action>, c: CallId)
    requires Legal(cfg, Init(start), acts) && c in Exec(cfg, Init(start), acts).calls
    ensures History(cfg, start, acts, c)
  {
    var front := acts[..|acts|-1];
    if c in Exec(cfg, Init(start), front).calls {
      CallsHaveHistory(cfg, start, front, c);
      var a := acts[|acts|-1];
      if !(a.Advance? && a.c == c) {
        OtherHistory(cfg, start, acts, c);
      } else if NextPc(cfg, Before(cfg, start, acts), c, a.choice).Done? {
        FinishHistory(cfg, start, acts, c, Before(cfg, start, acts).calls[c].request,
                      NextPc(cfg, Before(cfg, start, acts), c, a.choice).outcome);
        CallHistory(cfg, Before(cfg, start, acts), a, c);
      } else {
        AdvanceHistory(cfg, start, acts, c);
      }
    } else {
      BeginHistory(cfg, start, acts, c);
    }
  }

  /** Every finished call of every interleaving took effect, with the outcome it reports, at one of its own steps. */
  lemma FinishedCallsAreAtomic(cfg: Config, start: int, acts: seq<Action>, c: CallId)
    requires Legal(cfg, Init(start), acts) && c in Exec(cfg, Init(start), acts).calls
    requires Exec(cfg, Init(start), acts).calls[c].pc.Done?
    ensures var call := Exec(cfg, Init(start), acts).calls[c];
      exists k :: TakesEffect(cfg, start, acts, c, k, call.request, call.pc.outcome)
  {
    CallsHaveHistory(cfg, start, acts, c);
  }

  /** At its own k-th step, with the clock before the expiry, the call's token was the access token of a live head. */
  ghost predicate WasLive(cfg: Config, start: int, acts: seq<Action>, c: CallId, k: int, fid: Id, token: Token, session: Session) {
    && Legal(cfg, Init(start), acts) && Own(acts, c, k)
    && LiveHead(FamsAt(cfg, start, acts, k), fid, Hash(token))
    && At(cfg, start, acts, k).now < session.expiresAt
    && session == RowOf(fid, FamsAt(cfg, start, acts, k)[fid], |FamsAt(cfg, start, acts, k)[fid].chain| - 1)
  }

  lemma EffectWasLive(cfg: Config, start: int, acts: seq<Action>, c: CallId, k: int, token: Token, session: Session)
    requires TakesEffect(cfg, start, acts, c, k, Validate(token), Validated(session))
    ensures exists fid :: WasLive(cfg, start, acts, c, k, fid, token, session)
  {
    var fams, now := FamsAt(cfg, start, acts, k), At(cfg, start, acts, k).now;
    assert AtomicValidate(fams, FamsAt(cfg, start, acts, k + 1), now, token, Validated(session));
    var fid :| LiveHead(fams, fid, Hash(token)) && now < Head(fams[fid]).expiresAt
      && session == RowOf(fid, fams[fid], |fams[fid].chain| - 1);
    assert WasLive(cfg, start, acts, c, k, fid, token, session);
  }

  /** Every accepted access token was, at some step of the call that accepted it, live, unexpired and of the session returned. */
  lemma AcceptedTokensWereLive(cfg: Config, start: int, acts: seq<Action>, c: CallId, token: Token, session: Session)
    requires Legal(cfg, Init(start), acts) && c in Exec(cfg, Init(start), acts).calls
    requires Exec(cfg, Init(start), acts).calls[c] == Call(Validate(token), Done(Validated(session)))
    ensures exists k, fid :: WasLive(cfg, start, acts, c, k, fid, token, session)
  {
    FinishedCallsAreAtomic(cfg, start, acts, c);
    var k :| TakesEffect(cfg, start, acts, c, k, Validate(token), Validated(session));
    EffectWasLive(cfg, start, acts, c, k, token, session);
  }

  /** Nothing else moves the families: a step that changes them finishes its call, and is the moment it takes effect. */
  lemma OnlyFinishingStepsChangeFamilies(cfg: Config, start: int, acts: seq<Action>)
    requires Legal(cfg, Init(start), acts) && acts != []
    requires FamsAt(cfg, start, acts, |acts|) != FamsAt(cfg, start, acts, |acts| - 1)
    ensures acts[|acts|-1].Advance?
    ensures var c := acts[|acts|-1].c; var e := Exec(cfg, Init(start), acts);
      && c in e.calls && e.calls[c].pc.Done?
      && TakesEffect(cfg, start, acts, c, |acts| - 1, e.calls[c].request, e.calls[c].pc.outcome)
  {
    LastMoment(cfg, start, acts);
    var n := |acts| - 1;
    var c := acts[n].c;
    var m := Exec(cfg, Init(start), acts[..n]);
    assert CallOk(m, m.calls[c]);
    CallsHaveHistory(cfg, start, acts[..n], c);
    FinishesNow(cfg, m, FamsAt(cfg, start, acts, n), c, acts[n].choice);
  }
}
