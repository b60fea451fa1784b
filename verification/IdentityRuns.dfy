/** What holds in every state of every interleaving, and between any two states of a run. */
module IdentityRuns {
  import opened Wrappers
  import opened Tokens
  import opened IdentityMachine
  import opened IdentityFamilies
  import opened IdentityInvariant

  // ---------- Runs keep the invariant ----------

  ghost function FamiliesAfter(cfg: Config, s: State, fams: Families, acts: seq<Action>): Families
    requires Legal(cfg, s, acts)
  {
    if acts == [] then fams
    else
      var front := acts[..|acts|-1];
      NextFamilies(Exec(cfg, s, front), FamiliesAfter(cfg, s, fams, front), acts[|acts|-1])
  }

  lemma {:induction false} RunInv(cfg: Config, s: State, fams: Families, acts: seq<Action>)
    requires Inv(s, fams) && Legal(cfg, s, acts)
    ensures Inv(Exec(cfg, s, acts), FamiliesAfter(cfg, s, fams, acts))
  {
    if acts != [] {
      var front := acts[..|acts|-1];
      RunInv(cfg, s, fams, front);
      NextInv(cfg, Exec(cfg, s, front), FamiliesAfter(cfg, s, fams, front), acts[|acts|-1]);
    }
  }

  ghost predicate Reachable(cfg: Config, s: State) {
    exists start, acts :: Legal(cfg, Init(start), acts) && s == Exec(cfg, Init(start), acts)
  }

  /** The simulation: every reachable store is the rows of some families. */
  lemma ReachableInv(cfg: Config, s: State) returns (fams: Families)
    requires Reachable(cfg, s)
    ensures Inv(s, fams)
  {
    var start, acts :| Legal(cfg, Init(start), acts) && s == Exec(cfg, Init(start), acts);
    RunInv(cfg, Init(start), map[], acts);
    fams := FamiliesAfter(cfg, Init(start), map[], acts);
  }

  lemma {:induction false} RunEvolves(cfg: Config, s: State, fams: Families, acts: seq<Action>)
    requires Inv(s, fams) && Legal(cfg, s, acts)
    ensures s.now <= Exec(cfg, s, acts).now && Evolves(s.db, Exec(cfg, s, acts).db)
  {
    if acts != [] {
      var front := acts[..|acts|-1];
      RunEvolves(cfg, s, fams, front);
      RunInv(cfg, s, fams, front);
      NextEvolves(cfg, Exec(cfg, s, front), acts[|acts|-1]);
      EvolvesTransitive(s.db, Exec(cfg, s, front).db, Exec(cfg, s, acts).db);
    }
  }

  // ---------- One chain per family ----------

  ghost predicate SameFamily(db: Store, a: Id, b: Id) {
    a in db && b in db && db[a].familyId == db[b].familyId
  }

  /** The i-th session is stored and points to its successor, the last one to nothing. */
  ghost predicate Linked(db: Store, ids: seq<Id>, i: nat)
    requires i < |ids|
  {
    ids[i] in db && db[ids[i]].replacedBy == (if i + 1 < |ids| then Some(ids[i + 1]) else None)
  }

  /** `ids` lists the family once, from its root along `replacedBy` to the one unreplaced session. */
  ghost predicate IsChain(db: Store, fid: Id, ids: seq<Id>) {
    && 0 < |ids| && ids[0] == fid
    && (forall i, j | 0 <= i < j < |ids| :: ids[i] != ids[j])
    && (forall id | id in db :: id in ids <==> db[id].familyId == Some(fid))
    && (forall i | 0 <= i < |ids| :: Linked(db, ids, i))
  }

  ghost function ChainIds(f: Family): (ids: seq<Id>)
    ensures |ids| == |f.chain| && forall i | 0 <= i < |ids| :: ids[i] == f.chain[i].id
  {
    seq(|f.chain|, i requires 0 <= i < |f.chain| => f.chain[i].id)
  }

  lemma ChainIdsAreFamily(db: Store, fams: Families, fid: Id, id: Id)
    requires Represents(db, fams) && fid in fams && id in db
    ensures id in ChainIds(fams[fid]) <==> db[id].familyId == Some(fid)
  {
    var ids := ChainIds(fams[fid]);
    var y, j := Locate(db, fams, id);
    assert y == fid ==> ids[j] == id;
    if i :| 0 <= i < |ids| && ids[i] == id {
      assert FamilyStored(db, fid, fams[fid]) && InChain(fams[fid], i);
    }
  }

  lemma ChainIdsIsChain(db: Store, fams: Families, fid: Id)
    requires Represents(db, fams) && fid in fams
    ensures IsChain(db, fid, ChainIds(fams[fid]))
  {
    var f := fams[fid];
    var ids := ChainIds(f);
    forall id | id in db ensures id in ids <==> db[id].familyId == Some(fid) {
      ChainIdsAreFamily(db, fams, fid, id);
    }
    forall i | 0 <= i < |ids| ensures Linked(db, ids, i) {
      assert FamilyStored(db, fid, f) && InChain(f, i);
      assert db[f.chain[i].id] == RowOf(fid, f, i);
    }
    forall i, j | 0 <= i < j < |ids| ensures ids[i] != ids[j] {
      assert FamilyShape(fid, f) && InChain(f, i) && InChain(f, j);
    }
  }

  lemma FamilyIsChain(cfg: Config, s: State, id: Id)
    requires Reachable(cfg, s) && id in s.db
    ensures s.db[id].familyId.Some? && exists ids :: IsChain(s.db, s.db[id].familyId.value, ids)
  {
    var fams := ReachableInv(cfg, s);
    var fid, _ := Locate(s.db, fams, id);
    ChainIdsIsChain(s.db, fams, fid);
  }

  /** The access token that `validate` accepts at this moment. */
  ghost predicate Accepts(s: State, id: Id) {
    id in s.db && s.db[id].revokedAt.None? && s.db[id].replacedBy.None? && s.now < s.db[id].expiresAt
  }

  lemma OneHeadPerFamily(cfg: Config, s: State, a: Id, b: Id)
    requires Reachable(cfg, s) && SameFamily(s.db, a, b) && s.db[a].replacedBy.None? && s.db[b].replacedBy.None?
    ensures a == b
  {
    FamilyIsChain(cfg, s, a);
    var ids :| IsChain(s.db, s.db[a].familyId.value, ids);
    assert a in ids && b in ids;
    var i, j :| 0 <= i < |ids| && ids[i] == a && 0 <= j < |ids| && ids[j] == b;
    assert Linked(s.db, ids, i) && Linked(s.db, ids, j);
  }

  /** At most one access token of a family is accepted at any time. */
  lemma OneLiveAccessToken(cfg: Config, s: State, a: Id, b: Id)
    requires Reachable(cfg, s) && SameFamily(s.db, a, b) && Accepts(s, a) && Accepts(s, b)
    ensures a == b && s.db[a].tokenHash == s.db[b].tokenHash
  {
    OneHeadPerFamily(cfg, s, a, b);
  }

  lemma ClaimsAreInherited(cfg: Config, s: State, a: Id, b: Id)
    requires Reachable(cfg, s) && SameFamily(s.db, a, b)
    ensures ClaimsOf(s.db[a]) == ClaimsOf(s.db[b])
  {
    var fams := ReachableInv(cfg, s);
    var fa, i := Locate(s.db, fams, a);
    var fb, j := Locate(s.db, fams, b);
  }

  // ---------- Revocation ----------

  lemma RevocationIsWhole(cfg: Config, s: State, a: Id, b: Id)
    requires Reachable(cfg, s) && SameFamily(s.db, a, b)
    ensures s.db[a].revokedAt == s.db[b].revokedAt
  {
    var fams := ReachableInv(cfg, s);
    var fa, i := Locate(s.db, fams, a);
    var fb, j := Locate(s.db, fams, b);
  }

  /** Every row of the family is revoked, and nothing of it has changed or been added since `db`. */
  ghost predicate Frozen(db: Store, db': Store, fid: Id) {
    && (forall id | id in db && db[id].familyId == Some(fid) :: id in db')
    && (forall id | id in db' && db'[id].familyId == Some(fid) ::
          id in db && db'[id] == db[id] && db[id].revokedAt.Some?)
  }

  ghost predicate AllRevoked(db: Store, fid: Id) {
    && fid in db && db[fid].familyId == Some(fid)
    && forall id | id in db && db[id].familyId == Some(fid) :: db[id].revokedAt.Some?
  }

  lemma InsertFreezes(db: Store, draft: Session, id: Id, fid: Id)
    requires AllRevoked(db, fid) && id !in db && draft.familyId != Some(fid)
    ensures Frozen(db, Insert(db, draft, id), fid)
  {
  }

  lemma ReplaceFreezes(s: State, snap: Session, draft: Session, id: Id, fid: Id)
    requires AllRevoked(s.db, fid) && id !in s.db && Replaceable(s.db, s.now, snap) && SnapOf(s.db, snap)
    requires draft.familyId == snap.familyId
    ensures Frozen(s.db, Replace(s.db, snap, draft, id), fid)
  {
    assert s.db[snap.id.value].familyId != Some(fid);
    InsertFreezes(s.db, draft, id, fid);
  }

  lemma FrozenStep(cfg: Config, s: State, a: Action, fid: Id)
    requires CallsOk(s) && Enabled(s, a) && AllRevoked(s.db, fid)
    ensures Frozen(s.db, Next(cfg, s, a).db, fid)
  {
    if a.Advance? {
      assert CallOk(s, s.calls[a.c]);
      match s.calls[a.c].pc
      case IssueInsert(creds) => InsertFreezes(s.db, creds.session, a.choice.id, fid);
      case RefreshReplace(_, snap, creds) =>
        if Replaceable(s.db, s.now, snap) { ReplaceFreezes(s, snap, creds.session, a.choice.id, fid); }
      case _ =>
    }
  }

  /** A revoked family stays exactly as it is: no later step, in flight or not, adds, revives or touches a row. */
  lemma {:induction false} RevocationIsFinal(cfg: Config, s: State, acts: seq<Action>, id: Id)
    requires Reachable(cfg, s) && Legal(cfg, s, acts) && id in s.db && s.db[id].revokedAt.Some?
    ensures s.db[id].familyId.Some? && Frozen(s.db, Exec(cfg, s, acts).db, s.db[id].familyId.value)
  {
    var fams := ReachableInv(cfg, s);
    var fid, _ := Locate(s.db, fams, id);
    forall x | x in s.db && s.db[x].familyId == Some(fid) ensures s.db[x].revokedAt.Some? {
      RevocationIsWhole(cfg, s, id, x);
    }
    if acts != [] {
      var front := acts[..|acts|-1];
      RevocationIsFinal(cfg, s, front, id);
      RunInv(cfg, s, fams, front);
      RunEvolves(cfg, s, fams, front);
      var m := Exec(cfg, s, front);
      assert fid in m.db && m.db[fid] == s.db[fid];
      FrozenStep(cfg, m, acts[|acts|-1], fid);
    }
  }

  /** The token a call was given. */
  ghost function Presented(request: Request): Option<TokenHash> {
    match request
    case Issue(_, _) => None
    case Validate(t) => Some(Hash(t))
    case Refresh(t, _) => Some(Hash(t))
    case Revoke(t) => Some(Hash(t))
  }

  ghost predicate HeldBy(db: Store, h: Option<TokenHash>, id: Id) {
    h.Some? && id in db && h.value in Hashes(db[id])
  }

  ghost predicate HeldInFamily(db: Store, h: Option<TokenHash>, fid: Option<Id>) {
    exists id :: HeldBy(db, h, id) && db[id].familyId == fid
  }

  lemma RevokeTouchesFamily(s: State, call: Call, id: Id)
    requires CallOk(s, call) && call.pc.RevokeRows? && id in s.db
    ensures RevokeFamily(s.db, call.pc.session)[id] == s.db[id]
      || HeldInFamily(s.db, Presented(call.request), s.db[id].familyId)
  {
    assert HeldBy(s.db, Presented(call.request), call.pc.session.id.value);
  }

  lemma ReplaceTouchesFamily(s: State, call: Call, newId: Id, id: Id)
    requires CallOk(s, call) && call.pc.RefreshReplace? && Replaceable(s.db, s.now, call.pc.session)
    requires id in s.db && newId !in s.db
    ensures Replace(s.db, call.pc.session, call.pc.credentials.session, newId)[id] == s.db[id]
      || HeldInFamily(s.db, Presented(call.request), s.db[id].familyId)
  {
    assert HeldBy(s.db, Presented(call.request), call.pc.session.id.value);
  }

  /** A call changes stored rows only in the family that its own token belongs to. */
  lemma OtherFamiliesUntouched(cfg: Config, s: State, a: Action, id: Id)
    requires Reachable(cfg, s) && Enabled(s, a) && id in s.db
    ensures id in Next(cfg, s, a).db
    ensures Next(cfg, s, a).db[id] == s.db[id]
      || (a.Advance? && HeldInFamily(s.db, Presented(s.calls[a.c].request), s.db[id].familyId))
  {
    var fams := ReachableInv(cfg, s);
    if a.Advance? {
      assert CallOk(s, s.calls[a.c]);
      StepTouchesFamily(s, a.c, a.choice, id);
    }
  }

  lemma StepTouchesFamily(s: State, c: CallId, choice: Choice, id: Id)
    requires Enabled(s, Advance(c, choice)) && CallOk(s, s.calls[c]) && id in s.db
    ensures id in NextDb(s, c, choice)
    ensures NextDb(s, c, choice)[id] == s.db[id] || HeldInFamily(s.db, Presented(s.calls[c].request), s.db[id].familyId)
  {
    var call := s.calls[c];
    if call.pc.RevokeRows? {
      RevokeTouchesFamily(s, call, id);
    } else if call.pc.RefreshReplace? && Replaceable(s.db, s.now, call.pc.session) {
      ReplaceTouchesFamily(s, call, choice.id, id);
    }
  }

  // ---------- The absolute deadline ----------

  /** Every generation is capped by the deadline fixed at the first issuance. */
  lemma DeadlineCapsEveryGeneration(cfg: Config, s: State, id: Id)
    requires Reachable(cfg, s) && id in s.db
    ensures s.db[id].familyId.Some? && s.db[id].familyId.value in s.db
    ensures var root := s.db[s.db[id].familyId.value];
      root.refreshExpiresAt.Some? ==>
        && s.db[id].expiresAt <= root.refreshExpiresAt.value
        && (s.db[id].refreshExpiresAt == root.refreshExpiresAt || (s.db[id].refreshHash.None? && s.db[id].replacedBy.None?))
        && (root.refreshExpiresAt.value <= s.now ==> !Accepts(s, id) && !Replaceable(s.db, s.now, s.db[id]))
    ensures var root := s.db[s.db[id].familyId.value];
      root.refreshExpiresAt.None? ==> root == s.db[id]
  {
    var fams := ReachableInv(cfg, s);
    var fid, i := Locate(s.db, fams, id);
    var f := fams[fid];
    assert InChain(f, i) && InChain(f, 0);
  }

  // ---------- Lifetimes ----------

  /** Expiry lies at most one access lifetime, and the deadline at most one refresh lifetime, ahead of the clock. */
  ghost predicate WithinLifetimes(cfg: Config, now: int, session: Session) {
    && session.expiresAt <= now + cfg.lifetime
    && (session.refreshExpiresAt.Some? ==> session.refreshExpiresAt.value <= now + cfg.refreshLifetime)
  }

  ghost predicate LifetimesOk(cfg: Config, s: State) {
    && (forall id | id in s.db :: WithinLifetimes(cfg, s.now, s.db[id]))
    && (forall c | c in s.calls && InFlight(s.calls[c].pc).Some? :: WithinLifetimes(cfg, s.now, InFlight(s.calls[c].pc).value))
  }

  /** A session just created is within its lifetimes, inheriting its deadline from a row that is. */
  lemma CreatedWithinLifetimes(cfg: Config, s: State, c: CallId, choice: Choice)
    requires Enabled(s, Advance(c, choice)) && CallOk(s, s.calls[c]) && LifetimesOk(cfg, s)
    requires s.calls[c].pc.IssueCreate? || s.calls[c].pc.RefreshCreate?
    ensures InFlight(NextPc(cfg, s, c, choice)).Some?
    ensures WithinLifetimes(cfg, s.now, InFlight(NextPc(cfg, s, c, choice)).value)
  {
    if s.calls[c].pc.RefreshCreate? {
      assert WithinLifetimes(cfg, s.now, s.db[s.calls[c].pc.session.id.value]);
    }
  }

  lemma RowsWithinLifetimes(cfg: Config, s: State, c: CallId, choice: Choice, id: Id)
    requires Enabled(s, Advance(c, choice)) && CallOk(s, s.calls[c]) && LifetimesOk(cfg, s)
    requires Evolves(s.db, NextDb(s, c, choice)) && id in NextDb(s, c, choice)
    ensures WithinLifetimes(cfg, s.now, NextDb(s, c, choice)[id])
  {
    if id in s.db {
      assert RowEvolves(s.db[id], NextDb(s, c, choice)[id]);
      assert WithinLifetimes(cfg, s.now, s.db[id]);
    }
  }

  lemma AdvanceLifetimesOk(cfg: Config, s: State, c: CallId, choice: Choice)
    requires Enabled(s, Advance(c, choice)) && CallsOk(s) && LifetimesOk(cfg, s)
    ensures LifetimesOk(cfg, Next(cfg, s, Advance(c, choice)))
  {
    var s' := Next(cfg, s, Advance(c, choice));
    assert CallOk(s, s.calls[c]);
    NextEvolves(cfg, s, Advance(c, choice));
    forall id | id in s'.db ensures WithinLifetimes(cfg, s'.now, s'.db[id]) {
      RowsWithinLifetimes(cfg, s, c, choice, id);
    }
    StepFootprint(cfg, s, c, choice);
    if s.calls[c].pc.IssueCreate? || s.calls[c].pc.RefreshCreate? {
      CreatedWithinLifetimes(cfg, s, c, choice);
    }
  }

  lemma NextLifetimesOk(cfg: Config, s: State, a: Action)
    requires Enabled(s, a) && CallsOk(s) && LifetimesOk(cfg, s)
    ensures LifetimesOk(cfg, Next(cfg, s, a))
  {
    match a
    case Advance(c, choice) => AdvanceLifetimesOk(cfg, s, c, choice);
    case Begin(c, request) => assert InFlight(FirstPc(request)).None?;
    case Tick(_) =>
  }

  lemma {:induction false} RunLifetimesOk(cfg: Config, s: State, fams: Families, acts: seq<Action>)
    requires Inv(s, fams) && LifetimesOk(cfg, s) && Legal(cfg, s, acts)
    ensures LifetimesOk(cfg, Exec(cfg, s, acts))
  {
    if acts != [] {
      var front := acts[..|acts|-1];
      RunLifetimesOk(cfg, s, fams, front);
      RunInv(cfg, s, fams, front);
      NextLifetimesOk(cfg, Exec(cfg, s, front), acts[|acts|-1]);
    }
  }

  /** No stored session ever outlives the configured lifetimes, counted from now. */
  lemma NothingOutlivesLifetimes(cfg: Config, s: State, id: Id)
    requires Reachable(cfg, s) && id in s.db
    ensures s.db[id].expiresAt <= s.now + cfg.lifetime
    ensures s.db[id].refreshExpiresAt.Some? ==> s.db[id].refreshExpiresAt.value <= s.now + cfg.refreshLifetime
  {
    var start, acts :| Legal(cfg, Init(start), acts) && s == Exec(cfg, Init(start), acts);
    RunLifetimesOk(cfg, Init(start), map[], acts);
    assert WithinLifetimes(cfg, s.now, s.db[id]);
  }

  // ---------- No fall-through after a rejected replacement ----------

  /** The second validation of a rejected refresh always raises. */
  lemma FallbackIsUnreachable(cfg: Config, s: State, c: CallId)
    requires Reachable(cfg, s) && c in s.calls
    ensures !s.calls[c].pc.RefreshFallback?
  {
    var fams := ReachableInv(cfg, s);
    assert CallOk(s, s.calls[c]);
  }
}
