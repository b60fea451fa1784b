/**
 The service itself, statement by statement, with other calls running at every
 await. Each method is proved to be one call of the step machine: whatever the
 other calls do meanwhile, what it leaves behind is a legal run in which this
 call went from its begin to the outcome the method returns.
 */
module IdentityService {
  import opened Wrappers
  import opened Tokens
  import opened IdentityMachine
  import opened IdentityFamilies
  import opened IdentityInvariant
  import opened IdentityRuns
  import opened IdentityAtomic
  import opened IdentityLinear
  import opened IdentityLifetimes

  /** Steps before `n`, where the call does not exist yet, are not its own. */
  lemma {:induction false} OwnStepsFollow(cfg: Config, start: int, acts: seq<Action>, n: nat, c: CallId, k: int)
    requires Legal(cfg, Init(start), acts) && n <= |acts| && c !in At(cfg, start, acts, n).calls && Own(acts, c, k)
    ensures n <= k
    decreases n
  {
    if 0 < n {
      LegalPrefix(cfg, Init(start), acts, n);
      assert acts[..n][..n - 1] == acts[..n - 1];
      OwnStepsFollow(cfg, start, acts, n - 1, c, k);
    }
  }

  class IdentitySessionService {
    const cfg: Config
    var db: Store
    var now: int
    var calls: map<CallId, Call>
    var drawn: set<Token>
    /** What the other calls and the clock do at this service's next awaits. */
    var schedule: seq<seq<Action>>

    ghost const start: int
    ghost var history: seq<Action>

    function Current(): State
      reads this
    {
      State(db, now, calls, drawn)
    }

    /** The object's state is where its history leads. */
    ghost predicate Valid()
      reads this
    {
      Legal(cfg, Init(start), history) && Exec(cfg, Init(start), history) == Current()
    }

    constructor (cfg: Config, now: int, schedule: seq<seq<Action>>)
      ensures Valid() && history == [] && Current() == Init(now) && this.cfg == cfg
    {
      this.cfg, this.now, this.schedule, start := cfg, now, schedule, now;
      db, calls, drawn, history := map[], map[], {}, [];
    }

    // ---------- Bookkeeping ----------

    /** The call is entered in the table of calls. */
    method BeginCall(c: CallId, request: Request)
      requires Valid() && c !in calls
      modifies this`calls, this`history
      ensures Valid() && history == old(history) + [Begin(c, request)]
      ensures c in calls && calls[c] == Call(request, FirstPc(request))
    {
      ExecSnoc(cfg, Init(start), history, Begin(c, request));
      calls := calls[c := Call(request, FirstPc(request))];
      history := history + [Begin(c, request)];
    }

    /** The code has taken the step from state `s` that the machine takes, and stands at `pc` now. */
    method Moved(c: CallId, choice: Choice, pc: Pc, ghost s: State)
      requires Legal(cfg, Init(start), history) && Exec(cfg, Init(start), history) == s
      requires Enabled(s, Advance(c, choice)) && pc == NextPc(cfg, s, c, choice) && db == NextDb(s, c, choice)
      requires now == s.now && calls == s.calls && drawn == s.drawn
      modifies this`calls, this`drawn, this`history
      ensures Valid() && history == old(history) + [Advance(c, choice)]
      ensures c in calls && c in old(calls) && calls[c] == old(calls)[c].(pc := pc)
    {
      ExecSnoc(cfg, Init(start), history, Advance(c, choice));
      calls := calls[c := calls[c].(pc := pc)];
      drawn := drawn + DrawnBy(choice);
      history := history + [Advance(c, choice)];
    }

    /** Other calls run; this one stays where it is. */
    method Await(c: CallId)
      requires Valid() && c in calls
      modifies this
      ensures Valid() && old(history) <= history
      ensures c in calls && calls[c] == old(calls)[c]
    {
      if schedule == [] { return; }
      var acts := schedule[0];
      schedule := schedule[1..];
      for i := 0 to |acts|
        invariant Valid() && old(history) <= history
        invariant c in calls && calls[c] == old(calls)[c]
      {
        var a := acts[i];
        if !(a.Advance? && a.c == c) && Enabled(Current(), a) {
          ExecSnoc(cfg, Init(start), history, a);
          var s := Next(cfg, Current(), a);
          db, now, calls, drawn := s.db, s.now, s.calls, s.drawn;
          history := history + [a];
        }
      }
    }

    // ---------- The store ----------

    method GetByTokenHash(h: TokenHash) returns (session: Option<Session>, row: Option<Id>)
      ensures FindsAccess(db, h, row) && session == RowAt(db, row)
    {
      var rest := db.Keys;
      while rest != {}
        invariant rest <= db.Keys && forall id | id in db && id !in rest :: !HasAccess(db[id], h)
      {
        var id :| id in rest;
        if db[id].tokenHash == h { return Some(db[id]), Some(id); }
        rest := rest - {id};
      }
      return None, None;
    }

    method GetByRefreshTokenHash(h: TokenHash) returns (session: Option<Session>, row: Option<Id>)
      ensures FindsRefresh(db, h, row) && session == RowAt(db, row)
    {
      var rest := db.Keys;
      while rest != {}
        invariant rest <= db.Keys && forall id | id in db && id !in rest :: !HasRefresh(db[id], h)
      {
        var id :| id in rest;
        if db[id].refreshHash == Some(h) { return Some(db[id]), Some(id); }
        rest := rest - {id};
      }
      return None, None;
    }

    /** Some id that no row has. */
    method GenerateId() returns (id: Id)
      ensures id !in db
    {
      id := 0;
      var rest := db.Keys;
      while rest != {}
        invariant forall x | x in db && x !in rest :: x < id
      {
        var x :| x in rest;
        if id <= x { id := x + 1; }
        rest := rest - {x};
      }
    }

    /** Some encodable token longer than every one drawn before. */
    method GenerateToken(other: Option<Token>) returns (token: Token)
      ensures Encodable(token) && token !in drawn && other != Some(token)
    {
      token := if other.Some? then [0] + seq(|other.value|, _ => 0) else [0];
      var rest := drawn;
      while rest != {}
        invariant Encodable(token) && forall t | t in drawn && t !in rest :: |t| < |token|
        invariant other.Some? ==> |other.value| < |token|
      {
        var t :| t in rest;
        if |token| <= |t| { token := seq(|t| + 1, _ => 0); }
        rest := rest - {t};
      }
    }

    // ---------- Private helpers ----------

    method NewSession(now: int, claims: Claims, inherited: Option<int>, familyId: Option<Id>, token: Token, refresh: Option<Token>)
      returns (session: Session)
      ensures session == CreateSession(cfg, now, claims, inherited, familyId, token, refresh)
    {
      var refreshHash, refreshExpiresAt := None, inherited;
      if refresh.Some? {
        refreshHash := Some(Hash(refresh.value));
        if refreshExpiresAt.None? { refreshExpiresAt := Some(now + cfg.refreshLifetime); }
      }
      var expiresAt := now + cfg.lifetime;
      if refreshExpiresAt.Some? && refreshExpiresAt.value < expiresAt { expiresAt := refreshExpiresAt.value; }
      session := Session(None, Hash(token), expiresAt, claims.identity, claims.amr, CopyContext(claims.context),
                         refreshHash, if refresh.Some? then refreshExpiresAt else None, familyId, None, None);
    }

    /** Draws the tokens and builds the unsaved session, at the step where the call is to create it. */
    method CreateCredentials(c: CallId, claims: Claims, want: bool, inherited: Option<int>, familyId: Option<Id>)
      returns (creds: Credentials)
      requires Valid() && c in calls
      requires match calls[c]
        case Call(Issue(cl, w), IssueCreate) => cl == claims && w == want && inherited.None? && familyId.None?
        case Call(Refresh(_, w), RefreshCreate(_, snap)) =>
          w == want && ClaimsOf(snap) == claims && inherited == snap.refreshExpiresAt && familyId == snap.familyId
        case _ => false
      modifies this`calls, this`drawn, this`history
      ensures Valid() && old(history) <= history
      ensures c in calls && calls[c] == old(calls)[c].(pc :=
        if old(calls)[c].pc.IssueCreate? then IssueInsert(creds)
        else RefreshReplace(old(calls)[c].pc.h, old(calls)[c].pc.session, creds))
    {
      var token := GenerateToken(None);
      var refresh: Option<Token> := None;
      if want {
        var r := GenerateToken(Some(token));
        refresh := Some(r);
      }
      var session := NewSession(now, claims, inherited, familyId, token, refresh);
      creds := Credentials(token, refresh, session);
      if calls[c].pc.IssueCreate? {
        Moved(c, Draw(token, refresh), IssueInsert(creds), Current());
      } else {
        Moved(c, Draw(token, refresh), RefreshReplace(calls[c].pc.h, calls[c].pc.session, creds), Current());
      }
    }

    /** Stamps the looked-up session with the clock, then revokes its family. */
    method RevokeFamilyOf(c: CallId, session: Session, outcome: Outcome)
      requires Valid() && c in calls && calls[c].pc == Stamp(session, outcome)
      modifies this
      ensures Valid() && old(history) <= history
      ensures c in calls && calls[c] == old(calls)[c].(pc := Done(outcome))
    {
      Await(c);
      var stamped := session.(revokedAt := Some(now));
      Moved(c, Nothing, RevokeRows(stamped, outcome), Current());
      RevokeStored(c, stamped, outcome);
    }

    /** The store's atomic revocation. */
    method RevokeStored(c: CallId, stamped: Session, outcome: Outcome)
      requires Valid() && c in calls && calls[c].pc == RevokeRows(stamped, outcome)
      modifies this
      ensures Valid() && old(history) <= history
      ensures c in calls && calls[c] == old(calls)[c].(pc := Done(outcome))
    {
      Await(c);
      ghost var before := Current();
      db := map id | id in db ::
        if db[id].familyId == stamped.familyId && db[id].revokedAt.None? then db[id].(revokedAt := stamped.revokedAt) else db[id];
      assert db == RevokeFamily(before.db, stamped);
      Moved(c, Nothing, Done(outcome), before);
    }

    method ValidateRefreshTokenHash(c: CallId, h: TokenHash, again: bool) returns (r: Result<Session, Outcome>)
      requires Valid() && c in calls && calls[c].pc == RefreshLookup(h, again)
      modifies this
      ensures Valid() && old(history) <= history && c in calls
      ensures calls[c] == old(calls)[c].(pc :=
        match r
        case Err(outcome) => Done(outcome)
        case Ok(session) => if again then RefreshFallback else RefreshCreate(h, session))
    {
      Await(c);
      var session, row := GetByRefreshTokenHash(h);
      if session.None? || session.value.revokedAt.Some? {
        Moved(c, Found(row), Done(InvalidRefreshToken), Current());
        return Err(InvalidRefreshToken);
      }
      if session.value.replacedBy.Some? {
        Moved(c, Found(row), Stamp(session.value, ReusedRefreshToken), Current());
        RevokeFamilyOf(c, session.value, ReusedRefreshToken);
        return Err(ReusedRefreshToken);
      }
      if session.value.refreshExpiresAt.None? {
        Moved(c, Found(row), Done(InvalidRefreshToken), Current());
        return Err(InvalidRefreshToken);
      }
      Moved(c, Found(row), RefreshCheck(h, session.value, again), Current());
      r := CheckDeadline(c, h, session.value, again);
    }

    /** The last check of a refresh token's row, on a later reading of the clock. */
    method CheckDeadline(c: CallId, h: TokenHash, session: Session, again: bool) returns (r: Result<Session, Outcome>)
      requires Valid() && c in calls && calls[c].pc == RefreshCheck(h, session, again) && session.refreshExpiresAt.Some?
      modifies this
      ensures Valid() && old(history) <= history && c in calls
      ensures calls[c] == old(calls)[c].(pc :=
        match r
        case Err(outcome) => Done(outcome)
        case Ok(s) => if again then RefreshFallback else RefreshCreate(h, s))
    {
      Await(c);
      if now >= session.refreshExpiresAt.value {
        Moved(c, Nothing, Done(ExpiredRefreshToken), Current());
        return Err(ExpiredRefreshToken);
      }
      Moved(c, Nothing, if again then RefreshFallback else RefreshCreate(h, session), Current());
      return Ok(session);
    }

    /** The store's atomic replacement. */
    method ReplaceSession(c: CallId, h: TokenHash, previous: Session, creds: Credentials) returns (id: Option<Id>)
      requires Valid() && c in calls && calls[c].pc == RefreshReplace(h, previous, creds)
      modifies this
      ensures Valid() && old(history) <= history && c in calls
      ensures calls[c] == old(calls)[c].(pc :=
        if id.Some? then Done(Issued(creds.(session := creds.session.(id := id)))) else RefreshLookup(h, true))
    {
      ghost var before := Current();
      var newId := GenerateId();
      if Replaceable(db, now, previous) {
        var p := previous.id.value;
        db := db[newId := Stored(creds.session, newId)];
        db := db[p := db[p].(replacedBy := Some(newId))];
        id := Some(newId);
        assert db == Replace(before.db, previous, creds.session, newId);
        Moved(c, NewId(newId), Done(Issued(creds.(session := creds.session.(id := id)))), before);
      } else {
        id := None;
        Moved(c, NewId(newId), RefreshLookup(h, true), before);
      }
    }

    // ---------- The public calls ----------

    /** So everything proved of reachable states holds of the service between any two of its calls. */
    lemma StatesAreReachable()
      requires Valid()
      ensures Reachable(cfg, Current())
    {
      assert Legal(cfg, Init(start), history);
    }

    /**
     The call ran as one call of the machine and took effect at one of its own
     steps, as an atomic call would; credentials it hands out it created, with
     the lifetimes they promise, at one of its own steps.
     */
    ghost predicate RanAs(before: seq<Action>, c: CallId, request: Request, outcome: Outcome)
      reads this
    {
      && Valid() && before <= history && c in calls && calls[c] == Call(request, Done(outcome))
      && (exists k :: |before| <= k && TakesEffect(cfg, start, history, c, k, request, outcome))
      && (outcome.Issued? ==> exists k, from :: |before| <= k && CreatedAt(cfg, start, history, c, k, request, from, outcome.credentials))
    }

    lemma Ran(before: seq<Action>, c: CallId, request: Request, outcome: Outcome)
      requires Valid() && before <= history && c in calls && calls[c] == Call(request, Done(outcome))
      requires Legal(cfg, Init(start), before) && c !in Exec(cfg, Init(start), before).calls
      ensures RanAs(before, c, request, outcome)
    {
      FinishedCallsAreAtomic(cfg, start, history, c);
      var k :| TakesEffect(cfg, start, history, c, k, request, outcome);
      assert history[..|before|] == before;
      OwnStepsFollow(cfg, start, history, |before|, c, k);
      if outcome.Issued? { HandedOutWasCreated(before, c, request, outcome.credentials); }
    }

    lemma HandedOutWasCreated(before: seq<Action>, c: CallId, request: Request, creds: Credentials)
      requires Valid() && before <= history && c in calls && calls[c] == Call(request, Done(Issued(creds)))
      requires Legal(cfg, Init(start), before) && c !in Exec(cfg, Init(start), before).calls
      ensures exists k, from :: |before| <= k && CreatedAt(cfg, start, history, c, k, request, from, creds)
    {
      CredentialsKeepPromises(cfg, start, history, c);
      var from :| Created(cfg, start, history, c, request, from, creds);
      var k :| CreatedAt(cfg, start, history, c, k, request, from, creds);
      assert history[..|before|] == before;
      OwnStepsFollow(cfg, start, history, |before|, c, k);
    }

    method Issue(c: CallId, claims: Claims, wantRefresh: bool) returns (outcome: Outcome)
      requires Valid() && c !in calls
      modifies this
      ensures RanAs(old(history), c, Request.Issue(claims, wantRefresh), outcome)
    {
      BeginCall(c, Request.Issue(claims, wantRefresh));
      Await(c);
      var creds := CreateCredentials(c, claims, wantRefresh, None, None);
      outcome := InsertSession(c, creds);
      Ran(old(history), c, Request.Issue(claims, wantRefresh), outcome);
    }

    /** The store's atomic insertion of a first session, which becomes the root of its own family. */
    method InsertSession(c: CallId, creds: Credentials) returns (outcome: Outcome)
      requires Valid() && c in calls && calls[c].pc == IssueInsert(creds)
      modifies this
      ensures Valid() && old(history) <= history
      ensures c in calls && calls[c] == old(calls)[c].(pc := Done(outcome))
    {
      Await(c);
      ghost var before := Current();
      var id := GenerateId();
      db := db[id := Stored(creds.session, id)];
      var session := creds.session.(id := Some(id));
      session := session.(familyId := session.id);
      outcome := Issued(creds.(session := session));
      Moved(c, NewId(id), Done(outcome), before);
    }

    method CheckAccess(c: CallId, h: TokenHash) returns (outcome: Outcome)
      requires Valid() && c in calls && calls[c].pc == ValidateLookup(h)
      modifies this
      ensures Valid() && old(history) <= history
      ensures c in calls && calls[c] == old(calls)[c].(pc := Done(outcome))
    {
      Await(c);
      var session, row := GetByTokenHash(h);
      if session.None? || session.value.revokedAt.Some? || session.value.replacedBy.Some? {
        outcome := InvalidSessionToken;
        Moved(c, Found(row), Done(outcome), Current());
      } else {
        Moved(c, Found(row), ValidateCheck(session.value), Current());
        outcome := CheckExpiry(c, session.value);
      }
    }

    method CheckExpiry(c: CallId, session: Session) returns (outcome: Outcome)
      requires Valid() && c in calls && calls[c].pc == ValidateCheck(session)
      modifies this
      ensures Valid() && old(history) <= history
      ensures c in calls && calls[c] == old(calls)[c].(pc := Done(outcome))
    {
      Await(c);
      outcome := if now >= session.expiresAt then ExpiredSession else Validated(session);
      Moved(c, Nothing, Done(outcome), Current());
    }

    method Validate(c: CallId, token: Token) returns (outcome: Outcome)
      requires Valid() && c !in calls
      modifies this
      ensures RanAs(old(history), c, Request.Validate(token), outcome)
    {
      BeginCall(c, Request.Validate(token));
      var hash := GetTokenHash(token);
      if hash.None? {
        outcome := InvalidSessionToken;
      } else {
        outcome := CheckAccess(c, hash.value);
      }
      Ran(old(history), c, Request.Validate(token), outcome);
    }

    method Refresh(c: CallId, token: Token, wantRefresh: bool) returns (outcome: Outcome)
      requires Valid() && c !in calls
      modifies this
      ensures RanAs(old(history), c, Request.Refresh(token, wantRefresh), outcome)
    {
      BeginCall(c, Request.Refresh(token, wantRefresh));
      var hash := GetTokenHash(token);
      if hash.None? {
        outcome := InvalidRefreshToken;
      } else {
        outcome := Rotate(c, hash.value);
      }
      Ran(old(history), c, Request.Refresh(token, wantRefresh), outcome);
    }

    method Rotate(c: CallId, h: TokenHash) returns (outcome: Outcome)
      requires Valid() && c in calls && calls[c].pc == RefreshLookup(h, false) && calls[c].request.Refresh?
      modifies this
      ensures Valid() && old(history) <= history
      ensures c in calls && calls[c] == old(calls)[c].(pc := Done(outcome))
    {
      var checked := ValidateRefreshTokenHash(c, h, false);
      if checked.Err? { return checked.error; }
      outcome := Exchange(c, h, checked.value);
    }

    /** A validated session is replaced, or its token validated again to say why not. */
    method Exchange(c: CallId, h: TokenHash, previous: Session) returns (outcome: Outcome)
      requires Valid() && c in calls && calls[c].pc == RefreshCreate(h, previous) && calls[c].request.Refresh?
      modifies this
      ensures Valid() && old(history) <= history
      ensures c in calls && calls[c] == old(calls)[c].(pc := Done(outcome))
    {
      Await(c);
      var creds := CreateCredentials(c, ClaimsOf(previous), calls[c].request.wantRefresh, previous.refreshExpiresAt, previous.familyId);
      Await(c);
      var id := ReplaceSession(c, h, previous, creds);
      if id.Some? { return Issued(creds.(session := creds.session.(id := id))); }
      var again := ValidateRefreshTokenHash(c, h, true);
      if again.Err? { return again.error; }
      outcome := InvalidRefreshToken;
      Moved(c, Nothing, Done(outcome), Current());
    }

    /** The session of an access token or else of a refresh token. */
    method FindByEitherHash(c: CallId, h: TokenHash) returns (session: Option<Session>)
      requires Valid() && c in calls && calls[c].pc == RevokeLookupAccess(h)
      modifies this
      ensures Valid() && old(history) <= history && c in calls
      ensures calls[c] == old(calls)[c].(pc := if session.Some? then Stamp(session.value, Revoked) else Done(Revoked))
    {
      Await(c);
      var row;
      session, row := GetByTokenHash(h);
      if session.Some? {
        Moved(c, Found(row), Stamp(session.value, Revoked), Current());
      } else {
        Moved(c, Found(row), RevokeLookupRefresh(h), Current());
        session := FindByRefreshHash(c, h);
      }
    }

    method FindByRefreshHash(c: CallId, h: TokenHash) returns (session: Option<Session>)
      requires Valid() && c in calls && calls[c].pc == RevokeLookupRefresh(h)
      modifies this
      ensures Valid() && old(history) <= history && c in calls
      ensures calls[c] == old(calls)[c].(pc := if session.Some? then Stamp(session.value, Revoked) else Done(Revoked))
    {
      Await(c);
      var row;
      session, row := GetByRefreshTokenHash(h);
      Moved(c, Found(row), if session.Some? then Stamp(session.value, Revoked) else Done(Revoked), Current());
    }

    method Revoke(c: CallId, token: Token) returns (outcome: Outcome)
      requires Valid() && c !in calls
      modifies this
      ensures RanAs(old(history), c, Request.Revoke(token), outcome) && outcome == Revoked
    {
      outcome := Revoked;
      BeginCall(c, Request.Revoke(token));
      var hash := GetTokenHash(token);
      if hash.Some? {
        var session := FindByEitherHash(c, hash.value);
        if session.Some? {
          RevokeFamilyOf(c, session.value, Revoked);
        }
      }
      Ran(old(history), c, Request.Revoke(token), outcome);
    }
  }
}
