/**
 Identity sessions as a step machine.

 The store's operations are atomic, the calls of the service are not: a call
 reads the store, reads the clock and writes the store in separate steps, and
 the steps of any number of calls interleave. A state holds the rows, the
 clock, the calls with their program counters, and the tokens drawn so far.
 */
module IdentityMachine {
  import opened Wrappers
  import opened Tokens

  type Id = nat
  type CallId = nat
  type Context = map<string, string>

  /** Access and refresh lifetimes in seconds, of any sign. */
  datatype Config = Config(lifetime: int, refreshLifetime: int)

  datatype Session = Session(
    id: Option<Id>,
    tokenHash: TokenHash,
    expiresAt: int,
    identity: nat,
    amr: seq<string>,
    context: Option<Context>,
    refreshHash: Option<TokenHash>,
    refreshExpiresAt: Option<int>,
    familyId: Option<Id>,
    replacedBy: Option<Id>,
    revokedAt: Option<int>)

  type Store = map<Id, Session>

  // ---------- Creating a session ----------

  /** An empty context is stored as no context. */
  function CopyContext(context: Option<Context>): Option<Context> {
    if context.Some? && context.value != map[] then context else None
  }

  /** What a session inherits from its caller or its predecessor. */
  datatype Claims = Claims(identity: nat, amr: seq<string>, context: Option<Context>)

  /** The unsaved session of freshly drawn tokens; without a refresh token, renewal is disabled. */
  function CreateSession(cfg: Config, now: int, claims: Claims, inherited: Option<int>, familyId: Option<Id>,
                         token: Token, refresh: Option<Token>): Session
  {
    var deadline := if refresh.Some? && inherited.None? then Some(now + cfg.refreshLifetime) else inherited;
    var plain := now + cfg.lifetime;
    var expiresAt := if deadline.Some? && deadline.value < plain then deadline.value else plain;
    Session(None, Hash(token), expiresAt, claims.identity, claims.amr, CopyContext(claims.context),
            if refresh.Some? then Some(Hash(refresh.value)) else None,
            if refresh.Some? then deadline else None,
            familyId, None, None)
  }

  function ClaimsOf(session: Session): Claims {
    Claims(session.identity, session.amr, session.context)
  }

  // ---------- The store's atomic operations ----------

  predicate HasAccess(session: Session, h: TokenHash) { session.tokenHash == h }

  predicate HasRefresh(session: Session, h: TokenHash) { session.refreshHash == Some(h) }

  /** `row` is an answer to a lookup by access hash: a row that has it, or none when no row has it. */
  predicate FindsAccess(db: Store, h: TokenHash, row: Option<Id>) {
    match row
    case Some(id) => id in db && HasAccess(db[id], h)
    case None => forall id | id in db :: !HasAccess(db[id], h)
  }

  predicate FindsRefresh(db: Store, h: TokenHash, row: Option<Id>) {
    match row
    case Some(id) => id in db && HasRefresh(db[id], h)
    case None => forall id | id in db :: !HasRefresh(db[id], h)
  }

  /** The stored form of a new row; a first session becomes the root of its own family. */
  function Stored(draft: Session, id: Id): Session {
    draft.(id := Some(id), familyId := if draft.familyId.None? then Some(id) else draft.familyId)
  }

  function Insert(db: Store, draft: Session, id: Id): Store {
    db[id := Stored(draft, id)]
  }

  /** The checks that `replace` repeats under the family lock. */
  predicate Replaceable(db: Store, now: int, previous: Session) {
    && previous.id.Some? && previous.id.value in db
    && var row := db[previous.id.value];
    && row.refreshHash.Some? && row.refreshHash == previous.refreshHash
    && row.refreshExpiresAt.Some? && now < row.refreshExpiresAt.value
    && row.revokedAt.None? && row.replacedBy.None?
    && row.familyId.Some? && row.familyId.value in db
    && db[row.familyId.value].revokedAt.None?
  }

  function Replace(db: Store, previous: Session, draft: Session, id: Id): Store
    requires previous.id.Some? && previous.id.value in db
  {
    var p := previous.id.value;
    Insert(db, draft, id)[p := db[p].(replacedBy := Some(id))]
  }

  function RevokeRow(row: Session, session: Session): Session {
    if row.familyId == session.familyId && row.revokedAt.None? then row.(revokedAt := session.revokedAt) else row
  }

  function RevokeFamily(db: Store, session: Session): Store {
    map id | id in db :: RevokeRow(db[id], session)
  }

  // ---------- Calls ----------

  datatype Request =
    | Issue(claims: Claims, wantRefresh: bool)
    | Validate(token: Token)
    | Refresh(token: Token, wantRefresh: bool)
    | Revoke(token: Token)

  datatype Credentials = Credentials(token: Token, refresh: Option<Token>, session: Session)

  /** What a finished call returned or raised. */
  datatype Outcome =
    | Issued(credentials: Credentials)
    | Validated(session: Session)
    | Revoked
    | InvalidSessionToken
    | ExpiredSession
    | InvalidRefreshToken
    | ExpiredRefreshToken
    | ReusedRefreshToken

  /** Where a call stands, with the local values it still needs. */
  datatype Pc =
    | IssueCreate
    | IssueInsert(credentials: Credentials)
    | ValidateLookup(h: TokenHash)
    | ValidateCheck(session: Session)
    | RefreshLookup(h: TokenHash, again: bool)
    | RefreshCheck(h: TokenHash, session: Session, again: bool)
    | RefreshCreate(h: TokenHash, session: Session)
    | RefreshReplace(h: TokenHash, session: Session, credentials: Credentials)
    | RefreshFallback
    | RevokeLookupAccess(h: TokenHash)
    | RevokeLookupRefresh(h: TokenHash)
    | Stamp(session: Session, outcome: Outcome)
    | RevokeRows(session: Session, outcome: Outcome)
    | Done(outcome: Outcome)

  datatype Call = Call(request: Request, pc: Pc)

  datatype State = State(db: Store, now: int, calls: map<CallId, Call>, drawn: set<Token>)

  function Init(now: int): State { State(map[], now, map[], {}) }

  // ---------- Steps ----------

  /** What the environment decides in a step: a lookup's answer, random tokens, a new row's id. */
  datatype Choice =
    | Nothing
    | Found(row: Option<Id>)
    | Draw(token: Token, refresh: Option<Token>)
    | NewId(id: Id)

  datatype Action =
    | Begin(c: CallId, request: Request)
    | Advance(c: CallId, choice: Choice)
    | Tick(seconds: nat)

  /** Hashing the presented token comes before every store call; a token that has no hash ends the call. */
  function FirstPc(request: Request): Pc {
    match request
    case Issue(_, _) => IssueCreate
    case Validate(t) => if Encodable(t) then ValidateLookup(Hash(t)) else Done(InvalidSessionToken)
    case Refresh(t, _) => if Encodable(t) then RefreshLookup(Hash(t), false) else Done(InvalidRefreshToken)
    case Revoke(t) => if Encodable(t) then RevokeLookupAccess(Hash(t)) else Done(Revoked)
  }

  /** Random tokens are encodable and differ from each other and from every token drawn before. */
  predicate FreshDraw(s: State, choice: Choice, want: bool) {
    && choice.Draw?
    && choice.refresh.Some? == want
    && Encodable(choice.token) && choice.token !in s.drawn
    && (want ==> Encodable(choice.refresh.value) && choice.refresh.value !in s.drawn && choice.refresh.value != choice.token)
  }

  predicate Enabled(s: State, a: Action) {
    match a
    case Begin(c, _) => c !in s.calls
    case Tick(_) => true
    case Advance(c, choice) =>
      c in s.calls &&
      match s.calls[c].pc
      case IssueCreate => s.calls[c].request.Issue? && FreshDraw(s, choice, s.calls[c].request.wantRefresh)
      case RefreshCreate(_, _) => s.calls[c].request.Refresh? && FreshDraw(s, choice, s.calls[c].request.wantRefresh)
      case IssueInsert(_) => choice.NewId? && choice.id !in s.db
      case RefreshReplace(_, _, _) => choice.NewId? && choice.id !in s.db
      case ValidateLookup(h) => choice.Found? && FindsAccess(s.db, h, choice.row)
      case RevokeLookupAccess(h) => choice.Found? && FindsAccess(s.db, h, choice.row)
      case RefreshLookup(h, _) => choice.Found? && FindsRefresh(s.db, h, choice.row)
      case RevokeLookupRefresh(h) => choice.Found? && FindsRefresh(s.db, h, choice.row)
      case Done(_) => false
      case _ => choice.Nothing?
  }

  function AfterValidateLookup(row: Option<Session>): Pc {
    if row.None? || row.value.revokedAt.Some? || row.value.replacedBy.Some? then Done(InvalidSessionToken)
    else ValidateCheck(row.value)
  }

  function AfterRefreshLookup(h: TokenHash, row: Option<Session>, again: bool): Pc {
    if row.None? || row.value.revokedAt.Some? then Done(InvalidRefreshToken)
    else if row.value.replacedBy.Some? then Stamp(row.value, ReusedRefreshToken)
    else if row.value.refreshExpiresAt.None? then Done(InvalidRefreshToken)
    else RefreshCheck(h, row.value, again)
  }

  function RowAt(db: Store, row: Option<Id>): Option<Session> {
    if row.Some? && row.value in db then Some(db[row.value]) else None
  }

  function DrawnBy(choice: Choice): set<Token> {
    if choice.Draw? then {choice.token} + (if choice.refresh.Some? then {choice.refresh.value} else {}) else {}
  }

  /** The next program counter of call `c`. */
  function NextPc(cfg: Config, s: State, c: CallId, choice: Choice): Pc
    requires Enabled(s, Advance(c, choice))
  {
    var request := s.calls[c].request;
    match s.calls[c].pc
    case IssueCreate =>
      IssueInsert(Credentials(choice.token, choice.refresh,
        CreateSession(cfg, s.now, request.claims, None, None, choice.token, choice.refresh)))
    case IssueInsert(creds) =>
      Done(Issued(creds.(session := creds.session.(id := Some(choice.id), familyId := Some(choice.id)))))
    case ValidateLookup(_) => AfterValidateLookup(RowAt(s.db, choice.row))
    case ValidateCheck(session) =>
      Done(if s.now >= session.expiresAt then ExpiredSession else Validated(session))
    case RefreshLookup(h, again) => AfterRefreshLookup(h, RowAt(s.db, choice.row), again)
    case RefreshCheck(h, session, again) =>
      if session.refreshExpiresAt.Some? && s.now >= session.refreshExpiresAt.value then Done(ExpiredRefreshToken)
      else if again then RefreshFallback
      else RefreshCreate(h, session)
    case RefreshCreate(h, session) =>
      RefreshReplace(h, session, Credentials(choice.token, choice.refresh,
        CreateSession(cfg, s.now, ClaimsOf(session), session.refreshExpiresAt, session.familyId, choice.token, choice.refresh)))
    case RefreshReplace(h, session, creds) =>
      if Replaceable(s.db, s.now, session)
      then Done(Issued(creds.(session := creds.session.(id := Some(choice.id)))))
      else RefreshLookup(h, true)
    case RefreshFallback => Done(InvalidRefreshToken)
    case RevokeLookupAccess(h) =>
      if choice.row.Some? then Stamp(s.db[choice.row.value], Revoked) else RevokeLookupRefresh(h)
    case RevokeLookupRefresh(_) =>
      if choice.row.Some? then Stamp(s.db[choice.row.value], Revoked) else Done(Revoked)
    case Stamp(session, outcome) => RevokeRows(session.(revokedAt := Some(s.now)), outcome)
    case RevokeRows(_, outcome) => Done(outcome)
  }

  /** The store after a step of call `c`; only three kinds of step write it. */
  function NextDb(s: State, c: CallId, choice: Choice): Store
    requires Enabled(s, Advance(c, choice))
  {
    match s.calls[c].pc
    case IssueInsert(creds) => Insert(s.db, creds.session, choice.id)
    case RefreshReplace(_, session, creds) =>
      if Replaceable(s.db, s.now, session) then Replace(s.db, session, creds.session, choice.id) else s.db
    case RevokeRows(session, _) => RevokeFamily(s.db, session)
    case _ => s.db
  }

  function Next(cfg: Config, s: State, a: Action): State
    requires Enabled(s, a)
  {
    match a
    case Begin(c, request) => s.(calls := s.calls[c := Call(request, FirstPc(request))])
    case Tick(seconds) => s.(now := s.now + seconds)
    case Advance(c, choice) =>
      State(NextDb(s, c, choice), s.now,
            s.calls[c := s.calls[c].(pc := NextPc(cfg, s, c, choice))],
            s.drawn + DrawnBy(choice))
  }

  // ---------- Runs ----------

  predicate Legal(cfg: Config, s: State, acts: seq<Action>)
    decreases |acts|, 0
  {
    acts == [] || (Legal(cfg, s, acts[..|acts|-1]) && Enabled(Exec(cfg, s, acts[..|acts|-1]), acts[|acts|-1]))
  }

  /** The state a run ends in. */
  function Exec(cfg: Config, s: State, acts: seq<Action>): State
    requires Legal(cfg, s, acts)
    decreases |acts|, 1
  {
    if acts == [] then s else Next(cfg, Exec(cfg, s, acts[..|acts|-1]), acts[|acts|-1])
  }

  lemma ExecSnoc(cfg: Config, s: State, acts: seq<Action>, a: Action)
    requires Legal(cfg, s, acts) && Enabled(Exec(cfg, s, acts), a)
    ensures Legal(cfg, s, acts + [a])
    ensures Exec(cfg, s, acts + [a]) == Next(cfg, Exec(cfg, s, acts), a)
  {
    assert (acts + [a])[..|acts|] == acts;
  }

  lemma {:induction false} LegalPrefix(cfg: Config, s: State, acts: seq<Action>, k: nat)
    requires Legal(cfg, s, acts) && k <= |acts|
    ensures Legal(cfg, s, acts[..k])
    decreases |acts|
  {
    if k == |acts| {
      assert acts[..k] == acts;
    } else {
      var front := acts[..|acts|-1];
      LegalPrefix(cfg, s, front, k);
      assert front[..k] == acts[..k];
    }
  }
}
