/**
 OAuth2 callbacks: single-use states, and the binding of provider accounts to
 identities over whole runs.

 A step is one call taken as a whole. What the store chooses (which of several
 matching rows a lookup returns, which id a new row gets) is left open.
 */
module OAuth2Bindings {
  import opened Wrappers
  import opened Tokens

  type Id = nat
  type Identity = nat

  datatype State = State(stateHash: TokenHash, provider: string, codeVerifier: Option<string>, nonce: Option<string>,
                         redirectUri: string, identity: Option<Identity>, scope: Option<seq<string>>,
                         expiresAt: int, context: Option<map<string, string>>)

  /** The tokens of a token response (section 5.1 of RFC 6749). */
  datatype Grant = Grant(accessToken: string, expiresAt: Option<int>, refreshToken: Option<string>,
                         refreshTokenExpiresAt: Option<int>, idToken: Option<string>)

  datatype TokenResponse = TokenResponse(accountId: string, grant: Grant)

  datatype Account = Account(provider: string, accountId: string, grant: Grant, scope: seq<string>)

  datatype Enrollment = Enrollment(identity: Identity, provider: string, accountId: string, grant: Grant, scope: seq<string>)

  function FromAccount(identity: Identity, account: Account): Enrollment {
    Enrollment(identity, account.provider, account.accountId, account.grant, account.scope)
  }

  /** The error codes of section 4.1.2.1 of RFC 6749, and any other. */
  datatype AuthorizationError =
    | InvalidRequest | UnauthorizedClient | AccessDenied | UnsupportedResponseType
    | InvalidScope | ServerError | TemporarilyUnavailable | Unsupported(code: string)

  function ErrorOf(code: string): AuthorizationError {
    if code == "invalid_request" then InvalidRequest
    else if code == "unauthorized_client" then UnauthorizedClient
    else if code == "access_denied" then AccessDenied
    else if code == "unsupported_response_type" then UnsupportedResponseType
    else if code == "invalid_scope" then InvalidScope
    else if code == "server_error" then ServerError
    else if code == "temporarily_unavailable" then TemporarilyUnavailable
    else Unsupported(code)
  }

  function CodeOf(error: AuthorizationError): string {
    match error
    case InvalidRequest => "invalid_request"
    case UnauthorizedClient => "unauthorized_client"
    case AccessDenied => "access_denied"
    case UnsupportedResponseType => "unsupported_response_type"
    case InvalidScope => "invalid_scope"
    case ServerError => "server_error"
    case TemporarilyUnavailable => "temporarily_unavailable"
    case Unsupported(code) => code
  }

  /** No code is taken for another: each error tells the code it came from, and each standard one comes from its own. */
  lemma ErrorsTellCodes(code: string, error: AuthorizationError)
    ensures CodeOf(ErrorOf(code)) == code
    ensures !error.Unsupported? ==> ErrorOf(CodeOf(error)) == error
  {
    assert |"invalid_request"| == 15 && |"unauthorized_client"| == 19 && |"access_denied"| == 13;
    assert |"unsupported_response_type"| == 25 && |"invalid_scope"| == 13 && |"server_error"| == 12;
    assert |"temporarily_unavailable"| == 23 && "access_denied"[0] != "invalid_scope"[0];
  }

  /** A callback's parameters, the time it comes, and what the token endpoint answers if it is asked. */
  datatype Request = Request(state: Token, code: Option<string>, error: Option<string>, now: int,
                             exchange: Result<TokenResponse, string>)

  datatype Outcome =
    | UnencodableState
    | InvalidState
    | ExpiredState
    | Denied(error: AuthorizationError, state: State)
    | MissingCode(state: State)
    | ExchangeFailed(reason: string, state: State)
    | IdentityMismatch(state: State)
    | Enrolled(id: Id, enrollment: Enrollment, state: State)
    | SignUp(account: Account, state: State)

  type States = map<Id, State>
  type Enrollments = map<Id, Enrollment>

  /** `drawn` holds every state token generated so far. */
  datatype World = World(states: States, enrollments: Enrollments, drawn: set<Token>)

  // ---------- One callback ----------

  predicate Matches(e: Enrollment, provider: string, accountId: string) {
    e.provider == provider && e.accountId == accountId
  }

  predicate Absent(es: Enrollments, provider: string, accountId: string) {
    forall id | id in es :: !Matches(es[id], provider, accountId)
  }

  function ScopeOf(s: State): seq<string> { if s.scope.Some? then s.scope.value else [] }

  function Refreshed(e: Enrollment, s: State, grant: Grant): Enrollment {
    e.(grant := grant, scope := ScopeOf(s))
  }

  /** Resolving the identity: an existing enrollment first, then the state's identity, then sign-up. */
  ghost predicate Resolves(s: State, response: TokenResponse, es: Enrollments, es': Enrollments, outcome: Outcome) {
    match outcome
    case Enrolled(id, e, st) =>
      && st == s && es' == es[id := e]
      && (if id in es
          then Matches(es[id], s.provider, response.accountId) && e == Refreshed(es[id], s, response.grant)
               && (s.identity.None? || s.identity == Some(es[id].identity))
          else Absent(es, s.provider, response.accountId) && s.identity.Some?
               && e == Enrollment(s.identity.value, s.provider, response.accountId, response.grant, ScopeOf(s)))
    case IdentityMismatch(st) =>
      && st == s && es' == es && s.identity.Some?
      && exists id :: id in es && Matches(es[id], s.provider, response.accountId) && es[id].identity != s.identity.value
    case SignUp(account, st) =>
      && st == s && es' == es && s.identity.None? && Absent(es, s.provider, response.accountId)
      && account == Account(s.provider, response.accountId, response.grant, ScopeOf(s))
    case _ => false
  }

  /** What follows once the state is consumed. */
  ghost predicate Proceeds(s: State, request: Request, es: Enrollments, es': Enrollments, outcome: Outcome) {
    if request.error.Some? then es' == es && outcome == Denied(ErrorOf(request.error.value), s)
    else if request.code.None? then es' == es && outcome == MissingCode(s)
    else match request.exchange
      case Err(e) => es' == es && outcome == ExchangeFailed(e, s)
      case Ok(response) => Resolves(s, response, es, es', outcome)
  }

  ghost predicate Live(states: States, id: Id, token: Token, now: int) {
    id in states && states[id].stateHash == Hash(token) && now < states[id].expiresAt
  }

  /** Consuming a live state deletes it, whatever the callback then comes to. */
  ghost predicate CallbackStep(w: World, w': World, request: Request, outcome: Outcome) {
    if !Encodable(request.state) then w' == w && outcome.UnencodableState?
    else match outcome
      case UnencodableState => false
      case InvalidState => w' == w && forall id | id in w.states :: w.states[id].stateHash != Hash(request.state)
      case ExpiredState => w' == w && exists id :: id in w.states && w.states[id].stateHash == Hash(request.state)
                                       && w.states[id].expiresAt <= request.now
      case _ => exists id :: Live(w.states, id, request.state, request.now)
                  && w'.states == w.states - {id} && w'.drawn == w.drawn
                  && Proceeds(w.states[id], request, w.enrollments, w'.enrollments, outcome)
  }

  /** The callback got past the consumption of its state. */
  predicate Consumed(outcome: Outcome) {
    !outcome.UnencodableState? && !outcome.InvalidState? && !outcome.ExpiredState?
  }

  // ---------- Runs ----------

  datatype Event =
    | Start(token: Token, id: Id, state: State)
    | Callback(request: Request, outcome: Outcome)
    | Enroll(identity: Identity, account: Account, id: Id)

  ghost predicate Steps(w: World, ev: Event, w': World) {
    match ev
    case Start(token, id, state) =>
      && Encodable(token) && token !in w.drawn && state.stateHash == Hash(token) && id !in w.states
      && w' == w.(states := w.states[id := state], drawn := w.drawn + {token})
    case Callback(request, outcome) => CallbackStep(w, w', request, outcome)
    case Enroll(identity, account, id) =>
      id !in w.enrollments && w' == w.(enrollments := w.enrollments[id := FromAccount(identity, account)])
  }

  ghost predicate Run(ws: seq<World>, evs: seq<Event>) {
    && |ws| == |evs| + 1 && ws[0] == World(map[], map[], {})
    && forall i | 0 <= i < |evs| :: Steps(ws[i], evs[i], ws[i + 1])
  }

  // ---------- States are used once ----------

  ghost predicate StatesOk(w: World) {
    && (forall id | id in w.states :: w.states[id].stateHash.token in w.drawn)
    && (forall a, b | a in w.states && b in w.states && a != b :: w.states[a].stateHash != w.states[b].stateHash)
  }

  /** The token was generated, and no row is left for it. */
  ghost predicate Spent(w: World, token: Token) {
    token in w.drawn && forall id | id in w.states :: w.states[id].stateHash != Hash(token)
  }

  lemma {:induction false} RunStatesOk(ws: seq<World>, evs: seq<Event>, i: nat)
    requires Run(ws, evs) && i < |ws|
    ensures StatesOk(ws[i])
  {
    if 0 < i {
      RunStatesOk(ws, evs, i - 1);
      assert Steps(ws[i - 1], evs[i - 1], ws[i]);
    }
  }

  lemma {:induction false} SpentStaysSpent(ws: seq<World>, evs: seq<Event>, i: nat, j: nat, token: Token)
    requires Run(ws, evs) && i <= j < |ws| && Spent(ws[i], token)
    ensures Spent(ws[j], token)
    decreases j
  {
    if i < j {
      SpentStaysSpent(ws, evs, i, j - 1, token);
      assert Steps(ws[j - 1], evs[j - 1], ws[j]);
    }
  }

  lemma ConsumingSpends(w: World, w': World, request: Request, outcome: Outcome)
    requires StatesOk(w) && CallbackStep(w, w', request, outcome) && Consumed(outcome)
    ensures Spent(w', request.state)
  {
    var id :| Live(w.states, id, request.state, request.now) && w'.states == w.states - {id} && w'.drawn == w.drawn;
  }

  /** No state token gets past its consumption twice, however long the run and whatever came of the first callback. */
  lemma StatesAreSingleUse(ws: seq<World>, evs: seq<Event>, i: nat, j: nat)
    requires Run(ws, evs) && i < j < |evs| && evs[i].Callback? && evs[j].Callback?
    requires Consumed(evs[i].outcome) && evs[i].request.state == evs[j].request.state
    ensures evs[j].outcome.InvalidState?
  {
    RunStatesOk(ws, evs, i);
    assert Steps(ws[i], evs[i], ws[i + 1]) && Steps(ws[j], evs[j], ws[j + 1]);
    ConsumingSpends(ws[i], ws[i + 1], evs[i].request, evs[i].outcome);
    SpentStaysSpent(ws, evs, i + 1, j, evs[i].request.state);
  }

  /** No callback between the two points got past the consumption of the state. */
  ghost predicate Unconsumed(evs: seq<Event>, i: int, j: int, token: Token) {
    forall k | 0 <= i < k < j <= |evs| && evs[k].Callback? && evs[k].request.state == token :: !Consumed(evs[k].outcome)
  }

  lemma {:induction false} StateStays(ws: seq<World>, evs: seq<Event>, i: nat, j: nat)
    requires Run(ws, evs) && i < j < |ws| && evs[i].Start? && Unconsumed(evs, i, j, evs[i].token)
    ensures evs[i].id in ws[j].states && ws[j].states[evs[i].id] == evs[i].state
    decreases j
  {
    assert Steps(ws[i], evs[i], ws[i + 1]) && Steps(ws[j - 1], evs[j - 1], ws[j]);
    if i + 1 < j {
      StateStays(ws, evs, i, j - 1);
    }
  }

  lemma {:induction false} DrawnByStart(ws: seq<World>, evs: seq<Event>, j: nat, token: Token)
    requires Run(ws, evs) && j < |ws| && token in ws[j].drawn
    ensures exists i :: 0 <= i < j && evs[i].Start? && evs[i].token == token
    decreases j
  {
    assert j == 0 || Steps(ws[j - 1], evs[j - 1], ws[j]);
    if token in ws[j - 1].drawn { DrawnByStart(ws, evs, j - 1, token); }
  }

  /**
   What becomes of a callback with a state token that was generated: invalid
   once consumed; before that, the stored state to the second of its expiry,
   and expired from then on.
   */
  lemma StateOutcome(ws: seq<World>, evs: seq<Event>, i: nat, j: nat)
    requires Run(ws, evs) && i < j < |evs| && evs[i].Start? && evs[j].Callback? && evs[j].request.state == evs[i].token
    ensures var outcome := evs[j].outcome;
      if !Unconsumed(evs, i, j, evs[i].token) then outcome.InvalidState?
      else if evs[i].state.expiresAt <= evs[j].request.now then outcome.ExpiredState?
      else Consumed(outcome) && outcome.state == evs[i].state
  {
    assert Steps(ws[i], evs[i], ws[i + 1]) && Steps(ws[j], evs[j], ws[j + 1]);
    RunStatesOk(ws, evs, j);
    if Unconsumed(evs, i, j, evs[i].token) {
      StateStays(ws, evs, i, j);
    } else {
      var k :| i < k < j && evs[k].Callback? && evs[k].request.state == evs[i].token && Consumed(evs[k].outcome);
      StatesAreSingleUse(ws, evs, k, j);
    }
  }

  /** A token that was never generated is no state. */
  lemma UndrawnStatesAreInvalid(ws: seq<World>, evs: seq<Event>, j: nat)
    requires Run(ws, evs) && j < |evs| && evs[j].Callback?
    requires forall i | 0 <= i < j && evs[i].Start? :: evs[i].token != evs[j].request.state
    ensures evs[j].outcome == if Encodable(evs[j].request.state) then InvalidState else UnencodableState
  {
    assert Steps(ws[j], evs[j], ws[j + 1]);
    RunStatesOk(ws, evs, j);
    if evs[j].request.state in ws[j].drawn { DrawnByStart(ws, evs, j, evs[j].request.state); }
  }

  // ---------- Bindings ----------

  /** An enrollment ties the account to the identity. */
  ghost predicate Bound(es: Enrollments, provider: string, accountId: string, identity: Identity) {
    exists id :: id in es && Matches(es[id], provider, accountId) && es[id].identity == identity
  }

  ghost predicate Unique(es: Enrollments) {
    forall a, b | a in es && b in es && Matches(es[b], es[a].provider, es[a].accountId) :: a == b
  }

  /** Enrollments change their tokens and scope only. */
  ghost predicate EnrollmentsKept(es: Enrollments, es': Enrollments) {
    forall id | id in es :: id in es' && Matches(es'[id], es[id].provider, es[id].accountId) && es'[id].identity == es[id].identity
  }

  lemma StepKeepsEnrollments(w: World, ev: Event, w': World)
    requires Steps(w, ev, w')
    ensures EnrollmentsKept(w.enrollments, w'.enrollments)
  {
  }

  /** A binding once made is there for good. */
  lemma {:induction false} BindingsOnlyGrow(ws: seq<World>, evs: seq<Event>, i: nat, j: nat, provider: string, accountId: string, identity: Identity)
    requires Run(ws, evs) && i <= j < |ws| && Bound(ws[i].enrollments, provider, accountId, identity)
    ensures Bound(ws[j].enrollments, provider, accountId, identity)
    decreases j
  {
    if i < j {
      BindingsOnlyGrow(ws, evs, i, j - 1, provider, accountId, identity);
      StepKeepsEnrollments(ws[j - 1], evs[j - 1], ws[j]);
    }
  }

  /** `enroll` inserts without looking; the application calls it only while the account is not enrolled. */
  ghost predicate Guarded(w: World, ev: Event) {
    ev.Enroll? ==> Absent(w.enrollments, ev.account.provider, ev.account.accountId)
  }

  /** Callbacks never add a second enrollment for an account; `enroll` adds none exactly when the account was absent. */
  lemma UniqueIffGuarded(w: World, ev: Event, w': World)
    requires Steps(w, ev, w')
    ensures Unique(w'.enrollments) <==> Unique(w.enrollments) && Guarded(w, ev)
  {
    if !Unique(w.enrollments) {
      DuplicatesStay(w, ev, w');
    } else if ev.Enroll? {
      if !Guarded(w, ev) {
        var id :| id in w.enrollments && Matches(w.enrollments[id], ev.account.provider, ev.account.accountId);
        assert w'.enrollments[id] == w.enrollments[id] && id != ev.id;
        assert Matches(w'.enrollments[ev.id], ev.account.provider, ev.account.accountId);
      }
    } else {
      UniqueAfterCallback(w, ev, w');
    }
  }

  lemma DuplicatesStay(w: World, ev: Event, w': World)
    requires Steps(w, ev, w') && !Unique(w.enrollments)
    ensures !Unique(w'.enrollments)
  {
    StepKeepsEnrollments(w, ev, w');
    var es, es' := w.enrollments, w'.enrollments;
    var a, b :| a in es && b in es && Matches(es[b], es[a].provider, es[a].accountId) && a != b;
    assert Matches(es'[a], es[a].provider, es[a].accountId) && Matches(es'[b], es[b].provider, es[b].accountId);
  }

  lemma UniqueAfterCallback(w: World, ev: Event, w': World)
    requires Unique(w.enrollments) && Steps(w, ev, w') && !ev.Enroll?
    ensures Unique(w'.enrollments)
  {
    StepKeepsEnrollments(w, ev, w');
    if ev.Callback? && ev.outcome.Enrolled? {
      forall id | id in w'.enrollments ensures id in w.enrollments || id == ev.outcome.id {}
    }
  }

  /** At any point of a run there is one enrollment per account if and only if every `enroll` so far met an absent account. */
  lemma {:induction false} RunUniqueIffGuarded(ws: seq<World>, evs: seq<Event>, i: nat)
    requires Run(ws, evs) && i < |ws|
    ensures Unique(ws[i].enrollments) <==> forall k | 0 <= k < i :: Guarded(ws[k], evs[k])
  {
    if 0 < i {
      RunUniqueIffGuarded(ws, evs, i - 1);
      assert Steps(ws[i - 1], evs[i - 1], ws[i]);
      UniqueIffGuarded(ws[i - 1], evs[i - 1], ws[i]);
    }
  }

  // ---------- One identity per account ----------

  /** No account is bound to two identities. */
  ghost predicate OneIdentity(es: Enrollments) {
    forall a, b | a in es && b in es && Matches(es[b], es[a].provider, es[a].accountId) :: es[a].identity == es[b].identity
  }

  /** `enroll` names the identity the account already has, if it has one. */
  ghost predicate Agrees(w: World, ev: Event) {
    ev.Enroll? ==> forall id | id in w.enrollments && Matches(w.enrollments[id], ev.account.provider, ev.account.accountId) ::
      w.enrollments[id].identity == ev.identity
  }

  lemma OneIdentityStep(w: World, ev: Event, w': World)
    requires Steps(w, ev, w')
    ensures OneIdentity(w'.enrollments) <==> OneIdentity(w.enrollments) && Agrees(w, ev)
  {
    StepKeepsEnrollments(w, ev, w');
    var es, es' := w.enrollments, w'.enrollments;
    if OneIdentity(es') {
      forall a, b | a in es && b in es && Matches(es[b], es[a].provider, es[a].accountId) ensures es[a].identity == es[b].identity {
        assert Matches(es'[a], es[a].provider, es[a].accountId) && Matches(es'[b], es[b].provider, es[b].accountId);
      }
      if ev.Enroll? {
        assert Matches(es'[ev.id], ev.account.provider, ev.account.accountId);
      }
    } else if OneIdentity(es) && Agrees(w, ev) {
      OneIdentityKept(w, ev, w');
    }
  }

  lemma OneIdentityKept(w: World, ev: Event, w': World)
    requires Steps(w, ev, w') && OneIdentity(w.enrollments) && Agrees(w, ev)
    ensures OneIdentity(w'.enrollments)
  {
    StepKeepsEnrollments(w, ev, w');
    if ev.Callback? && ev.outcome.Enrolled? {
      forall id | id in w'.enrollments ensures id in w.enrollments || id == ev.outcome.id {}
    }
  }

  /** An account is never bound to two identities if and only if no `enroll` so far named a different one than it had. */
  lemma {:induction false} OneIdentityIffAgrees(ws: seq<World>, evs: seq<Event>, i: nat)
    requires Run(ws, evs) && i < |ws|
    ensures OneIdentity(ws[i].enrollments) <==> forall k | 0 <= k < i :: Agrees(ws[k], evs[k])
  {
    if 0 < i {
      OneIdentityIffAgrees(ws, evs, i - 1);
      assert Steps(ws[i - 1], evs[i - 1], ws[i]);
      OneIdentityStep(ws[i - 1], evs[i - 1], ws[i]);
    }
  }

  /** So what an account was bound to at one point of such a run, it is bound to, alone, at every later one. */
  lemma NeverRebound(ws: seq<World>, evs: seq<Event>, i: nat, j: nat, provider: string, accountId: string, x: Identity, y: Identity)
    requires Run(ws, evs) && i <= j < |ws| && forall k | 0 <= k < j :: Agrees(ws[k], evs[k])
    requires Bound(ws[i].enrollments, provider, accountId, x) && Bound(ws[j].enrollments, provider, accountId, y)
    ensures x == y
  {
    BindingsOnlyGrow(ws, evs, i, j, provider, accountId, x);
    OneIdentityIffAgrees(ws, evs, j);
  }

  /** A callback signs in as the account's identity if it has one, and else binds it to the state's. */
  lemma CallbackIdentity(ws: seq<World>, evs: seq<Event>, i: nat)
    requires Run(ws, evs) && i < |evs| && evs[i].Callback? && forall k | 0 <= k < i :: Agrees(ws[k], evs[k])
    ensures evs[i].outcome.Enrolled? ==>
      var e, s := evs[i].outcome.enrollment, evs[i].outcome.state;
      && Bound(ws[i + 1].enrollments, e.provider, e.accountId, e.identity)
      && (s.identity.Some? ==> e.identity == s.identity.value)
      && (forall x | Bound(ws[i].enrollments, e.provider, e.accountId, x) :: x == e.identity)
    ensures !evs[i].outcome.Enrolled? ==> ws[i + 1].enrollments == ws[i].enrollments
  {
    assert Steps(ws[i], evs[i], ws[i + 1]);
    OneIdentityIffAgrees(ws, evs, i);
    if evs[i].outcome.Enrolled? {
      var id := evs[i].outcome.id;
      assert ws[i + 1].enrollments[id] == evs[i].outcome.enrollment;
    }
  }

  // ---------- What a callback comes to ----------

  /** Once the state is consumed, the parameters decide first, in this order. */
  lemma ParametersDecide(ws: seq<World>, evs: seq<Event>, i: nat)
    requires Run(ws, evs) && i < |evs| && evs[i].Callback? && Consumed(evs[i].outcome)
    ensures var q, outcome := evs[i].request, evs[i].outcome;
      && (outcome.Denied? <==> q.error.Some?)
      && (outcome.Denied? ==> CodeOf(outcome.error) == q.error.value)
      && (outcome.MissingCode? <==> q.error.None? && q.code.None?)
      && (outcome.ExchangeFailed? <==> q.error.None? && q.code.Some? && q.exchange.Err?)
      && (outcome.ExchangeFailed? ==> outcome.reason == q.exchange.error)
      && (outcome.Enrolled? || outcome.SignUp? || outcome.IdentityMismatch? <==> q.error.None? && q.code.Some? && q.exchange.Ok?)
  {
    assert Steps(ws[i], evs[i], ws[i + 1]);
    if evs[i].request.error.Some? { ErrorsTellCodes(evs[i].request.error.value, InvalidRequest); }
  }

  /**
   Then the account decides: a new account without an identity is sent to
   sign-up, an account of someone else than the state's identity is refused,
   and every other one is enrolled.
   */
  lemma AccountDecides(ws: seq<World>, evs: seq<Event>, i: nat)
    requires Run(ws, evs) && i < |evs| && evs[i].Callback? && forall k | 0 <= k < i :: Agrees(ws[k], evs[k])
    requires var outcome := evs[i].outcome; outcome.Enrolled? || outcome.SignUp? || outcome.IdentityMismatch?
    ensures evs[i].request.exchange.Ok?
    ensures var outcome, es := evs[i].outcome, ws[i].enrollments;
      var s, accountId := outcome.state, evs[i].request.exchange.value.accountId;
      && (outcome.SignUp? <==> s.identity.None? && forall id | id in es :: !(es[id].provider == s.provider && es[id].accountId == accountId))
      && (outcome.IdentityMismatch? <==>
            s.identity.Some? && exists id :: id in es && es[id].provider == s.provider && es[id].accountId == accountId
                                             && es[id].identity != s.identity.value)
  {
    assert Steps(ws[i], evs[i], ws[i + 1]);
    OneIdentityIffAgrees(ws, evs, i);
  }

  /** The row of an account after a callback or a sign-up: the tokens just obtained, and the scope that was asked for. */
  ghost function NewRow(identity: Identity, s: State, response: TokenResponse): Enrollment {
    Enrollment(identity, s.provider, response.accountId,
               Grant(response.grant.accessToken, response.grant.expiresAt, response.grant.refreshToken,
                     response.grant.refreshTokenExpiresAt, response.grant.idToken),
               if s.scope.Some? then s.scope.value else [])
  }

  /** An enrolling callback stores what it obtained in the account's row, old or new, and touches no other. */
  lemma CallbackStores(ws: seq<World>, evs: seq<Event>, i: nat)
    requires Run(ws, evs) && i < |evs| && evs[i].Callback? && evs[i].outcome.Enrolled?
    ensures evs[i].request.exchange.Ok?
    ensures var o, es := evs[i].outcome, ws[i].enrollments;
      && o.enrollment == NewRow(o.enrollment.identity, o.state, evs[i].request.exchange.value)
      && ws[i + 1].enrollments == es[o.id := o.enrollment]
      && (if o.id in es then es[o.id].identity == o.enrollment.identity else o.state.identity == Some(o.enrollment.identity))
    ensures (forall k | 0 <= k < i :: Guarded(ws[k], evs[k])) ==>
      var o, es := evs[i].outcome, ws[i + 1].enrollments;
      forall id | id in es ::
        es[id].provider == o.state.provider && es[id].accountId == evs[i].request.exchange.value.accountId <==> id == o.id
  {
    assert Steps(ws[i], evs[i], ws[i + 1]);
    if forall k | 0 <= k < i :: Guarded(ws[k], evs[k]) {
      RunUniqueIffGuarded(ws, evs, i + 1);
      var o, es := evs[i].outcome, ws[i + 1].enrollments;
      forall id | id in es && es[id].provider == o.enrollment.provider && es[id].accountId == o.enrollment.accountId ensures id == o.id {
        assert Matches(es[id], es[o.id].provider, es[o.id].accountId);
      }
    }
  }

  /** A sign-up stores nothing; enrolling the account it returned stores what that callback obtained. */
  lemma SignUpThenEnroll(ws: seq<World>, evs: seq<Event>, i: nat, j: nat)
    requires Run(ws, evs) && i < j < |evs| && evs[i].Callback? && evs[i].outcome.SignUp?
    requires evs[j].Enroll? && evs[j].account == evs[i].outcome.account
    ensures evs[i].request.exchange.Ok? && ws[i + 1].enrollments == ws[i].enrollments
    ensures ws[j + 1].enrollments
      == ws[j].enrollments[evs[j].id := NewRow(evs[j].identity, evs[i].outcome.state, evs[i].request.exchange.value)]
    ensures evs[j].id !in ws[j].enrollments
  {
    assert Steps(ws[i], evs[i], ws[i + 1]) && Steps(ws[j], evs[j], ws[j + 1]);
  }
}
