/** The OAuth2 factor and its state service, over their two stores. */
module OAuth2Service {
  import opened Wrappers
  import opened Tokens
  import opened OAuth2Bindings

  class OAuth2Factor {
    const identifier: string
    const stateLifetime: int
    var states: States
    var enrollments: Enrollments
    var drawn: set<Token>
    var nextState: Id
    var nextEnrollment: Id

    ghost function Current(): World
      reads this
    {
      World(states, enrollments, drawn)
    }

    /** Ids are given out in sequence. */
    ghost predicate Valid()
      reads this
    {
      (forall id | id in states :: id < nextState) && (forall id | id in enrollments :: id < nextEnrollment)
    }

    constructor (identifier: string, stateLifetime: int)
      ensures Valid() && Current() == World(map[], map[], {})
      ensures this.identifier == identifier && this.stateLifetime == stateLifetime
    {
      this.identifier, this.stateLifetime := identifier, stateLifetime;
      states, enrollments, drawn, nextState, nextEnrollment := map[], map[], {}, 0, 0;
    }

    /** `token` is the newly generated state token. */
    method Start(token: Token, redirectUri: string, scope: Option<seq<string>>, identity: Option<Identity>,
                 codeVerifier: Option<string>, nonce: Option<string>, context: Option<map<string, string>>, now: int)
      returns (r: Result<(Id, State), Outcome>)
      requires Valid() && token !in drawn
      modifies this`states, this`drawn, this`nextState
      ensures Valid() && (r.Ok? <==> Encodable(token))
      ensures r.Err? ==> r.error == UnencodableState && Current() == old(Current())
      ensures r.Ok? ==> Steps(old(Current()), Event.Start(token, r.value.0, r.value.1), Current())
      ensures r.Ok? ==>
        r.value.1 == State(Hash(token), identifier, codeVerifier, nonce, redirectUri, identity, scope, now + stateLifetime,
                           if context == Some(map[]) then None else context)
    {
      var hash := GetTokenHash(token);
      if hash.None? { return Err(UnencodableState); }
      var state := State(hash.value, identifier, codeVerifier, nonce, redirectUri, identity, scope, now + stateLifetime,
                     if context == Some(map[]) then None else context);
      var id := nextState;
      states := states[id := state];
      drawn := drawn + {token};
      nextState := nextState + 1;
      return Ok((id, state));
    }

    method GetByStateHash(h: TokenHash) returns (row: Option<Id>)
      ensures row.Some? ==> row.value in states && states[row.value].stateHash == h
      ensures row.None? ==> forall id | id in states :: states[id].stateHash != h
    {
      var rest := states.Keys;
      while rest != {}
        invariant rest <= states.Keys && forall id | id in states && id !in rest :: states[id].stateHash != h
      {
        var id :| id in rest;
        if states[id].stateHash == h { return Some(id); }
        rest := rest - {id};
      }
      return None;
    }

    method GetEnrollmentByProviderAndAccount(provider: string, accountId: string) returns (row: Option<Id>)
      ensures row.Some? ==> row.value in enrollments && Matches(enrollments[row.value], provider, accountId)
      ensures row.None? ==> Absent(enrollments, provider, accountId)
    {
      var rest := enrollments.Keys;
      while rest != {}
        invariant rest <= enrollments.Keys
        invariant forall id | id in enrollments && id !in rest :: !Matches(enrollments[id], provider, accountId)
      {
        var id :| id in rest;
        if enrollments[id].provider == provider && enrollments[id].accountId == accountId { return Some(id); }
        rest := rest - {id};
      }
      return None;
    }

    /** Returns the state and deletes it, or says why it cannot be used; an expired state stays stored. */
    method Consume(token: Token, now: int) returns (r: Result<State, Outcome>)
      requires Valid()
      modifies this`states
      ensures Valid()
      ensures r.Ok? ==> exists id ::
        Live(old(states), id, token, now) && r.value == old(states)[id] && states == old(states) - {id}
      ensures r.Ok? ==> Encodable(token)
      ensures r.Err? ==> Current() == old(Current()) && !Consumed(r.error)
      ensures r.Err? ==> (r.error.UnencodableState? <==> !Encodable(token))
      ensures r.Err? && r.error.InvalidState? ==> forall id | id in states :: states[id].stateHash != Hash(token)
      ensures r.Err? && r.error.ExpiredState? ==>
        exists id :: id in states && states[id].stateHash == Hash(token) && states[id].expiresAt <= now
    {
      var hash := GetTokenHash(token);
      if hash.None? { return Err(UnencodableState); }
      var row := GetByStateHash(hash.value);
      if row.None? { return Err(InvalidState); }
      var state := states[row.value];
      if state.expiresAt <= now { return Err(ExpiredState); }
      assert Live(states, row.value, token, now);
      states := states - {row.value};
      return Ok(state);
    }

    /** `request.exchange` is what the provider's token endpoint answers. */
    method Callback(request: Request) returns (outcome: Outcome)
      requires Valid()
      modifies this`states, this`enrollments, this`nextEnrollment
      ensures Valid() && CallbackStep(old(Current()), Current(), request, outcome)
    {
      var consumed := Consume(request.state, request.now);
      if consumed.Err? { return consumed.error; }
      var state := consumed.value;
      if request.error.Some? { return Denied(ErrorOf(request.error.value), state); }
      if request.code.None? { return MissingCode(state); }
      if request.exchange.Err? { return ExchangeFailed(request.exchange.error, state); }
      outcome := ResolveIdentity(state, request.exchange.value);
    }

    method ResolveIdentity(state: State, result: TokenResponse) returns (outcome: Outcome)
      requires Valid()
      modifies this`enrollments, this`nextEnrollment
      ensures Valid() && Resolves(state, result, old(enrollments), enrollments, outcome)
    {
      var scope := if state.scope.Some? then state.scope.value else [];
      var row := GetEnrollmentByProviderAndAccount(state.provider, result.accountId);
      if row.Some? {
        var enrollment := enrollments[row.value];
        if state.identity.Some? && state.identity.value != enrollment.identity { return IdentityMismatch(state); }
        enrollment := enrollment.(grant := result.grant);
        enrollment := enrollment.(scope := scope);
        enrollments := enrollments[row.value := enrollment];
        return Enrolled(row.value, enrollment, state);
      }
      if state.identity.Some? {
        var enrollment := Enrollment(state.identity.value, state.provider, result.accountId, result.grant, scope);
        var id := nextEnrollment;
        enrollments := enrollments[id := enrollment];
        nextEnrollment := nextEnrollment + 1;
        return Enrolled(id, enrollment, state);
      }
      return SignUp(Account(state.provider, result.accountId, result.grant, scope), state);
    }

    method Enroll(identity: Identity, account: Account) returns (id: Id, enrollment: Enrollment)
      requires Valid()
      modifies this`enrollments, this`nextEnrollment
      ensures Valid() && Steps(old(Current()), Event.Enroll(identity, account, id), Current())
      ensures enrollment == enrollments[id] == FromAccount(identity, account)
    {
      enrollment := FromAccount(identity, account);
      id := nextEnrollment;
      enrollments := enrollments[id := enrollment];
      nextEnrollment := nextEnrollment + 1;
    }
  }
}
