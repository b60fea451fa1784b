/** The authentication session service: session objects updated in place, over a store of rows. */
module AuthenticationService {
  import opened Wrappers
  import opened Tokens
  import opened AuthenticationPaths
  import opened Crypto

  type Context = map<string, string>

  datatype Row = Row(tokenHash: TokenHash, expiresAt: int, context: Option<Context>, progress: Progress)

  datatype Error =
    | InvalidSessionToken
    | UnencodableToken  // the UnicodeEncodeError that hashing raises and nothing catches here
    | ExpiredSession
    | UnavailableFactor
    | IdentityNotAttached
    | FactorsRemaining(factors: set<Factor>)

  class AuthenticationSession {
    var id: nat
    var tokenHash: TokenHash
    var expiresAt: int
    var identityId: Option<Identity>
    var step: int
    var amr: seq<Method>
    var usedFactors: seq<string>
    var context: Option<Context>

    constructor (id: nat, row: Row)
      ensures this.id == id && AsRow() == row
    {
      this.id, tokenHash, expiresAt, context := id, row.tokenHash, row.expiresAt, row.context;
      identityId, step, amr, usedFactors := row.progress.identity, row.progress.step, row.progress.amr, row.progress.used;
    }

    function SoFar(): Progress
      reads this
    {
      Progress(identityId, step, amr, usedFactors)
    }

    function AsRow(): Row
      reads this
    {
      Row(tokenHash, expiresAt, context, SoFar())
    }

    method IsExpired(now: int) returns (r: bool)
      ensures r <==> expiresAt <= now
    {
      r := now >= expiresAt;
    }
  }

  class AuthenticationSessionService {
    const factors: set<Factor>
    const lifetime: int
    var rows: map<nat, Row>
    /** The enrollments the factors currently report. */
    var enrolled: Enrollments
    var nextId: nat

    /** Every stored session was reached by advances from the start. */
    ghost predicate Valid()
      reads this
    {
      && AllBuilt(factors)
      && (forall id | id in rows :: id < nextId && Reached(factors, rows[id].progress))
    }

    constructor (factors: set<Factor>, lifetime: int, enrolled: Enrollments)
      requires AllBuilt(factors)
      ensures Valid() && rows == map[] && this.factors == factors && this.lifetime == lifetime && this.enrolled == enrolled
    {
      this.factors, this.lifetime, this.enrolled := factors, lifetime, enrolled;
      rows, nextId := map[], 0;
    }

    /** The store's lookup; the object it returns is a copy of the row. */
    method GetByTokenHash(h: TokenHash) returns (session: AuthenticationSession?)
      ensures session == null ==> forall id | id in rows :: rows[id].tokenHash != h
      ensures session != null ==> fresh(session) && session.id in rows && session.AsRow() == rows[session.id] && session.tokenHash == h
    {
      var rest := rows.Keys;
      while rest != {}
        invariant rest <= rows.Keys && forall id | id in rows && id !in rest :: rows[id].tokenHash != h
      {
        var id :| id in rest;
        if rows[id].tokenHash == h {
          session := new AuthenticationSession(id, rows[id]);
          return;
        }
        rest := rest - {id};
      }
      return null;
    }

    /** `token` is the newly generated token; it has no hash if the configured prefix holds a lone surrogate. */
    method Start(token: Token, now: int, context: Option<Context>) returns (r: Result<AuthenticationSession, Error>)
      requires Valid()
      modifies this`rows, this`nextId
      ensures Valid() && (r.Ok? <==> Encodable(token))
      ensures r.Err? ==> r.error == UnencodableToken && rows == old(rows)
      ensures r.Ok? ==>
        && fresh(r.value) && Reached(factors, r.value.SoFar())
        && r.value.id !in old(rows) && rows == old(rows)[r.value.id := r.value.AsRow()]
        && r.value.SoFar() == START && r.value.tokenHash == Hash(token) && r.value.expiresAt == now + lifetime
        && (r.value.context.Some? <==> context.Some? && context.value != map[])
        && (r.value.context.Some? ==> r.value.context == context)
    {
      var hash := GetTokenHash(token);
      if hash.None? { return Err(UnencodableToken); }
      var row := Row(hash.value, now + lifetime, if context == Some(map[]) then None else context, START);
      assert Path(factors, START, []) && After(START, []) == START;
      var session := new AuthenticationSession(nextId, row);
      rows := rows[nextId := row];
      nextId := nextId + 1;
      return Ok(session);
    }

    method Validate(token: Token, now: int) returns (r: Result<AuthenticationSession, Error>)
      requires Valid()
      ensures ValidateOutcome(rows, token, now, if r.Ok? then Ok(r.value.id) else Err(r.error))
      ensures r.Ok? ==>
        fresh(r.value) && r.value.id in rows && r.value.AsRow() == rows[r.value.id] && Reached(factors, r.value.SoFar())
    {
      var hash := GetTokenHash(token);
      if hash.None? { return Err(UnencodableToken); }
      var session := GetByTokenHash(hash.value);
      if session == null { return Err(InvalidSessionToken); }
      var expired := session.IsExpired(now);
      if expired { return Err(ExpiredSession); }
      return Ok(session);
    }

    method GetAvailableFactors(session: AuthenticationSession) returns (available: set<Factor>)
      ensures available == Available(factors, enrolled, session.SoFar())
    {
      available := {};
      var rest := factors;
      while rest != {}
        invariant rest <= factors
        invariant available == set f | f in factors && f !in rest && IsAvailable(f, enrolled, session.SoFar())
      {
        var factor :| factor in rest;
        rest := rest - {factor};
        if factor.amr in session.amr { continue; }
        if factor.step != session.step { continue; }
        if session.identityId.Some? {
          if (factor.key, session.identityId.value) !in enrolled { continue; }
        }
        available := available + {factor};
      }
    }

    /** Advancing succeeds exactly with an available factor, and otherwise changes nothing. A deleted row stays deleted. */
    method Advance(session: AuthenticationSession, identityId: Identity, factor: Factor) returns (r: Result<(), Error>)
      requires Valid() && Reached(factors, session.SoFar())
      modifies this`rows, session
      ensures Valid() && Reached(factors, session.SoFar())
      ensures r.Ok? <==> factor in Available(factors, enrolled, old(session.SoFar()))
      ensures r.Err? ==> r.error == UnavailableFactor && session.AsRow() == old(session.AsRow()) && rows == old(rows)
      ensures r.Ok? ==>
        && session.AsRow() == old(session.AsRow()).(progress := Advanced(old(session.SoFar()), identityId, factor))
        && rows == (if session.id in old(rows) then old(rows)[session.id := session.AsRow()] else old(rows))
      ensures session.id == old(session.id)
    {
      var available := GetAvailableFactors(session);
      if factor !in available { return Err(UnavailableFactor); }
      ghost var before := session.SoFar();
      session.identityId := Some(identityId);
      session.amr := session.amr + [factor.amr];
      session.usedFactors := session.usedFactors + [factor.identifier];
      session.step := session.step + factor.advanceBy;
      ReachedAdvances(factors, before, Move(identityId, factor, enrolled));
      if session.id in rows { rows := rows[session.id := session.AsRow()]; }
      return Ok(());
    }

    /** Completing succeeds exactly when an identity is attached and no advance is enabled, and then deletes the session. */
    method Complete(session: AuthenticationSession) returns (r: Result<(Identity, seq<Method>), Error>)
      requires Valid() && Reached(factors, session.SoFar())
      modifies this`rows
      ensures Valid()
      ensures r.Ok? <==> CanComplete(factors, enrolled, session.SoFar())
      ensures r.Ok? ==>
        && r.value == (session.identityId.value, session.amr) && rows == old(rows) - {session.id}
        && 1 <= |r.value.1| <= |StepsFrom(factors, 0)|
        && forall i, j | 0 <= i < j < |r.value.1| :: r.value.1[i] != r.value.1[j]
      ensures r.Err? ==> rows == old(rows)
      ensures r.Err? && session.identityId.None? ==> r.error.IdentityNotAttached?
      ensures r.Err? && session.identityId.Some? ==> r.error == FactorsRemaining(Available(factors, enrolled, session.SoFar()))
    {
      if session.identityId.None? { return Err(IdentityNotAttached); }
      var available := GetAvailableFactors(session);
      if available != {} { return Err(FactorsRemaining(available)); }
      CompletionMeaning(factors, enrolled, session.SoFar());
      rows := rows - {session.id};
      return Ok((session.identityId.value, session.amr));
    }
  }

  /** What validating a token may come to: a row that has its hash, and has not expired, or the reason why there is none. */
  ghost predicate ValidateOutcome(rows: map<nat, Row>, token: Token, now: int, r: Result<nat, Error>) {
    match r
    case Ok(id) => Encodable(token) && id in rows && rows[id].tokenHash == Hash(token) && now < rows[id].expiresAt
    case Err(UnencodableToken) => !Encodable(token)
    case Err(ExpiredSession) =>
      Encodable(token) && exists id :: id in rows && rows[id].tokenHash == Hash(token) && rows[id].expiresAt <= now
    case Err(InvalidSessionToken) => Encodable(token) && forall id | id in rows :: rows[id].tokenHash != Hash(token)
    case Err(_) => false
  }

  /**
   A token the library generates leads back to the session it was started
   with, to the second of its expiry, whatever its prefix.
   */
  lemma StartedSessionsValidate(crc: Checksum, prefix: string, random: string, rows: map<nat, Row>, id: nat, now: int,
                                r: Result<nat, Error>)
    requires var token := CodePoints(GenerateToken(crc, prefix, random));
      && id in rows && rows[id].tokenHash == Hash(token) && (forall x | x in rows && x != id :: rows[x].tokenHash != Hash(token))
      && ValidateOutcome(rows, token, now, r)
    ensures r == if now < rows[id].expiresAt then Ok(id) else Err(ExpiredSession)
  {
    GeneratedTokensHaveHashes(crc, prefix, random);
  }

  lemma ReachedAdvances(factors: set<Factor>, p: Progress, move: Move)
    requires Reached(factors, p) && move.factor in Available(factors, move.enrolled, p)
    ensures Reached(factors, Advanced(p, move.identity, move.factor))
  {
    var moves :| Path(factors, START, moves) && p == After(START, moves);
    PathSplit(factors, START, moves, [move]);
  }
}
