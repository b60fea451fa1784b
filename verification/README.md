# Reauth, verified

A Dafny model of the stateful core of Reauth, an authentication toolkit for Python, with proofs of what
it keeps over whole runs. `dafny verify dfyconfig.toml` checks everything.

## Identity sessions

Access and refresh tokens are issued in pairs; a refresh consumes its token and replaces the session; a
consumed token presented again revokes the whole family; every generation ends at the deadline fixed at
the first issuance. The service's calls are not atomic: only the store's `insert`, `replace` and
`revoke_family` are.

- `IdentityMachine` is the step machine: rows, clock, drawn tokens, and any number of calls, each with a
  program counter and the row it read. Every store call and every reading of the clock is a step of its
  own (`NextPc` and `NextDb` follow `reauth/identity_session.py` 116-369, `Insert`, `Replaceable`, `Replace`
  and `RevokeFamily` the contracts at 371-458). What a lookup finds, which tokens are drawn and which id
  a row gets are chosen by the step.
- `IdentityFamilies` is the abstract view: a family is a chain of members with one revocation time, one
  deadline, one set of claims. `IdentityInvariant` proves that every step keeps the rows in that form.
- `IdentityRuns` and `IdentityRaces` hold the theorems about reachable states and runs, `IdentityRaceOutcome`
  the exact condition for a race to revoke, `IdentityLateRace` a run in which racing calls revoke nothing.
- `IdentityAtomic` says what an atomic call would do, outcome by outcome; `IdentityLinear` proves that every
  finished call of every interleaving did just that at one of its own steps.
- `IdentityLifetimes` says what the tokens handed out are good for: how long each lives, that it works until
  then, and which moment a revocation carries.
- `IdentityService` is the service class, statement by statement, with arbitrary other calls running at
  each await. Each public method is proved to be one call of the machine, begun and finished, and to have
  taken effect atomically. `Valid()` makes every state of the object a reachable one, so all theorems about
  reachable states hold of it.

## The other modules

- `AuthenticationPaths`, `AuthenticationService`: multi-factor sessions, as paths of advances and as the
  class that updates session objects in place.
- `Hotp`, `Totp` (with `OneTimePasswords`): the search loops, their exact windows, replay over whole runs, and the
  synchronisation of a client with the server. The code of a counter or time step is an arbitrary function,
  and so is the normalisation of submitted codes; collisions are allowed.
- `Crypto`: token layout and the base-62 checksum. `BackupCodes`: single-use codes.
- `Utf8`: which tokens can be hashed, as RFC 3629 has it.
- `OAuth2Bindings`, `OAuth2Service`: single-use states and the binding of accounts to identities.
- `Tokens`, `Wrappers`, `Sets`: tokens and their hashes, option and result types, set sizes.

## What the proofs found

- **Racing refreshes do not always revoke.** A refresh that looked its row up before another call replaced
  it, and reads the clock only after the deadline, reports an expired token and revokes nothing
  (`LateLoserRevokesNothing`). `RaceRevokesIffInTime` gives the exact condition: the family ends revoked if
  and only if no step of the loser met the clock at or past the deadline in the check at line 364, or some
  other call revoked the family in one of its own steps. Safety does not suffer:
  `RaceLeavesNothingAlive` shows that after such a race no token of the family works, for by then the
  deadline has passed.
- **A replayed HOTP code can push the server past the client** when a later counter happens to share its
  code. `OvertakingNeedsReplay` is the exact condition: for every way of computing codes the server stays
  behind, if and only if the code is not behind the server's counter or the window ends before the client's.
- **`enroll` of the OAuth2 factor inserts without looking.** A run keeps one enrollment per account if and
  only if every `enroll` met an absent account (`RunUniqueIffGuarded`), and one identity per account if and
  only if none named a different identity than the account had (`OneIdentityIffAgrees`).
- **The identity of an authentication session is whatever the last advance names**: the new factor's
  enrollment is checked for the identity attached before. That every factor after the first was enrolled for
  the final identity holds if and only if the advances name one identity (`EnrolledIffOneIdentity`).
- **An HOTP code resynchronises unless a counter before the client's shares it** (`SubmitOutcome`): then the
  server stops short of the client.
- A service with no factor at step 0 can neither advance nor complete (`MaximalRunsComplete`).

Where the code differs from its own text, the model follows the code. `reauth/factors/oauth2/state.py` 105
calls `consume` atomic, but it looks up and deletes in two calls; the model takes each OAuth2 call as one
step. An expired state is not deleted. A token without a UTF-8 encoding is caught by the identity session
service, but escapes as an encoding error from `reauth/authentication_session.py` 111 and 146,
`reauth/factors/backup_codes.py` 130 and 180, and `reauth/factors/oauth2/state.py` 77 and 118; the model
returns an error of its own there. At line 130 of `backup_codes.py` the earlier codes are gone by then. The store in `tests/test_identity_session.py` 92-101 skips the checks that the docstring of
`replace` demands; the model has them.

## Model

| member | source | states |
|---|---|---|
| IdentityInvariant.NextInv | reauth/identity_session.py:371-458 | every step of every interleaved call keeps the invariant, and moves the families by at most one atomic operation: found, rotate or revoke a family |
| IdentityInvariant.NextEvolves | reauth/identity_session.py:417-458 | the clock never goes back, no row disappears, hashes, lineage and claims never change, and a replacement or first revocation time once set stays |
| IdentityInvariant.RejectedIsUnusable | reauth/identity_session.py:424-428 | a rejected replacement means the token is revoked, replaced or past its deadline, which are the reasons the second validation meets |
| IdentityInvariant.UnusableIsStable | reauth/identity_session.py:235-239 | each of these reasons is permanent under any further steps |
| IdentityFamilies.ReplaceableIsHead | reauth/identity_session.py:424-428 | what `replace` accepts is the unreplaced head of an unrevoked family before its deadline |
| IdentityFamilies.ReplaceRepresents | reauth/identity_session.py:430-432 | inserting the replacement and linking it appends one member to exactly one family |
| IdentityFamilies.RevokeRepresents | reauth/identity_session.py:445-456 | revoking a family marks all its members and no one else's |
| IdentityRuns.ReachableInv | reauth/identity_session.py:81-88 | in every reachable state of any interleaving the rows are the members of families, calls know earlier versions of stored rows, and no token is shared |
| IdentityRuns.FamilyIsChain | reauth/identity_session.py:226-244 | the rows of a family form one chain without repetition, from the root along `replaced_by_id` to the one unreplaced session |
| IdentityRuns.OneLiveAccessToken | reauth/identity_session.py:177-190 | at most one access token of a family is accepted at any time |
| IdentityRuns.ClaimsAreInherited | reauth/identity_session.py:227-234 | identity, methods and context are equal throughout a family |
| IdentityRuns.RevocationIsWhole | reauth/identity_session.py:445-452 | the rows of a family are all revoked, at one time, or all unrevoked |
| IdentityRuns.RevocationIsFinal | reauth/identity_session.py:417-458 | after a family is revoked no later step, in flight or not, adds, revives or changes one of its rows |
| IdentityRuns.OtherFamiliesUntouched | reauth/identity_session.py:266-267 | a call changes stored rows only in the family its own token belongs to |
| IdentityRuns.DeadlineCapsEveryGeneration | reauth/identity_session.py:301-329 | every generation expires by the root's deadline, the last one without a refresh token included, and from the deadline on nothing of the family is accepted |
| IdentityRuns.NothingOutlivesLifetimes | reauth/identity_session.py:307-313 | no stored expiry is more than one access lifetime ahead of the clock, no deadline more than one refresh lifetime |
| IdentityRuns.FallbackIsUnreachable | reauth/identity_session.py:236-239 | the raise after the second validation is never reached |
| IdentityRaces.ReuseRevokesFamily | reauth/identity_session.py:349-360 | presenting a consumed refresh token, of any generation and even past the deadline, is refused and ends with its whole family revoked |
| IdentityRaces.RevokedTokenIsInvalid | reauth/identity_session.py:350-352 | a refresh begun when the family was already revoked is refused as invalid, never reported as a reuse |
| IdentityRaces.RevokedFamilyIsDead | reauth/identity_session.py:246-271 | once a revocation by either token of any member has returned, no token of the family ever works again and no row is added |
| IdentityRaces.LoserRevokesOrExpires | reauth/identity_session.py:235-239 | of two refreshes of one token at most one gets credentials; the other leaves the family revoked unless it reports the deadline |
| IdentityRaces.RaceLeavesNothingAlive | reauth/identity_session.py:349-369 | when two refreshes of one token have finished and one got credentials, nothing of the family works, the winner's credentials included |
| IdentityRaces.RevocationHasCause | reauth/identity_session.py:353-360 | no family is revoked unless one of its own tokens was revoked or a spent one was presented again |
| IdentityRaceOutcome.RaceRevokesIffInTime | reauth/identity_session.py:364-368 | after a race the family is revoked if and only if no step of the loser found the clock at or past the deadline, or another call revoked the family |
| IdentityRaceOutcome.ExpiredIffChecksLate | reauth/identity_session.py:364-368 | a call reports the deadline if and only if one of its own steps compared the clock with it too late |
| IdentityRaceOutcome.RevokedIffRevokesAt | reauth/identity_session.py:445-456 | over any run a row turns revoked if and only if some call took a revoking step on its family |
| IdentityLateRace.LateLoserRevokesNothing | reauth/identity_session.py:349-368 | for every positive refresh lifetime and every starting time there is a race that ends exactly at the family's deadline and leaves the family unrevoked |
| IdentityLifetimes.CreationKeepsPromise | reauth/identity_session.py:297-330 | an access token lives for the access lifetime or to the deadline, whichever ends first; the deadline of a new family is one refresh lifetime ahead, an inherited one stays; claims are copied, an empty context is none |
| IdentityLifetimes.CredentialsKeepPromises | reauth/identity_session.py:116-244 | credentials handed out in any run were created at one of the call's own steps with the lifetimes counted from that clock reading; their stored row is that session, and a refreshed row points to it |
| IdentityLifetimes.LiveTokenIsAccepted | reauth/identity_session.py:155-190 | a validation that finishes while the row is unrevoked, unreplaced and unexpired accepts the token and returns that row; every refusal is true of the row |
| IdentityLifetimes.IssuedTokenIsAccepted | reauth/identity_session.py:116-190 | the access token of credentials handed out is accepted to the second of its promised expiry, while its row is unrevoked and unreplaced |
| IdentityLifetimes.LiveTokenIsExchanged | reauth/identity_session.py:192-244 | a finished refresh of a stored token replaced the row by what it hands out, unless the row is revoked or its deadline has passed |
| IdentityLifetimes.RevocationTimeIsRead | reauth/identity_session.py:266-267 | the revocation time of a row is what the clock read when some call stamped a session of its family |
| IdentityLinear.FinishedCallsAreAtomic | reauth/identity_session.py:116-271 | every finished call took effect, with the outcome it reports, at one of its own steps, as an atomic call would |
| IdentityLinear.OnlyFinishingStepsChangeFamilies | reauth/identity_session.py:116-271 | a step that changes the families finishes its call and is the moment that call takes effect |
| IdentityLinear.ReplaceIsAtomic | reauth/identity_session.py:226-244 | a successful replacement rotates the live head whose token was presented, with credentials created from the family's claims and deadline |
| IdentityLinear.AcceptedTokensWereLive | reauth/identity_session.py:155-190 | at some step of the call that accepted it, an accepted access token was that of the live head of an unrevoked family, unexpired, and the session returned is that head |
| IdentityService.IdentitySessionService.Issue | reauth/identity_session.py:116-153 | with anything running at its awaits, issuing is one call of the machine, takes effect as one atomic founding of a family, and hands out credentials it created at one of its own steps with the lifetimes they promise |
| IdentityService.IdentitySessionService.Validate | reauth/identity_session.py:155-190 | likewise; accepted only if at one of its steps the token was the unexpired access token of a live head, invalid only if no live head had it, expired only if its session's expiry had passed |
| IdentityService.IdentitySessionService.Refresh | reauth/identity_session.py:192-244 | likewise; a rotation to credentials that keep their promise under the family's deadline, a revocation of the reused token's family, or a refusal that changes nothing, each under its own condition |
| IdentityService.IdentitySessionService.Revoke | reauth/identity_session.py:246-271 | likewise; never raises, and revokes the family of either kind of token if it is known |
| IdentityService.IdentitySessionService.ValidateRefreshTokenHash | reauth/identity_session.py:332-369 | ends at the refusal it returns, with the family revoked before a reuse is reported, or at the looked-up session |
| IdentityService.IdentitySessionService.NewSession | reauth/identity_session.py:297-330 | the statements compute the machine's new session, of which `CreationKeepsPromise` says what it holds |
| IdentityService.IdentitySessionService.ReplaceSession | reauth/identity_session.py:417-442 | the store's replacement either links the new row or changes nothing |
| IdentityService.IdentitySessionService.GetByRefreshTokenHash | reauth/identity_session.py:401-415 | a stored row that has the hash, whatever its state, or none if there is none |
| AuthenticationPaths.GuardIsExact | reauth/factors/base.py:43-44 | the constructor accepts an advance if and only if no set of factors advancing by it, however configured, allows more advances than it has steps |
| AuthenticationPaths.AfterRecords | reauth/authentication_session.py:212-217 | the step is the sum of the advances, methods and used factors list the moves in order, the identity is the last one named |
| AuthenticationPaths.StepOfMove | reauth/authentication_session.py:176-177 | each used factor sits at the sum of the advances before it |
| AuthenticationPaths.StepsIncrease | reauth/authentication_session.py:212-217 | the steps of the used factors strictly increase |
| AuthenticationPaths.MethodsAreDistinct | reauth/authentication_session.py:172-174 | no method is used twice on any path, so factors that share one never add up |
| AuthenticationPaths.AvailableAfter | reauth/authentication_session.py:158-186 | after any path exactly those factors are available that wait at the sum of the advances, whose method is unused, and that are enrolled for whom the last move named |
| AuthenticationPaths.AdvanceShrinksSteps | reauth/authentication_session.py:208-217 | every advance uses up at least one of the steps at which factors wait |
| AuthenticationPaths.RunsAreBounded | reauth/authentication_session.py:208-217 | no run has more advances than there are distinct factor steps, whoever advances |
| AuthenticationPaths.MaximalRunsComplete | reauth/authentication_session.py:256-274 | with identity and enrollments fixed, a run that cannot be extended can be completed, if and only if some factor sits at step 0 |
| AuthenticationPaths.EveryRunCanBeFinished | reauth/authentication_session.py:158-186 | from any session one identity can advance until nothing is left, within the bound |
| AuthenticationPaths.CompletionMeaning | reauth/authentication_session.py:256-283 | a completed session used at least one factor and no method twice |
| AuthenticationPaths.LaterFactorsWereEnrolled | reauth/authentication_session.py:178-184 | if all advances name one identity, every factor after the first was enrolled for it |
| AuthenticationPaths.EnrolledIffOneIdentity | reauth/authentication_session.py:178-212 | whatever identities the advances name: every factor after the first is certain to be enrolled for the final identity if and only if they name one identity throughout |
| AuthenticationService.AuthenticationSessionService.Start | reauth/authentication_session.py:99-129 | a fresh session at the start, stored under a new id with its expiry and context, if and only if the token can be hashed |
| AuthenticationService.AuthenticationSessionService.Validate | reauth/authentication_session.py:131-156 | a copy of the unexpired row of the token, or exactly the matching error |
| AuthenticationService.StartedSessionsValidate | reauth/authentication_session.py:131-156 | a generated token, whatever its prefix, leads back to the session started with it to the second of its expiry, and is expired from then on |
| AuthenticationService.AuthenticationSessionService.GetAvailableFactors | reauth/authentication_session.py:158-186 | the loop collects exactly the unused, current and, with an identity, enrolled factors |
| AuthenticationService.AuthenticationSessionService.Advance | reauth/authentication_session.py:188-231 | succeeds if and only if the factor is available, and then extends the session's path by one move in object and store; otherwise changes nothing |
| AuthenticationService.AuthenticationSessionService.Complete | reauth/authentication_session.py:233-283 | succeeds if and only if an identity is attached and nothing is available; returns distinct methods, at least one, and deletes the session |
| Hotp.FirstMatch | reauth/factors/hotp.py:279-288 | the least matching counter of the window, or none matches |
| Hotp.HotpFactor.VerifyCode | reauth/factors/hotp.py:274-291 | succeeds if and only if the normalised code is well formed and is that of the stored counter or one at most `look_ahead` after it, and moves just past the least such counter |
| Hotp.HotpFactor.Enroll | reauth/factors/hotp.py:132-179 | replaces a disabled enrollment, refuses an enabled one |
| Hotp.HotpFactor.Enable | reauth/factors/hotp.py:181-226 | the enabling step of the run, or the error, with the store otherwise unchanged |
| Hotp.HotpFactor.Verify | reauth/factors/hotp.py:228-272 | the verifying step of the run, or the error, with the store otherwise unchanged |
| Hotp.EventMeaning | reauth/factors/hotp.py:181-291 | in terms of the codes alone: an event succeeds if and only if the factor is enabled or not as it needs and the code is that of the stored counter or one at most `look_ahead` after it; then the factor is enabled and just past the least such counter |
| Hotp.EnabledIffAccepted | reauth/factors/hotp.py:181-272 | after any run the factor is enabled if and only if it was or some code was accepted |
| Hotp.WindowIsExact | reauth/factors/hotp.py:279-288 | the code of a counter is accepted, whatever way codes are computed, if and only if the counter is the stored one or at most `look_ahead` after it |
| OneTimePasswords.WellFormedIffNumeral | reauth/factors/hotp.py:275-277 | the codes let through to the search are exactly the zero-padded decimal numerals of the configured length |
| Hotp.AcceptedCountersIncrease | reauth/factors/hotp.py:181-291 | over any run accepted counters strictly increase, the enabling one included; the stored counter is at least the number of successes; failures change nothing |
| Hotp.ServerNeverOvertakes | reauth/factors/hotp.py:274-291 | over runs of presses and harmless resubmissions the server's counter never overtakes the client's, collisions or not |
| Hotp.OvertakingNeedsReplay | reauth/factors/hotp.py:279-290 | a resubmission is harmless, so that no way of computing codes lets it push the server past the client, if and only if its counter is not behind the server's or the window ends before the client's |
| Hotp.ClientStaysInStep | reauth/factors/hotp.py:274-291 | while the lead plus the unsubmitted presses stay within the look-ahead, every submitted code is accepted, with harmless resubmissions in between, collisions or not |
| Hotp.SubmitOutcome | reauth/factors/hotp.py:279-290 | a submitted code brings both counters together if and only if the lead is within the look-ahead and no counter before the client's shares the code; it changes nothing if and only if no counter of the window has it |
| Hotp.DistinctCodesResynchronise | reauth/factors/hotp.py:286-290 | without a collision in the window the window is exact and an accepted code brings both counters together |
| Hotp.UnambiguousCodesExist | reauth/factors/hotp.py:279-290 | for every client, server and window there are codes without such a collision |
| Totp.FirstMatch | reauth/factors/totp.py:292-313 | the least matching time step of the window above the last verified one, or none matches |
| Totp.DriftedStep | reauth/factors/totp.py:294-297 | shifting the time by whole periods shifts the time step by as many |
| Totp.TotpFactor.VerifyCode | reauth/factors/totp.py:286-313 | accepts exactly when an open time step within the drift of the clock's matches, and records the least |
| Totp.TotpFactor.Enroll | reauth/factors/totp.py:145-193 | replaces a disabled enrollment, refuses an enabled one |
| Totp.TotpFactor.Enable | reauth/factors/totp.py:195-240 | the enabling step of the run, or the error, with the store otherwise unchanged |
| Totp.TotpFactor.Verify | reauth/factors/totp.py:242-284 | the verifying step of the run, or the error, with the store otherwise unchanged |
| Totp.EventMeaning | reauth/factors/totp.py:195-313 | in terms of the codes alone: an event succeeds if and only if the factor is enabled or not as it needs and the code is that of a time step within the drift and after the last verified one; then the factor is enabled and the least such step verified |
| Totp.EnabledIffAccepted | reauth/factors/totp.py:195-284 | after any run the factor is enabled if and only if it was or some code was accepted |
| Totp.WindowIsExact | reauth/factors/totp.py:292-312 | the code of a time step is accepted, whatever way codes are computed, if and only if the step is within the drift and after the last verified one |
| Totp.ClockDriftIsTolerated | reauth/factors/totp.py:292-297 | a client whose clock is off by at most the drift in time steps is accepted with its current code, if not yet used |
| Totp.AcceptedStepsIncrease | reauth/factors/totp.py:299-312 | over any run accepted time steps strictly increase, even if the clock goes back |
| Totp.SuccessesAreBounded | reauth/factors/totp.py:195-313 | while the clock stays in time steps a to b, at most b - a + 1 + 2 * drift codes of one enrollment are accepted |
| Crypto.Crc32ToBase62 | reauth/crypto.py:13-20 | the loop and the padding compute the encoding |
| Crypto.DecodeEncode | reauth/crypto.py:13-20 | decoding the padded encoding gives the number back, however large |
| Crypto.SixCharacters | reauth/crypto.py:20 | the encoding has six characters exactly for numbers below 62^6 |
| Crypto.ChecksumsFit | reauth/crypto.py:58-60 | every 32-bit checksum has six characters; five would not do |
| Crypto.EncodePreservesOrder | reauth/crypto.py:14-20 | on 32-bit numbers the encoding preserves order and is injective |
| Crypto.TokenSplits | reauth/crypto.py:50-63 | a token is its prefix and 43 characters, and splits back into random part and checksum |
| Crypto.TokensDetermineParts | reauth/crypto.py:50-63 | two tokens are equal only with equal prefixes and equal random parts |
| Crypto.GeneratedTokensHaveHashes | reauth/crypto.py:66-82 | every generated token can be hashed |
| Crypto.HashesDetermineParts | reauth/crypto.py:66-82 | two generated tokens have equal hashes only with equal prefixes and equal random parts |
| Crypto.PrefixDecides | reauth/crypto.py:33-63 | with an arbitrary prefix, tokens can be hashed if and only if the prefix holds no surrogate |
| Utf8.EncodableIffSpelled | reauth/crypto.py:23-34 | a token can be hashed if and only if some bytes spell it under the UTF-8 grammar |
| Utf8.EncodingsAreDistinct | reauth/crypto.py:33 | tokens that can be hashed have equal encodings only if they are equal |
| BackupCodes.BackupCodesFactor.Enroll | reauth/factors/backup_codes.py:92-149 | any earlier set is replaced by the hashes of the new codes, none used; if some code has no hash, the earlier set is gone all the same |
| BackupCodes.BackupCodesFactor.Verify | reauth/factors/backup_codes.py:151-204 | the first failing check decides the error; success records the hash and nothing else |
| BackupCodes.RunKeepsSound | reauth/factors/backup_codes.py:182-199 | over any run the used hashes are distinct enrolled ones, one per success |
| BackupCodes.UnusedCodesStillWork | reauth/factors/backup_codes.py:182-199 | after any presentations a code succeeds if and only if it is enrolled, was unused before, and is not among those presented |
| BackupCodes.CodeOutcome | reauth/factors/backup_codes.py:151-204 | a presented code succeeds if and only if it was drawn and not presented since, is reported used if and only if it was drawn and presented, and invalid if and only if it can be hashed but was not drawn |
| BackupCodes.CodesAreSingleUse | reauth/factors/backup_codes.py:190-198 | no code succeeds twice |
| BackupCodes.SuccessesAreBounded | reauth/factors/backup_codes.py:122-131 | successes are at most the distinct enrolled hashes, hence at most the codes drawn |
| OAuth2Bindings.StatesAreSingleUse | reauth/factors/oauth2/state.py:117-140 | a state token gets past its consumption at most once in any run |
| OAuth2Bindings.StateOutcome | reauth/factors/oauth2/state.py:103-140 | a callback with a generated state token is invalid once the state was consumed, and before that gets the stored state to the second of its expiry and is expired from then on |
| OAuth2Bindings.UndrawnStatesAreInvalid | reauth/factors/oauth2/state.py:118-123 | a token never generated is no state |
| OAuth2Bindings.ErrorsTellCodes | reauth/factors/oauth2/base.py:191-199 | each standard error comes from its own code, and every error tells the code it came from |
| OAuth2Bindings.ParametersDecide | reauth/factors/oauth2/base.py:363-403 | past the state, an error parameter, a missing code and a failed exchange decide, in this order |
| OAuth2Bindings.AccountDecides | reauth/factors/oauth2/base.py:412-514 | then sign-up if and only if account and identity are both unknown, mismatch if and only if the account is someone else's than the state's |
| OAuth2Bindings.CallbackStores | reauth/factors/oauth2/base.py:412-490 | an enrolling callback stores the tokens it obtained and the scope asked for in the account's row, old or new, and touches no other row |
| OAuth2Bindings.SignUpThenEnroll | reauth/factors/oauth2/base.py:493-543 | enrolling the account that a sign-up returned stores what that callback obtained |
| OAuth2Bindings.BindingsOnlyGrow | reauth/factors/oauth2/base.py:412-490 | an account once bound to an identity stays bound to it |
| OAuth2Bindings.UniqueIffGuarded | reauth/factors/oauth2/base.py:516-543 | after a step there is one enrollment per account if and only if there was before and the step is no `enroll` of an account already there |
| OAuth2Bindings.RunUniqueIffGuarded | reauth/factors/oauth2/base.py:412-543 | at any point of a run there is one enrollment per account if and only if every `enroll` so far met an absent account |
| OAuth2Bindings.OneIdentityIffAgrees | reauth/factors/oauth2/base.py:412-543 | at any point of a run every account has one identity if and only if no `enroll` so far named a different one than the account had |
| OAuth2Bindings.NeverRebound | reauth/factors/oauth2/base.py:412-543 | in such a run an account bound to an identity is never bound to another, then or later |
| OAuth2Bindings.CallbackIdentity | reauth/factors/oauth2/base.py:412-514 | in such a run a callback returns the account's one identity, or binds the state's; every other outcome leaves the enrollments unchanged |
| OAuth2Service.OAuth2Factor.Start | reauth/factors/oauth2/state.py:58-101 | stores a state for the new token, with the factor as provider, if and only if the token can be hashed |
| OAuth2Service.OAuth2Factor.Consume | reauth/factors/oauth2/state.py:103-140 | returns and deletes a live state, or reports why there is none and changes nothing |
| OAuth2Service.OAuth2Factor.Callback | reauth/factors/oauth2/base.py:306-514 | is one callback step of the run |
| OAuth2Service.OAuth2Factor.Enroll | reauth/factors/oauth2/base.py:516-543 | inserts the account's enrollment without looking |

## Left out

- Tokens of identity sessions are drawn with prefixes free of lone surrogates; with any other prefix (`Crypto.PrefixDecides`) every issue and refresh would end in an encoding error before storing anything, which the machine does not model.
- Hashing is an injective constructor, random tokens and ids are any unused ones, and a checksum is any 32-bit number; HMAC, CRC-32, HOTP and TOTP values, and probabilities are not part of this model.
- Rows of identity sessions are never deleted, as the class docstring requires until the deadline; any later clean-up is not modelled.
- IdentityService.IdentitySessionService.Refresh: storage failures inside `replace` or `revoke_family`, and cancelled calls, are not modelled; every call that begins may stop forever, but not be undone.
- The NFKC normalisation of submitted codes is an arbitrary function on strings; what it does to a string is not part of this model.
- Totp.TotpFactor.VerifyCode: the library's conversion of a check time to a time step is floor division; it may differ for check times before 1970.
- AuthenticationService.AuthenticationSessionService.Advance: each call of the authentication, one-time-password, backup-code and OAuth2 services is one step; these services promise no atomic store operations to interleave.
- OAuth2Service.OAuth2Factor.Start: the authorization URL, PKCE values and nonces are passed through as data; the provider's token endpoint is an arbitrary answer given to the callback.
- Enrolments, sessions and states are values in the stores, and lookups return copies; aliasing between a store and its callers is not modelled.
- `reauth/factors/email_otp.py`, the provider subclasses, provisioning URIs, logging and messages would add only easier members.
