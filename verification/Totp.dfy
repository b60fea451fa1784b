/**
 Time-based one-time passwords: the drift window, replay protection and the
 number of codes a stretch of time can yield. Different time steps may share a
 code.
 */
module Totp {
  import opened Wrappers
  import opened OneTimePasswords

  type Identity = nat

  /** The TOTP value of a secret and a time step (section 4.2 of RFC 6238). */
  type Codes = (string, int) -> string

  /** The time-step size X of section 4.1 of RFC 6238, in seconds. */
  type Period = n: int | 0 < n witness 1

  datatype Enrollment = Enrollment(identity: Identity, enabled: bool, secret: string, codeLength: int,
                                   timeStep: Period, lastVerified: Option<int>)

  /** The time step has not been verified, and none after it. */
  predicate Open(e: Enrollment, k: int) { e.lastVerified.None? || e.lastVerified.value < k }

  /** The least open time step in [lo, hi] whose code this is. */
  function FirstMatch(codes: Codes, e: Enrollment, code: string, lo: int, hi: int): (r: Option<int>)
    ensures r.Some? ==> lo <= r.value <= hi && Open(e, r.value) && codes(e.secret, r.value) == code
    ensures r.Some? ==> forall k | lo <= k < r.value && Open(e, k) :: codes(e.secret, k) != code
    ensures r.None? ==> forall k | lo <= k <= hi && Open(e, k) :: codes(e.secret, k) != code
    decreases hi - lo
  {
    if hi < lo then None
    else if Open(e, lo) && codes(e.secret, lo) == code then Some(lo)
    else FirstMatch(codes, e, code, lo + 1, hi)
  }

  ghost predicate NoneMatches(codes: Codes, e: Enrollment, code: string, lo: int, hi: int) {
    forall k | lo <= k <= hi && Open(e, k) :: codes(e.secret, k) != code
  }

  lemma LeastIsFirst(codes: Codes, e: Enrollment, code: string, lo: int, hi: int, k: int)
    requires lo <= k <= hi && Open(e, k) && codes(e.secret, k) == code && NoneMatches(codes, e, code, lo, k - 1)
    ensures FirstMatch(codes, e, code, lo, hi) == Some(k)
  {
    var r := FirstMatch(codes, e, code, lo, hi);
    assert r.Some? && Open(e, r.value);
  }

  /** The time step a code is accepted for at Unix time `now`. */
  function Accepted(codes: Codes, drift: int, e: Enrollment, now: int, code: string): Option<int> {
    if WellFormed(code, e.codeLength)
    then FirstMatch(codes, e, code, now / e.timeStep - drift, now / e.timeStep + drift)
    else None
  }

  /** Shifting the time by whole periods shifts the time step. */
  lemma {:induction false} DriftedStep(now: int, k: int, t: int)
    requires 0 < t
    ensures (now + k * t) / t == now / t + k
    decreases if k < 0 then -k else k
  {
    if 0 < k {
      assert now + k * t == now + (k - 1) * t + t;
      DriftedStep(now, k - 1, t);
      OneStep(now + (k - 1) * t, t);
    } else if k < 0 {
      assert now + (k + 1) * t == now + k * t + t;
      DriftedStep(now, k + 1, t);
      OneStep(now + k * t, t);
    }
  }

  lemma OneStep(now: int, t: int)
    requires 0 < t
    ensures (now + t) / t == now / t + 1
  {
    var q, r, q', r' := now / t, now % t, (now + t) / t, (now + t) % t;
    assert now == t * q + r && now + t == t * q' + r';
    var d := q' - q - 1;
    assert t * d == t * q' - t * q - t;
    SmallMultiple(t, d);
  }

  /** A multiple of t strictly between -t and t is zero. */
  lemma SmallMultiple(t: int, d: int)
    requires 0 < t && -t < t * d < t
    ensures d == 0
  {
    if 0 < d { AtLeastOnce(t, d); }
  }

  lemma AtLeastOnce(t: nat, n: nat)
    requires 1 <= n
    ensures t <= t * n
  {
    assert t * n == t * (n - 1) + t;
    assert 0 <= t * (n - 1);
  }

  // ---------- The factor ----------

  class TotpFactor {
    const codes: Codes
    const nfkc: Normaliser
    const codeLength: int
    const timeStep: Period
    const driftTolerance: int
    var store: map<Identity, Enrollment>

    constructor (codes: Codes, nfkc: Normaliser, codeLength: int, timeStep: Period, driftTolerance: int)
      ensures this.codes == codes && this.nfkc == nfkc && this.codeLength == codeLength && this.timeStep == timeStep
      ensures this.driftTolerance == driftTolerance && store == map[]
    {
      this.codes, this.nfkc, this.codeLength := codes, nfkc, codeLength;
      this.timeStep, this.driftTolerance := timeStep, driftTolerance;
      store := map[];
    }

    method GetEnrollment(identity: Identity) returns (r: Option<Enrollment>)
      ensures r.Some? <==> identity in store && store[identity].enabled
      ensures r.Some? ==> r.value == store[identity]
    {
      if identity !in store || !store[identity].enabled { return None; }
      return Some(store[identity]);
    }

    /** `secret` is the newly generated key. */
    method Enroll(identity: Identity, secret: string) returns (r: Result<Enrollment, Error>)
      modifies this`store
      ensures r.Ok? <==> !(identity in old(store) && old(store)[identity].enabled)
      ensures r.Err? ==> r.error == AlreadyEnrolled && store == old(store)
      ensures r.Ok? ==>
        r.value == Enrollment(identity, false, secret, codeLength, timeStep, None) && store == old(store)[identity := r.value]
    {
      if identity in store {
        if store[identity].enabled { return Err(AlreadyEnrolled); }
        store := store - {identity};
      }
      var totp := Enrollment(identity, false, secret, codeLength, timeStep, None);
      store := store[identity := totp];
      return Ok(totp);
    }

    /**
     The loop over the drifts accepts exactly when some open time step of the
     window matches, and records the least one.
     */
    method VerifyCode(totp: Enrollment, submitted: string, now: int) returns (r: Result<Enrollment, Error>)
      ensures r.Ok? <==> WellFormed(nfkc(submitted), totp.codeLength) && exists k ::
        now / totp.timeStep - driftTolerance <= k <= now / totp.timeStep + driftTolerance
        && Open(totp, k) && codes(totp.secret, k) == nfkc(submitted)
      ensures r.Ok? ==>
        && r.value.lastVerified.Some? && r.value == totp.(lastVerified := r.value.lastVerified)
        && var k := r.value.lastVerified.value;
           && now / totp.timeStep - driftTolerance <= k <= now / totp.timeStep + driftTolerance
           && (totp.lastVerified.None? || totp.lastVerified.value < k) && codes(totp.secret, k) == nfkc(submitted)
      ensures r.Err? ==> r.error == InvalidCode
      ensures r == match Accepted(codes, driftTolerance, totp, now, nfkc(submitted))
                   case Some(k) => Ok(totp.(lastVerified := Some(k)))
                   case None => Err(InvalidCode)
    {
      var code := nfkc(submitted);
      if !WellFormed(code, totp.codeLength) { return Err(InvalidCode); }
      var drift := -driftTolerance;
      ghost var step := now / totp.timeStep;
      while drift < driftTolerance + 1
        invariant -driftTolerance <= drift
        invariant NoneMatches(codes, totp, code, step - driftTolerance, step + drift - 1)
      {
        var checkTime := now + drift * totp.timeStep;
        var checkTimeStep := checkTime / totp.timeStep;
        assert checkTimeStep == step + drift by { DriftedStep(now, drift, totp.timeStep); }
        drift := drift + 1;
        if totp.lastVerified.Some? && checkTimeStep <= totp.lastVerified.value { continue; }
        if codes(totp.secret, checkTimeStep) == code {
          LeastIsFirst(codes, totp, code, step - driftTolerance, step + driftTolerance, checkTimeStep);
          return Ok(totp.(lastVerified := Some(checkTimeStep)));
        }
      }
      return Err(InvalidCode);
    }

    method Enable(identity: Identity, code: string, now: int) returns (r: Result<Enrollment, Error>)
      modifies this`store
      ensures identity !in old(store) ==> r == Err(NotEnrolled) && store == old(store)
      ensures identity in old(store) ==>
        var e, ev := old(store)[identity], Event.Enable(nfkc(code), now);
        && r == (if e.enabled then Err(AlreadyEnabled) else Outcome(codes, driftTolerance, e, ev))
        && (r.Ok? ==> identity in store && store[identity] == r.value && r.value.enabled)
        && store == old(store)[identity := Step(codes, driftTolerance, e, ev)]
    {
      if identity !in store { return Err(NotEnrolled); }
      var totp := store[identity];
      if totp.enabled {
        assert store == store[identity := totp];
        return Err(AlreadyEnabled);
      }
      r := VerifyCode(totp, code, now);
      if r.Ok? {
        r := Ok(r.value.(enabled := true));
        store := store[identity := r.value];
      } else {
        assert store == store[identity := totp];
      }
    }

    method Verify(identity: Identity, code: string, now: int) returns (r: Result<Enrollment, Error>)
      modifies this`store
      ensures identity !in old(store) ==> r == Err(NotEnrolled) && store == old(store)
      ensures identity in old(store) ==>
        var e, ev := old(store)[identity], Event.Verify(nfkc(code), now);
        && r == (if !e.enabled then Err(NotEnabled) else Outcome(codes, driftTolerance, e, ev))
        && (r.Ok? ==> identity in store && store[identity] == r.value && r.value.enabled)
        && store == old(store)[identity := Step(codes, driftTolerance, e, ev)]
    {
      if identity !in store { return Err(NotEnrolled); }
      var totp := store[identity];
      if !totp.enabled {
        assert store == store[identity := totp];
        return Err(NotEnabled);
      }
      r := VerifyCode(totp, code, now);
      if r.Ok? {
        store := store[identity := r.value];
      } else {
        assert store == store[identity := totp];
      }
    }
  }

  // ---------- Runs of one enrollment ----------

  /** Codes as they are after normalisation, with the clock's reading. */
  datatype Event = Enable(code: string, now: int) | Verify(code: string, now: int)

  function AcceptedEvent(codes: Codes, drift: int, e: Enrollment, ev: Event): Option<int> {
    if ev.Enable? == e.enabled then None else Accepted(codes, drift, e, ev.now, ev.code)
  }

  function Step(codes: Codes, drift: int, e: Enrollment, ev: Event): Enrollment {
    var k := AcceptedEvent(codes, drift, e, ev);
    if k.None? then e else e.(enabled := true, lastVerified := k)
  }

  function Outcome(codes: Codes, drift: int, e: Enrollment, ev: Event): Result<Enrollment, Error> {
    if AcceptedEvent(codes, drift, e, ev).None? then Err(InvalidCode) else Ok(Step(codes, drift, e, ev))
  }

  /**
   What one event does, in terms of the codes alone: it succeeds if and only if
   the factor is enabled or not as the event needs, and the code is that of a
   time step within `drift` of the clock's and after the last verified one;
   then the factor is enabled and the least such time step the last verified
   one. Else nothing changes.
   */
  lemma EventMeaning(codes: Codes, drift: int, e: Enrollment, ev: Event)
    ensures var r := Outcome(codes, drift, e, ev); var step := ev.now / e.timeStep;
      && (r.Ok? <==> ev.Enable? != e.enabled && WellFormed(ev.code, e.codeLength) && exists k ::
            step - drift <= k <= step + drift && (e.lastVerified.None? || e.lastVerified.value < k) && codes(e.secret, k) == ev.code)
      && (r.Ok? ==>
            && r.value.lastVerified.Some?
            && r.value == Enrollment(e.identity, true, e.secret, e.codeLength, e.timeStep, r.value.lastVerified)
            && var last := r.value.lastVerified.value;
               && step - drift <= last <= step + drift && Open(e, last) && codes(e.secret, last) == ev.code
               && forall k | step - drift <= k < last && Open(e, k) :: codes(e.secret, k) != ev.code)
      && (r.Err? ==> r.error == InvalidCode)
      && Step(codes, drift, e, ev) == (if r.Ok? then r.value else e)
  {
    var k := AcceptedEvent(codes, drift, e, ev);
    if k.Some? { assert Open(e, k.value) && codes(e.secret, k.value) == ev.code; }
  }

  ghost function After(codes: Codes, drift: int, e: Enrollment, evs: seq<Event>): Enrollment
    decreases |evs|
  {
    if evs == [] then e else After(codes, drift, Step(codes, drift, e, evs[0]), evs[1..])
  }

  /** The time steps accepted along a run, in order. */
  ghost function Trace(codes: Codes, drift: int, e: Enrollment, evs: seq<Event>): seq<int>
    decreases |evs|
  {
    if evs == [] then []
    else
      var k := AcceptedEvent(codes, drift, e, evs[0]);
      (if k.Some? then [k.value] else []) + Trace(codes, drift, Step(codes, drift, e, evs[0]), evs[1..])
  }

  /** A run leaves the factor enabled exactly if it was, or some code was accepted; what was enrolled stays. */
  lemma {:induction false} EnabledIffAccepted(codes: Codes, drift: int, e: Enrollment, evs: seq<Event>)
    ensures var e' := After(codes, drift, e, evs);
      && (e'.enabled <==> e.enabled || Trace(codes, drift, e, evs) != [])
      && e'.identity == e.identity && e'.secret == e.secret && e'.codeLength == e.codeLength && e'.timeStep == e.timeStep
    decreases |evs|
  {
    if evs != [] { EnabledIffAccepted(codes, drift, Step(codes, drift, e, evs[0]), evs[1..]); }
  }

  ghost predicate Increasing(t: seq<int>) {
    forall i, j | 0 <= i < j < |t| :: t[i] < t[j]
  }

  /** No time step is accepted twice, and none before an accepted one, even if the clock goes back. */
  lemma {:induction false} AcceptedStepsIncrease(codes: Codes, drift: int, e: Enrollment, evs: seq<Event>)
    ensures Increasing(Trace(codes, drift, e, evs))
    ensures forall k | k in Trace(codes, drift, e, evs) :: Open(e, k)
    decreases |evs|
  {
    if evs != [] {
      var e' := Step(codes, drift, e, evs[0]);
      AcceptedStepsIncrease(codes, drift, e', evs[1..]);
      var rest := Trace(codes, drift, e', evs[1..]);
      forall i | 0 <= i < |rest| ensures Open(e', rest[i]) { assert rest[i] in rest; }
    }
  }

  lemma {:induction false} AcceptedStepsNearClock(codes: Codes, drift: int, e: Enrollment, evs: seq<Event>, a: int, b: int)
    requires forall i | 0 <= i < |evs| :: a <= evs[i].now / e.timeStep <= b
    ensures forall k | k in Trace(codes, drift, e, evs) :: a - drift <= k <= b + drift
    decreases |evs|
  {
    if evs != [] {
      assert a <= evs[0].now / e.timeStep <= b;
      AcceptedStepsNearClock(codes, drift, Step(codes, drift, e, evs[0]), evs[1..], a, b);
    }
  }

  lemma {:induction false} IncreasingFits(t: seq<int>, lo: int, hi: int)
    requires Increasing(t) && forall k | k in t :: lo <= k <= hi
    ensures |t| <= (if lo <= hi then hi - lo + 1 else 0)
    decreases |t|
  {
    if t != [] {
      var front, last := t[..|t|-1], t[|t|-1];
      assert last in t;
      forall k | k in front ensures lo <= k <= last - 1 {
        var i :| 0 <= i < |front| && front[i] == k;
        assert t[i] < t[|t|-1] && t[i] in t;
      }
      IncreasingFits(front, lo, last - 1);
    }
  }

  // ---------- The window ----------

  /** The generator's codes are codes the server can recognise. */
  ghost predicate Genuine(codes: Codes, e: Enrollment) {
    e.enabled && forall k :: WellFormed(codes(e.secret, k), e.codeLength)
  }

  /**
   The window is exact: the code of time step `j` is accepted, whatever way
   codes are computed, if and only if `j` is within the drift of the clock's
   time step and later than the last verified one.
   */
  lemma WindowIsExact(drift: int, e: Enrollment, now: int, j: int)
    requires e.enabled && 1 <= e.codeLength
    ensures (forall codes: Codes | Genuine(codes, e) :: Outcome(codes, drift, e, Verify(codes(e.secret, j), now)).Ok?)
      <==> now / e.timeStep - drift <= j <= now / e.timeStep + drift && (e.lastVerified.None? || e.lastVerified.value < j)
  {
    if !(now / e.timeStep - drift <= j <= now / e.timeStep + drift && Open(e, j)) {
      var zeros, ones := seq(e.codeLength, _ => '0'), seq(e.codeLength, _ => '1');
      var codes: Codes := (_, k) => if k == j then zeros else ones;
      assert zeros[0] != ones[0];
      assert Genuine(codes, e);
      assert codes(e.secret, j) == zeros;
      assert Outcome(codes, drift, e, Verify(codes(e.secret, j), now)).Err?;
    }
  }

  /** A client's clock may be off by the drift in whole time steps, either way: its current code is accepted if not yet used. */
  lemma ClockDriftIsTolerated(codes: Codes, drift: int, e: Enrollment, now: int, clientNow: int)
    requires Genuine(codes, e) && now + (-drift) * e.timeStep <= clientNow <= now + drift * e.timeStep
    requires Open(e, clientNow / e.timeStep)
    ensures Outcome(codes, drift, e, Verify(codes(e.secret, clientNow / e.timeStep), now)).Ok?
  {
    DriftedStep(now, -drift, e.timeStep);
    DriftedStep(now, drift, e.timeStep);
    QuotientsGrow(now + (-drift) * e.timeStep, clientNow, e.timeStep);
    QuotientsGrow(clientNow, now + drift * e.timeStep, e.timeStep);
  }

  lemma QuotientsGrow(a: int, b: int, t: int)
    requires 0 < t && a <= b
    ensures a / t <= b / t
  {
    var q, q' := a / t, b / t;
    if q' < q {
      assert t * (q - q') == t * q - t * q';
      AtLeastOnce(t, q - q');
    }
  }

  /**
   While the clock stays within the time steps a..b, one enrollment accepts at
   most as many codes, the enabling one included, as there are time steps in
   reach.
   */
  lemma SuccessesAreBounded(codes: Codes, drift: int, e: Enrollment, evs: seq<Event>, a: int, b: int)
    requires a <= b && forall i | 0 <= i < |evs| :: a <= evs[i].now / e.timeStep <= b
    ensures |Trace(codes, drift, e, evs)| <= (if 0 <= b - a + 1 + 2 * drift then b - a + 1 + 2 * drift else 0)
  {
    AcceptedStepsIncrease(codes, drift, e, evs);
    AcceptedStepsNearClock(codes, drift, e, evs, a, b);
    IncreasingFits(Trace(codes, drift, e, evs), a - drift, b + drift);
  }
}
