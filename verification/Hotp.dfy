/**
 Counter-based one-time passwords: the look-ahead search, replay over whole
 runs, and the synchronisation of client and server. What the code of a counter
 is stays open; different counters may share a code.
 */
module Hotp {
  import opened Wrappers
  import opened OneTimePasswords

  type Identity = nat

  /** The HOTP value of a secret and a counter (section 5.3 of RFC 4226). */
  type Codes = (string, nat) -> string

  datatype Enrollment = Enrollment(identity: Identity, enabled: bool, secret: string, codeLength: int, counter: nat)

  /** A non-positive look-ahead still tries the stored counter itself. */
  function Width(lookAhead: int): nat { if lookAhead < 0 then 0 else lookAhead }

  /** The least counter in [lo, hi] whose code this is. */
  function FirstMatch(codes: Codes, secret: string, code: string, lo: nat, hi: int): (r: Option<nat>)
    ensures r.Some? ==> lo <= r.value <= hi && codes(secret, r.value) == code
    ensures r.Some? ==> forall k | lo <= k < r.value :: codes(secret, k) != code
    ensures r.None? ==> forall k | lo <= k <= hi :: codes(secret, k) != code
    decreases hi - lo
  {
    if hi < lo then None
    else if codes(secret, lo) == code then Some(lo)
    else FirstMatch(codes, secret, code, lo + 1, hi)
  }

  /** The counter that a submitted code is accepted for. */
  function Accepted(codes: Codes, lookAhead: int, e: Enrollment, code: string): Option<nat> {
    if WellFormed(code, e.codeLength)
    then FirstMatch(codes, e.secret, code, e.counter, e.counter + Width(lookAhead))
    else None
  }

  // ---------- The factor ----------

  class HotpFactor {
    const codes: Codes
    const nfkc: Normaliser
    const codeLength: int
    const lookAhead: int
    var store: map<Identity, Enrollment>

    constructor (codes: Codes, nfkc: Normaliser, codeLength: int, lookAhead: int)
      ensures this.codes == codes && this.nfkc == nfkc
      ensures this.codeLength == codeLength && this.lookAhead == lookAhead && store == map[]
    {
      this.codes, this.nfkc, this.codeLength, this.lookAhead, store := codes, nfkc, codeLength, lookAhead, map[];
    }

    /** Only enabled enrollments are reported to the authentication session. */
    method GetEnrollment(identity: Identity) returns (r: Option<Enrollment>)
      ensures r.Some? <==> identity in store && store[identity].enabled
      ensures r.Some? ==> r.value == store[identity]
    {
      if identity !in store || !store[identity].enabled { return None; }
      return Some(store[identity]);
    }

    /** `secret` is the newly generated key. */
    method Enroll(identity: Identity, secret: string) returns (r: Result<Enrollment, Error>)
      modifies this`store
      ensures r.Ok? <==> !(identity in old(store) && old(store)[identity].enabled)
      ensures r.Err? ==> r.error == AlreadyEnrolled && store == old(store)
      ensures r.Ok? ==> r.value == Enrollment(identity, false, secret, codeLength, 0) && store == old(store)[identity := r.value]
    {
      if identity in store {
        if store[identity].enabled { return Err(AlreadyEnrolled); }
        store := store - {identity};
      }
      var hotp := Enrollment(identity, false, secret, codeLength, 0);
      store := store[identity := hotp];
      return Ok(hotp);
    }

    /**
     The search tries the stored counter and up to `lookAhead` after it, stops
     at the least that matches, and moves just past it.
     */
    method VerifyCode(hotp: Enrollment, submitted: string) returns (r: Result<Enrollment, Error>)
      ensures r.Ok? <==> WellFormed(nfkc(submitted), hotp.codeLength) && exists k: nat ::
        (k == hotp.counter || hotp.counter <= k <= hotp.counter + lookAhead) && codes(hotp.secret, k) == nfkc(submitted)
      ensures r.Ok? ==>
        && r.value == hotp.(counter := r.value.counter) && hotp.counter < r.value.counter
        && (r.value.counter == hotp.counter + 1 || r.value.counter <= hotp.counter + lookAhead + 1)
        && codes(hotp.secret, r.value.counter - 1) == nfkc(submitted)
        && forall k | hotp.counter <= k < r.value.counter - 1 :: codes(hotp.secret, k) != nfkc(submitted)
      ensures r.Err? ==> r.error == InvalidCode
      ensures r == match Accepted(codes, lookAhead, hotp, nfkc(submitted))
                   case Some(k) => Ok(hotp.(counter := k + 1))
                   case None => Err(InvalidCode)
    {
      var code := nfkc(submitted);
      if !WellFormed(code, hotp.codeLength) { return Err(InvalidCode); }
      var counter := hotp.counter;
      while true
        invariant hotp.counter <= counter <= hotp.counter + Width(lookAhead)
        invariant FirstMatch(codes, hotp.secret, code, hotp.counter, hotp.counter + Width(lookAhead))
               == FirstMatch(codes, hotp.secret, code, counter, hotp.counter + Width(lookAhead))
        decreases hotp.counter + Width(lookAhead) - counter
      {
        if codes(hotp.secret, counter) == code { break; }
        if counter - hotp.counter >= lookAhead { return Err(InvalidCode); }
        counter := counter + 1;
      }
      return Ok(hotp.(counter := counter + 1));
    }

    method Enable(identity: Identity, code: string) returns (r: Result<Enrollment, Error>)
      modifies this`store
      ensures identity !in old(store) ==> r == Err(NotEnrolled) && store == old(store)
      ensures identity in old(store) ==>
        var e := old(store)[identity];
        && r == (if e.enabled then Err(AlreadyEnabled) else Outcome(codes, lookAhead, e, Event.Enable(nfkc(code))))
        && (r.Ok? ==> identity in store && store[identity] == r.value && r.value.enabled)
        && store == old(store)[identity := Step(codes, lookAhead, e, Event.Enable(nfkc(code)))]
    {
      if identity !in store { return Err(NotEnrolled); }
      var hotp := store[identity];
      if hotp.enabled {
        assert store == store[identity := hotp];
        return Err(AlreadyEnabled);
      }
      r := VerifyCode(hotp, code);
      if r.Ok? {
        r := Ok(r.value.(enabled := true));
        store := store[identity := r.value];
      } else {
        assert store == store[identity := hotp];
      }
    }

    method Verify(identity: Identity, code: string) returns (r: Result<Enrollment, Error>)
      modifies this`store
      ensures identity !in old(store) ==> r == Err(NotEnrolled) && store == old(store)
      ensures identity in old(store) ==>
        var e := old(store)[identity];
        && r == (if !e.enabled then Err(NotEnabled) else Outcome(codes, lookAhead, e, Event.Verify(nfkc(code))))
        && (r.Ok? ==> identity in store && store[identity] == r.value && r.value.enabled)
        && store == old(store)[identity := Step(codes, lookAhead, e, Event.Verify(nfkc(code)))]
    {
      if identity !in store { return Err(NotEnrolled); }
      var hotp := store[identity];
      if !hotp.enabled {
        assert store == store[identity := hotp];
        return Err(NotEnabled);
      }
      r := VerifyCode(hotp, code);
      if r.Ok? {
        store := store[identity := r.value];
      } else {
        assert store == store[identity := hotp];
      }
    }
  }

  // ---------- Runs of one enrollment ----------

  /** Codes as they are after normalisation. */
  datatype Event = Enable(code: string) | Verify(code: string)

  /** The counter an event is accepted for, if it is. */
  function AcceptedEvent(codes: Codes, lookAhead: int, e: Enrollment, ev: Event): Option<nat> {
    if ev.Enable? == e.enabled then None else Accepted(codes, lookAhead, e, ev.code)
  }

  function Step(codes: Codes, lookAhead: int, e: Enrollment, ev: Event): Enrollment {
    var k := AcceptedEvent(codes, lookAhead, e, ev);
    if k.None? then e else e.(enabled := true, counter := k.value + 1)
  }

  function Outcome(codes: Codes, lookAhead: int, e: Enrollment, ev: Event): Result<Enrollment, Error> {
    if AcceptedEvent(codes, lookAhead, e, ev).None? then Err(InvalidCode) else Ok(Step(codes, lookAhead, e, ev))
  }

  /**
   What one event does, in terms of the codes alone: it succeeds if and only if
   the factor is enabled or not as the event needs, and the code is that of the
   stored counter or of one at most `lookAhead` after it; then the factor is
   enabled and its counter just past the least such counter. Else nothing
   changes.
   */
  lemma EventMeaning(codes: Codes, lookAhead: int, e: Enrollment, ev: Event)
    ensures var r := Outcome(codes, lookAhead, e, ev);
      && (r.Ok? <==> ev.Enable? != e.enabled && WellFormed(ev.code, e.codeLength) && exists k: nat ::
            (k == e.counter || e.counter <= k <= e.counter + lookAhead) && codes(e.secret, k) == ev.code)
      && (r.Ok? ==>
            && r.value == Enrollment(e.identity, true, e.secret, e.codeLength, r.value.counter)
            && e.counter < r.value.counter && codes(e.secret, r.value.counter - 1) == ev.code
            && forall k | e.counter <= k < r.value.counter - 1 :: codes(e.secret, k) != ev.code)
      && (r.Err? ==> r.error == InvalidCode)
      && Step(codes, lookAhead, e, ev) == (if r.Ok? then r.value else e)
  {
    var k := AcceptedEvent(codes, lookAhead, e, ev);
    if k.Some? { assert codes(e.secret, k.value) == ev.code; }
  }

  ghost function After(codes: Codes, lookAhead: int, e: Enrollment, evs: seq<Event>): Enrollment
    decreases |evs|
  {
    if evs == [] then e else After(codes, lookAhead, Step(codes, lookAhead, e, evs[0]), evs[1..])
  }

  /** The counters accepted along a run, in order. */
  ghost function Trace(codes: Codes, lookAhead: int, e: Enrollment, evs: seq<Event>): seq<nat>
    decreases |evs|
  {
    if evs == [] then []
    else
      var k := AcceptedEvent(codes, lookAhead, e, evs[0]);
      var rest := Trace(codes, lookAhead, Step(codes, lookAhead, e, evs[0]), evs[1..]);
      if k.Some? then [k.value] + rest else rest
  }

  /** A run leaves the factor enabled exactly if it was, or some code was accepted; what was enrolled stays. */
  lemma {:induction false} EnabledIffAccepted(codes: Codes, lookAhead: int, e: Enrollment, evs: seq<Event>)
    ensures var e' := After(codes, lookAhead, e, evs);
      && (e'.enabled <==> e.enabled || Trace(codes, lookAhead, e, evs) != [])
      && e'.identity == e.identity && e'.secret == e.secret && e'.codeLength == e.codeLength
    decreases |evs|
  {
    if evs != [] { EnabledIffAccepted(codes, lookAhead, Step(codes, lookAhead, e, evs[0]), evs[1..]); }
  }

  lemma OneMore(n: nat, w: nat)
    ensures (n + 1) * w == n * w + w
  {
  }

  /** One event: either nothing changes or one counter of the window is accepted. */
  lemma StepBounds(codes: Codes, lookAhead: int, e: Enrollment, ev: Event)
    ensures var k := AcceptedEvent(codes, lookAhead, e, ev); var e' := Step(codes, lookAhead, e, ev);
      if k.Some? then e.counter <= k.value < e'.counter && e'.counter <= e.counter + Width(lookAhead) + 1 else e' == e
  {
  }

  /** The stored counter counts the successes, and lies within a window for each of them. */
  lemma {:induction false} StoredCounterCounts(codes: Codes, lookAhead: int, e: Enrollment, evs: seq<Event>)
    ensures var n := |Trace(codes, lookAhead, e, evs)|; var c := After(codes, lookAhead, e, evs).counter;
      e.counter + n <= c <= e.counter + n * (Width(lookAhead) + 1)
    decreases |evs|
  {
    if evs != [] {
      var e' := Step(codes, lookAhead, e, evs[0]);
      StepBounds(codes, lookAhead, e, evs[0]);
      StoredCounterCounts(codes, lookAhead, e', evs[1..]);
      OneMore(|Trace(codes, lookAhead, e', evs[1..])|, Width(lookAhead) + 1);
    }
  }

  ghost predicate Rises(t: seq<nat>, lo: nat, hi: nat) {
    && (forall i | 0 <= i < |t| :: lo <= t[i] < hi)
    && (forall i, j | 0 <= i < j < |t| :: t[i] < t[j])
  }

  lemma RisesPrepend(k: nat, t: seq<nat>, lo: nat, hi: nat)
    requires Rises(t, k + 1, hi) && lo <= k < hi
    ensures Rises([k] + t, lo, hi)
  {
  }

  lemma {:induction false} TraceRises(codes: Codes, lookAhead: int, e: Enrollment, evs: seq<Event>)
    ensures Rises(Trace(codes, lookAhead, e, evs), e.counter, After(codes, lookAhead, e, evs).counter)
    ensures Trace(codes, lookAhead, e, evs) == [] ==> After(codes, lookAhead, e, evs) == e
    decreases |evs|
  {
    if evs != [] {
      var e' := Step(codes, lookAhead, e, evs[0]);
      StepBounds(codes, lookAhead, e, evs[0]);
      TraceRises(codes, lookAhead, e', evs[1..]);
      StoredCounterCounts(codes, lookAhead, e', evs[1..]);
      if e' != e {
        RisesPrepend(e'.counter - 1, Trace(codes, lookAhead, e', evs[1..]), e.counter, After(codes, lookAhead, e', evs[1..]).counter);
      }
    }
  }

  /** No counter is accepted twice, the one that enabled the factor included, and the stored counter counts the successes. */
  lemma {:induction false} AcceptedCountersIncrease(codes: Codes, lookAhead: int, e: Enrollment, evs: seq<Event>)
    ensures var t := Trace(codes, lookAhead, e, evs); var c := After(codes, lookAhead, e, evs).counter;
      && (forall i | 0 <= i < |t| :: e.counter <= t[i] < c)
      && (forall i, j | 0 <= i < j < |t| :: t[i] < t[j])
      && e.counter + |t| <= c <= e.counter + |t| * (if 0 <= lookAhead then lookAhead + 1 else 1)
      && (t == [] ==> After(codes, lookAhead, e, evs) == e)
  {
    TraceRises(codes, lookAhead, e, evs);
    StoredCounterCounts(codes, lookAhead, e, evs);
  }

  // ---------- Client and server ----------

  // The client's token generator holds the next counter. Pressing it shows the code of that counter and moves
  // on; the code may or may not be submitted. An old code may also be submitted again.

  datatype Press = Skip | Submit | Resubmit(counter: nat)

  datatype Pair = Pair(server: Enrollment, client: nat)

  /** The generator's codes are codes the server can recognise. */
  ghost predicate Genuine(codes: Codes, e: Enrollment) {
    e.enabled && forall k: nat :: WellFormed(codes(e.secret, k), e.codeLength)
  }

  ghost function Server(codes: Codes, lookAhead: int, e: Enrollment, counter: nat): Enrollment {
    Step(codes, lookAhead, e, Verify(codes(e.secret, counter)))
  }

  ghost function Pressed(codes: Codes, lookAhead: int, p: Pair, press: Press): Pair {
    match press
    case Skip => p.(client := p.client + 1)
    case Submit => Pair(Server(codes, lookAhead, p.server, p.client), p.client + 1)
    case Resubmit(j) => p.(server := Server(codes, lookAhead, p.server, j))
  }

  /** The server has not moved past the code, or its window does not reach the client. */
  ghost predicate Harmless(lookAhead: int, p: Pair, j: nat) {
    p.server.counter <= j || (p.server.counter < p.client && p.server.counter + lookAhead < p.client)
  }

  /** A code that is submitted again has been shown before and is harmless. */
  ghost predicate Honest(lookAhead: int, p: Pair, press: Press) {
    press.Resubmit? ==> press.counter < p.client && Harmless(lookAhead, p, press.counter)
  }

  ghost function AfterPresses(codes: Codes, lookAhead: int, p: Pair, presses: seq<Press>): Pair
    decreases |presses|
  {
    if presses == [] then p else AfterPresses(codes, lookAhead, Pressed(codes, lookAhead, p, presses[0]), presses[1..])
  }

  ghost predicate AllHonest(codes: Codes, lookAhead: int, p: Pair, presses: seq<Press>)
    decreases |presses|
  {
    presses == [] || (Honest(lookAhead, p, presses[0]) && AllHonest(codes, lookAhead, Pressed(codes, lookAhead, p, presses[0]), presses[1..]))
  }

  /** The server accepts a shown code for no later counter than the one it was made from. */
  lemma AcceptsNoLater(codes: Codes, lookAhead: int, e: Enrollment, counter: nat)
    requires Genuine(codes, e) && e.counter <= counter
    ensures Server(codes, lookAhead, e, counter).counter <= counter + 1
    ensures counter == e.counter || counter <= e.counter + lookAhead ==>
      AcceptedEvent(codes, lookAhead, e, Verify(codes(e.secret, counter))).Some?
  {
  }

  /** Even with colliding codes the server never gets ahead of the client. */
  lemma {:induction false} ServerNeverOvertakes(codes: Codes, lookAhead: int, p: Pair, presses: seq<Press>)
    requires Genuine(codes, p.server) && p.server.counter <= p.client && AllHonest(codes, lookAhead, p, presses)
    ensures var q := AfterPresses(codes, lookAhead, p, presses); q.server.counter <= q.client && Genuine(codes, q.server)
    decreases |presses|
  {
    if presses != [] {
      var press := presses[0];
      match press {
        case Skip =>
        case Submit => AcceptsNoLater(codes, lookAhead, p.server, p.client);
        case Resubmit(j) => if p.server.counter <= j { AcceptsNoLater(codes, lookAhead, p.server, j); }
      }
      ServerNeverOvertakes(codes, lookAhead, Pressed(codes, lookAhead, p, press), presses[1..]);
    }
  }

  /**
   Submitting a code the server is already past is different. For a shown
   code of counter `j`, no way of computing codes lets the server overtake the
   client, if and only if `j` is not behind the server or the window ends
   before the client's counter.
   */
  lemma OvertakingNeedsReplay(lookAhead: int, p: Pair, j: nat)
    requires p.server.enabled && p.server.counter <= p.client && j < p.client && 1 <= p.server.codeLength
    ensures (forall codes: Codes | Genuine(codes, p.server) :: Pressed(codes, lookAhead, p, Resubmit(j)).server.counter <= p.client)
      <==> Harmless(lookAhead, p, j)
  {
    var s, n, w := p.server.counter, p.client, Width(lookAhead);
    if Harmless(lookAhead, p, j) {
      forall codes: Codes | Genuine(codes, p.server)
        ensures Pressed(codes, lookAhead, p, Resubmit(j)).server.counter <= n
      {
        if s <= j { AcceptsNoLater(codes, lookAhead, p.server, j); }
      }
    } else {
      var zeros, ones := seq(p.server.codeLength, _ => '0'), seq(p.server.codeLength, _ => '1');
      var codes: Codes := (_, k) => if k == j || k == n then zeros else ones;
      assert zeros[0] != ones[0];
      assert Genuine(codes, p.server);
      var k := AcceptedEvent(codes, lookAhead, p.server, Verify(codes(p.server.secret, j)));
      assert codes(p.server.secret, n) == zeros;
      assert k == Some(n);
    }
  }

  /**
   The window is exact: the code of counter `j` is accepted, whatever way codes
   are computed, if and only if `j` is the stored counter or at most
   `lookAhead` after it.
   */
  lemma WindowIsExact(lookAhead: int, e: Enrollment, j: nat)
    requires e.enabled && 1 <= e.codeLength
    ensures (forall codes: Codes | Genuine(codes, e) :: Outcome(codes, lookAhead, e, Verify(codes(e.secret, j))).Ok?)
      <==> j == e.counter || e.counter <= j <= e.counter + lookAhead
  {
    if !(j == e.counter || e.counter <= j <= e.counter + lookAhead) {
      var zeros, ones := seq(e.codeLength, _ => '0'), seq(e.codeLength, _ => '1');
      var codes: Codes := (_, k) => if k == j then zeros else ones;
      assert zeros[0] != ones[0];
      assert Genuine(codes, e);
      assert codes(e.secret, j) == zeros;
      assert Outcome(codes, lookAhead, e, Verify(codes(e.secret, j))).Err?;
    }
  }

  ghost function Skips(presses: seq<Press>): nat {
    if presses == [] then 0 else (if presses[0].Skip? then 1 else 0) + Skips(presses[1..])
  }

  /** Every submitted press of the run is accepted. */
  ghost predicate AllAccepted(codes: Codes, lookAhead: int, p: Pair, presses: seq<Press>)
    decreases |presses|
  {
    presses != [] ==>
      && (presses[0].Submit? ==> AcceptedEvent(codes, lookAhead, p.server, Verify(codes(p.server.secret, p.client))).Some?)
      && AllAccepted(codes, lookAhead, Pressed(codes, lookAhead, p, presses[0]), presses[1..])
  }

  /**
   As long as the client's lead plus the presses it never submits stay within
   the look-ahead, every code it submits is accepted, collisions or not:
   neither an accepted code nor an honest resubmission widens the gap.
   */
  lemma {:induction false} ClientStaysInStep(codes: Codes, lookAhead: int, p: Pair, presses: seq<Press>)
    requires Genuine(codes, p.server) && AllHonest(codes, lookAhead, p, presses)
    requires p.server.counter <= p.client
    requires var gap := p.client - p.server.counter + Skips(presses); gap == 0 || gap <= lookAhead
    ensures AllAccepted(codes, lookAhead, p, presses)
    decreases |presses|
  {
    if presses != [] {
      AcceptsNoLater(codes, lookAhead, p.server, if presses[0].Resubmit? then presses[0].counter else p.client);
      ClientStaysInStep(codes, lookAhead, Pressed(codes, lookAhead, p, presses[0]), presses[1..]);
    }
  }

  /**
   What one submitted code does, exactly: server and client are together again
   if and only if the client's lead is within the look-ahead and no counter
   between theirs has the same code; nothing happens if and only if no counter
   of the window has it.
   */
  lemma SubmitOutcome(codes: Codes, lookAhead: int, p: Pair)
    requires Genuine(codes, p.server) && p.server.counter <= p.client
    ensures var q := Pressed(codes, lookAhead, p, Submit); var shown := codes(p.server.secret, p.client);
      && (q.server.counter == q.client <==>
            (p.client == p.server.counter || p.client <= p.server.counter + lookAhead)
            && forall k: nat | p.server.counter <= k < p.client :: codes(p.server.secret, k) != shown)
      && (q.server == p.server <==>
            forall k: nat | k == p.server.counter || p.server.counter <= k <= p.server.counter + lookAhead ::
              codes(p.server.secret, k) != shown)
  {
    var shown := codes(p.server.secret, p.client);
    var k := AcceptedEvent(codes, lookAhead, p.server, Verify(shown));
    if k.Some? {
      assert codes(p.server.secret, k.value) == shown;
    }
  }

  /** No other counter of the server's window shares the client's code. */
  ghost predicate Unambiguous(codes: Codes, lookAhead: int, p: Pair) {
    forall k: nat | (k == p.server.counter || p.server.counter <= k <= p.server.counter + lookAhead) && k != p.client ::
      codes(p.server.secret, k) != codes(p.server.secret, p.client)
  }

  /** Without a collision in the window the window is exact, and an accepted code brings both together again. */
  lemma DistinctCodesResynchronise(codes: Codes, lookAhead: int, p: Pair)
    requires Genuine(codes, p.server) && p.server.counter <= p.client && Unambiguous(codes, lookAhead, p)
    ensures var q := Pressed(codes, lookAhead, p, Submit);
      if p.client == p.server.counter || p.client - p.server.counter <= lookAhead
      then q.server.counter == q.client
      else q.server == p.server
  {
    SubmitOutcome(codes, lookAhead, p);
  }

  /** Every pair has such codes, whatever the window. */
  lemma UnambiguousCodesExist(lookAhead: int, p: Pair)
    requires p.server.enabled && 1 <= p.server.codeLength
    ensures exists codes: Codes :: Genuine(codes, p.server) && Unambiguous(codes, lookAhead, p)
  {
    var zeros, ones := seq(p.server.codeLength, _ => '0'), seq(p.server.codeLength, _ => '1');
    var codes: Codes := (_, k) => if k == p.client then zeros else ones;
    assert zeros[0] != ones[0];
    assert Genuine(codes, p.server) && Unambiguous(codes, lookAhead, p);
  }
}
