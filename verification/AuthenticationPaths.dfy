/**
 Multi-factor authentication as a path of advances.

 A session records an identity, a step, and the methods and factors used so
 far. A factor can be used at its own step, once per method, and, when an
 identity is attached, only if it is enrolled for it.
 */
module AuthenticationPaths {
  import opened Wrappers
  import Sets

  type Identity = nat
  type Method = string

  /** `key` tells factor objects apart, as Python's object identity does. */
  datatype Factor = Factor(key: nat, identifier: string, step: int, advanceBy: int, amr: Method)

  datatype FactorError = AdvanceByTooSmall

  /** The constructor of factors. */
  function NewFactor(key: nat, identifier: string, step: int, advanceBy: int, amr: Method): Result<Factor, FactorError> {
    if advanceBy < 1 then Err(AdvanceByTooSmall) else Ok(Factor(key, identifier, step, advanceBy, amr))
  }

  /** The factor came from its constructor. */
  ghost predicate Built(f: Factor) {
    NewFactor(f.key, f.identifier, f.step, f.advanceBy, f.amr) == Ok(f)
  }

  ghost predicate AllBuilt(factors: set<Factor>) {
    forall f | f in factors :: Built(f)
  }

  datatype Progress = Progress(identity: Option<Identity>, step: int, amr: seq<Method>, used: seq<string>)

  const START := Progress(None, 0, [], [])

  /** Pairs of a factor's key and an identity it is enrolled for. */
  type Enrollments = set<(nat, Identity)>

  predicate IsAvailable(f: Factor, enrolled: Enrollments, p: Progress) {
    f.amr !in p.amr && f.step == p.step && (p.identity.Some? ==> (f.key, p.identity.value) in enrolled)
  }

  function Available(factors: set<Factor>, enrolled: Enrollments, p: Progress): set<Factor> {
    set f | f in factors && IsAvailable(f, enrolled, p)
  }

  /** One advance, with the enrollments as they were when it was made. */
  datatype Move = Move(identity: Identity, factor: Factor, enrolled: Enrollments)

  function Advanced(p: Progress, identity: Identity, f: Factor): Progress {
    Progress(Some(identity), p.step + f.advanceBy, p.amr + [f.amr], p.used + [f.identifier])
  }

  ghost predicate Path(factors: set<Factor>, p: Progress, moves: seq<Move>)
    decreases |moves|
  {
    moves == [] ||
    (moves[0].factor in Available(factors, moves[0].enrolled, p)
     && Path(factors, Advanced(p, moves[0].identity, moves[0].factor), moves[1..]))
  }

  ghost function After(p: Progress, moves: seq<Move>): Progress
    decreases |moves|
  {
    if moves == [] then p else After(Advanced(p, moves[0].identity, moves[0].factor), moves[1..])
  }

  /** A session that some run from the start leads to. */
  ghost predicate Reached(factors: set<Factor>, p: Progress) {
    exists moves :: Path(factors, START, moves) && p == After(START, moves)
  }

  // ---------- The shape of every path ----------

  ghost function TotalAdvance(moves: seq<Move>): int {
    if moves == [] then 0 else moves[0].factor.advanceBy + TotalAdvance(moves[1..])
  }

  ghost function Methods(moves: seq<Move>): (r: seq<Method>)
    ensures |r| == |moves| && forall i | 0 <= i < |moves| :: r[i] == moves[i].factor.amr
  {
    seq(|moves|, i requires 0 <= i < |moves| => moves[i].factor.amr)
  }

  ghost function Identifiers(moves: seq<Move>): (r: seq<string>)
    ensures |r| == |moves| && forall i | 0 <= i < |moves| :: r[i] == moves[i].factor.identifier
  {
    seq(|moves|, i requires 0 <= i < |moves| => moves[i].factor.identifier)
  }

  /** The session records exactly the moves, in order. */
  lemma {:induction false} AfterRecords(p: Progress, moves: seq<Move>)
    ensures After(p, moves).step == p.step + TotalAdvance(moves)
    ensures After(p, moves).amr == p.amr + Methods(moves)
    ensures After(p, moves).used == p.used + Identifiers(moves)
    ensures After(p, moves).identity == (if moves == [] then p.identity else Some(moves[|moves|-1].identity))
    decreases |moves|
  {
    if moves != [] {
      AfterRecords(Advanced(p, moves[0].identity, moves[0].factor), moves[1..]);
    }
  }

  lemma {:induction false} PathSplit(factors: set<Factor>, p: Progress, xs: seq<Move>, ys: seq<Move>)
    ensures Path(factors, p, xs + ys) <==> Path(factors, p, xs) && Path(factors, After(p, xs), ys)
    ensures After(p, xs + ys) == After(After(p, xs), ys)
    decreases |xs|
  {
    if xs == [] {
      assert xs + ys == ys;
    } else {
      assert (xs + ys)[1..] == xs[1..] + ys;
      PathSplit(factors, Advanced(p, xs[0].identity, xs[0].factor), xs[1..], ys);
    }
  }

  /** At its own turn every move was available. */
  lemma MoveWasAvailable(factors: set<Factor>, p: Progress, moves: seq<Move>, i: nat)
    requires Path(factors, p, moves) && i < |moves|
    ensures moves[i].factor in Available(factors, moves[i].enrolled, After(p, moves[..i]))
  {
    assert moves == moves[..i] + moves[i..];
    PathSplit(factors, p, moves[..i], moves[i..]);
  }

  lemma {:induction false} TotalAdvanceGrows(factors: set<Factor>, moves: seq<Move>)
    requires AllBuilt(factors) && forall i | 0 <= i < |moves| :: moves[i].factor in factors
    ensures |moves| <= TotalAdvance(moves)
  {
    if moves != [] { TotalAdvanceGrows(factors, moves[1..]); }
  }

  lemma {:induction false} TotalAdvanceSplit(xs: seq<Move>, ys: seq<Move>)
    ensures TotalAdvance(xs + ys) == TotalAdvance(xs) + TotalAdvance(ys)
  {
    if xs == [] {
      assert xs + ys == ys;
    } else {
      assert (xs + ys)[1..] == xs[1..] + ys;
      TotalAdvanceSplit(xs[1..], ys);
    }
  }

  /** Each used factor sits at the sum of the advances before it. */
  lemma StepOfMove(factors: set<Factor>, moves: seq<Move>, i: nat)
    requires Path(factors, START, moves) && i < |moves|
    ensures moves[i].factor.step == TotalAdvance(moves[..i]) && moves[i].factor in factors
  {
    MoveWasAvailable(factors, START, moves, i);
    AfterRecords(START, moves[..i]);
  }

  /** The steps of the used factors strictly increase. */
  lemma StepsIncrease(factors: set<Factor>, moves: seq<Move>, i: nat, j: nat)
    requires AllBuilt(factors) && Path(factors, START, moves) && i < j < |moves|
    ensures moves[i].factor.step < moves[j].factor.step
  {
    StepOfMove(factors, moves, i);
    StepOfMove(factors, moves, j);
    var between := moves[i..j];
    assert moves[..j] == moves[..i] + between;
    TotalAdvanceSplit(moves[..i], between);
    forall k | 0 <= k < |between| ensures between[k].factor in factors {
      StepOfMove(factors, moves, i + k);
    }
    TotalAdvanceGrows(factors, between);
  }

  /** No method counts twice, so HOTP, TOTP and backup codes, which share one, never add up. */
  lemma MethodsAreDistinct(factors: set<Factor>, moves: seq<Move>, i: nat, j: nat)
    requires Path(factors, START, moves) && i < j < |moves|
    ensures moves[i].factor.amr != moves[j].factor.amr
  {
    MoveWasAvailable(factors, START, moves, j);
    AfterRecords(START, moves[..j]);
    assert Methods(moves[..j])[i] == moves[i].factor.amr;
  }

  /**
   After any path, exactly these factors are available: those that wait at the
   sum of the advances, whose method no move has used, and that are enrolled for
   whom the last move named, if there was one.
   */
  lemma AvailableAfter(factors: set<Factor>, enrolled: Enrollments, moves: seq<Move>, f: Factor)
    ensures f in Available(factors, enrolled, After(START, moves)) <==>
      && f in factors && f.step == TotalAdvance(moves)
      && (forall i | 0 <= i < |moves| :: moves[i].factor.amr != f.amr)
      && (moves != [] ==> (f.key, moves[|moves|-1].identity) in enrolled)
  {
    AfterRecords(START, moves);
    assert forall i | 0 <= i < |moves| :: Methods(moves)[i] == moves[i].factor.amr;
  }

  // ---------- Termination ----------

  ghost function StepsFrom(factors: set<Factor>, step: int): set<int> {
    set f | f in factors && step <= f.step :: f.step
  }

  /** Every advance uses up at least one of the steps at which factors wait. */
  lemma AdvanceShrinksSteps(factors: set<Factor>, enrolled: Enrollments, p: Progress, identity: Identity, f: Factor)
    requires AllBuilt(factors) && f in Available(factors, enrolled, p)
    ensures |StepsFrom(factors, Advanced(p, identity, f).step)| < |StepsFrom(factors, p.step)|
  {
    var a, b := StepsFrom(factors, Advanced(p, identity, f).step), StepsFrom(factors, p.step);
    assert f.step in b && f.step !in a;
    Sets.SubsetSize(a, b);
  }

  /** No run has more advances than there are distinct factor steps, whoever advances and whatever is enrolled. */
  lemma {:induction false} RunsAreBounded(factors: set<Factor>, p: Progress, moves: seq<Move>)
    requires AllBuilt(factors) && Path(factors, p, moves)
    ensures |moves| + |StepsFrom(factors, After(p, moves).step)| <= |StepsFrom(factors, p.step)|
    decreases |moves|
  {
    if moves != [] {
      AdvanceShrinksSteps(factors, moves[0].enrolled, p, moves[0].identity, moves[0].factor);
      RunsAreBounded(factors, Advanced(p, moves[0].identity, moves[0].factor), moves[1..]);
    }
  }

  /** No run over these factors is longer than the number of distinct steps they wait at. */
  ghost predicate Bounded(factors: set<Factor>) {
    forall moves | Path(factors, START, moves) :: |moves| <= |StepsFrom(factors, 0)|
  }

  ghost predicate AdvanceUniformly(factors: set<Factor>, advanceBy: int) {
    forall f | f in factors :: f.advanceBy == advanceBy
  }

  /**
   The constructor's guard is exactly what termination needs: it accepts an
   `advanceBy` if and only if all sets of factors that advance by it, whatever
   their steps and methods, have bounded runs.
   */
  lemma GuardIsExact(key: nat, identifier: string, step: int, advanceBy: int, amr: Method)
    ensures NewFactor(key, identifier, step, advanceBy, amr).Ok?
      <==> forall factors | AdvanceUniformly(factors, advanceBy) :: Bounded(factors)
  {
    if 1 <= advanceBy {
      forall factors, moves | AdvanceUniformly(factors, advanceBy) && Path(factors, START, moves)
        ensures |moves| <= |StepsFrom(factors, 0)|
      {
        RunsAreBounded(factors, START, moves);
      }
    } else {
      StandingStillIsUnbounded(advanceBy);
    }
  }

  /** Two factors of which the first does not move the session forward can both be used, at one step between them. */
  lemma StandingStillIsUnbounded(advanceBy: int)
    requires advanceBy < 1
    ensures exists factors :: AdvanceUniformly(factors, advanceBy) && !Bounded(factors)
  {
    var a, b := Factor(0, "first", 0, advanceBy, "pwd"), Factor(1, "second", advanceBy, advanceBy, "otp");
    var factors, moves := {a, b}, [Move(0, a, {}), Move(0, b, {(1, 0)})];
    assert moves[1..] == [moves[1]] && moves[1..][1..] == [];
    assert b in Available(factors, {(1, 0)}, Advanced(START, 0, a));
    assert Path(factors, Advanced(START, 0, a), moves[1..]);
    assert a in Available(factors, {}, START);
    assert Path(factors, START, moves);
    assert StepsFrom(factors, 0) == {0};
    assert !Bounded(factors);
  }

  // ---------- Completion ----------

  ghost predicate CanComplete(factors: set<Factor>, enrolled: Enrollments, p: Progress) {
    p.identity.Some? && Available(factors, enrolled, p) == {}
  }

  ghost predicate CanAdvance(factors: set<Factor>, enrolled: Enrollments, p: Progress) {
    exists f :: f in Available(factors, enrolled, p)
  }

  /** All moves are made by `who` under the same enrollments. */
  ghost predicate Steady(moves: seq<Move>, who: Identity, enrolled: Enrollments) {
    forall i | 0 <= i < |moves| :: moves[i].identity == who && moves[i].enrolled == enrolled
  }

  /**
   With the identity and the enrollments held fixed, a run that cannot be
   extended ends in a session that can be completed; the exception is a
   service that has no factor at step 0, where nothing can start.
   */
  lemma MaximalRunsComplete(factors: set<Factor>, enrolled: Enrollments, who: Identity, moves: seq<Move>)
    requires AllBuilt(factors) && Path(factors, START, moves) && Steady(moves, who, enrolled)
    requires !CanAdvance(factors, enrolled, After(START, moves))
    ensures CanComplete(factors, enrolled, After(START, moves)) <==> exists f :: f in factors && f.step == 0
    ensures |moves| <= |StepsFrom(factors, 0)|
  {
    AfterRecords(START, moves);
    RunsAreBounded(factors, START, moves);
    if moves == [] {
      forall f | f in factors ensures f.step != 0 {
        assert f !in Available(factors, enrolled, START);
      }
    } else {
      assert moves[0].factor in factors && moves[0].factor.step == 0;
      assert moves[|moves|-1].identity == who;
    }
  }

  /** `who` goes on alone until nothing is left, in no more moves than there are steps ahead. */
  ghost predicate Finishes(factors: set<Factor>, enrolled: Enrollments, who: Identity, p: Progress, moves: seq<Move>) {
    && Path(factors, p, moves) && Steady(moves, who, enrolled)
    && !CanAdvance(factors, enrolled, After(p, moves)) && |moves| <= |StepsFrom(factors, p.step)|
  }

  /** From any session, whoever goes on can go on until nothing is left to do. */
  lemma {:induction false} EveryRunCanBeFinished(factors: set<Factor>, enrolled: Enrollments, who: Identity, p: Progress)
    requires AllBuilt(factors)
    ensures exists moves :: Finishes(factors, enrolled, who, p, moves)
    decreases |StepsFrom(factors, p.step)|
  {
    if CanAdvance(factors, enrolled, p) {
      var f :| f in Available(factors, enrolled, p);
      AdvanceShrinksSteps(factors, enrolled, p, who, f);
      var q := Advanced(p, who, f);
      EveryRunCanBeFinished(factors, enrolled, who, q);
      var rest :| Finishes(factors, enrolled, who, q, rest);
      var moves := [Move(who, f, enrolled)] + rest;
      assert moves[1..] == rest;
      assert Finishes(factors, enrolled, who, p, moves);
    } else {
      assert Finishes(factors, enrolled, who, p, []);
    }
  }

  /** What completing a reached session tells: at least one factor was used, and no method twice. */
  lemma CompletionMeaning(factors: set<Factor>, enrolled: Enrollments, p: Progress)
    requires AllBuilt(factors) && Reached(factors, p) && CanComplete(factors, enrolled, p)
    ensures 1 <= |p.amr| == |p.used| <= |StepsFrom(factors, 0)|
    ensures forall i, j | 0 <= i < j < |p.amr| :: p.amr[i] != p.amr[j]
  {
    var moves :| Path(factors, START, moves) && p == After(START, moves);
    AfterRecords(START, moves);
    RunsAreBounded(factors, START, moves);
    forall i, j | 0 <= i < j < |p.amr| ensures p.amr[i] != p.amr[j] {
      MethodsAreDistinct(factors, moves, i, j);
    }
  }

  // ---------- Whose factors they were ----------

  /** If every advance names one identity, each factor after the first was enrolled for it. */
  lemma LaterFactorsWereEnrolled(factors: set<Factor>, moves: seq<Move>, who: Identity, i: nat)
    requires Path(factors, START, moves) && 0 < i < |moves|
    requires forall k | 0 <= k < |moves| :: moves[k].identity == who
    ensures After(START, moves).identity == Some(who) && (moves[i].factor.key, who) in moves[i].enrolled
  {
    AfterRecords(START, moves);
    MoveWasAvailable(factors, START, moves, i);
    AfterRecords(START, moves[..i]);
  }

  // The identity is not constant: the last advance decides it, and each factor is checked against the identity
  // attached before. For which sequences of identities does that not matter?

  ghost predicate Names(moves: seq<Move>, ids: seq<Identity>) {
    |moves| == |ids| && forall i | 0 <= i < |ids| :: moves[i].identity == ids[i]
  }

  /** Every factor after the first was enrolled for the identity the session ends with. */
  ghost predicate AllEnrolledForLast(moves: seq<Move>) {
    forall i | 0 < i < |moves| :: (moves[i].factor.key, moves[|moves|-1].identity) in moves[i].enrolled
  }

  ghost predicate AlwaysEnrolled(ids: seq<Identity>) {
    forall factors, moves | AllBuilt(factors) && Path(factors, START, moves) && Names(moves, ids) :: AllEnrolledForLast(moves)
  }

  ghost predicate Constant(ids: seq<Identity>) {
    forall i, j | 0 <= i < |ids| && 0 <= j < |ids| :: ids[i] == ids[j]
  }

  /** A method of its own for every position. */
  ghost function Tag(i: nat): (m: Method)
    ensures |m| == i
  {
    seq(i, _ => 'x')
  }

  /** A factor for every step, each enrolled only for the identity named just before. */
  ghost function Rung(i: nat): Factor { Factor(i, Tag(i), i, 1, Tag(i)) }

  ghost function Ladder(ids: seq<Identity>): (moves: seq<Move>)
    ensures |moves| == |ids|
    ensures forall i | 0 <= i < |ids| ::
      moves[i] == Move(ids[i], Rung(i), if i == 0 then {} else {(i, ids[i - 1])})
  {
    seq(|ids|, i requires 0 <= i < |ids| => Move(ids[i], Rung(i), if i == 0 then {} else {(i, ids[i - 1])}))
  }

  ghost function Rungs(n: nat): set<Factor> { set i: nat | i < n :: Rung(i) }

  lemma {:induction false} LadderAdvance(ids: seq<Identity>, n: nat)
    requires n <= |ids|
    ensures TotalAdvance(Ladder(ids)[..n]) == n
  {
    if n != 0 {
      LadderAdvance(ids, n - 1);
      assert Ladder(ids)[..n] == Ladder(ids)[..n - 1] + [Ladder(ids)[n - 1]];
      TotalAdvanceSplit(Ladder(ids)[..n - 1], [Ladder(ids)[n - 1]]);
      assert TotalAdvance([Ladder(ids)[n - 1]]) == 1;
    }
  }

  lemma {:induction false} LadderIsPath(ids: seq<Identity>, n: nat)
    requires n <= |ids|
    ensures Path(Rungs(|ids|), START, Ladder(ids)[..n])
  {
    if n != 0 {
      var front, last := Ladder(ids)[..n - 1], Ladder(ids)[n - 1];
      LadderIsPath(ids, n - 1);
      AfterRecords(START, front);
      LadderAdvance(ids, n - 1);
      assert last.factor.amr !in Methods(front);
      var p := After(START, front);
      assert last.factor in Available(Rungs(|ids|), last.enrolled, p);
      assert Path(Rungs(|ids|), p, [last]);
      PathSplit(Rungs(|ids|), START, front, [last]);
      assert Ladder(ids)[..n] == front + [last];
    }
  }

  /**
   Whoever the advances name: that every factor after the first was enrolled
   for the final identity is certain, over all factors, enrollments and paths,
   if and only if the advances name one identity throughout.
   */
  lemma EnrolledIffOneIdentity(ids: seq<Identity>)
    ensures AlwaysEnrolled(ids) <==> Constant(ids)
  {
    if Constant(ids) {
      forall factors: set<Factor>, moves: seq<Move> | AllBuilt(factors) && Path(factors, START, moves) && Names(moves, ids)
        ensures AllEnrolledForLast(moves)
      {
        forall i | 0 < i < |moves| ensures (moves[i].factor.key, moves[|moves|-1].identity) in moves[i].enrolled {
          LaterFactorsWereEnrolled(factors, moves, ids[0], i);
        }
      }
    } else {
      var moves, last := Ladder(ids), |ids| - 1;
      LadderIsPath(ids, |ids|);
      assert moves[..|ids|] == moves;
      var i :| 0 <= i < last && ids[i] != ids[last];
      assert (i + 1, ids[last]) !in moves[i + 1].enrolled;
      assert !AllEnrolledForLast(moves);
      assert AllBuilt(Rungs(|ids|)) && Names(moves, ids);
    }
  }
}
