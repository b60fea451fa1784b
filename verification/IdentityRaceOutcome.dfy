/** Exactly when a race leaves its family revoked, told by the steps of the run. */
module IdentityRaceOutcome {
  import opened Wrappers
  import opened Tokens
  import opened IdentityMachine
  import opened IdentityFamilies
  import opened IdentityInvariant
  import opened IdentityRuns
  import opened IdentityRaces

  /** The state before the k-th step of a run. */
  ghost function StateAt(cfg: Config, s: State, acts: seq<Action>, k: nat): State
    requires Legal(cfg, s, acts) && k <= |acts|
  {
    LegalPrefix(cfg, s, acts, k);
    Exec(cfg, s, acts[..k])
  }

  ghost predicate OwnAdvance(acts: seq<Action>, k: int, c: CallId) {
    0 <= k < |acts| && acts[k].Advance? && acts[k].c == c
  }

  /** At the k-th step call `d` compares the clock with the deadline, and the clock has reached it. */
  ghost predicate LateCheck(cfg: Config, s: State, acts: seq<Action>, d: CallId, k: int) {
    && Legal(cfg, s, acts) && OwnAdvance(acts, k, d)
    && var m := StateAt(cfg, s, acts, k);
    && d in m.calls && m.calls[d].pc.RefreshCheck? && PastDeadline(m.calls[d].pc.session, m.now)
  }

  ghost predicate ChecksLate(cfg: Config, s: State, acts: seq<Action>, d: CallId) {
    exists k :: LateCheck(cfg, s, acts, d, k)
  }

  /** At the k-th step call `c` revokes the rows of a family. */
  ghost predicate RevokesAt(cfg: Config, s: State, acts: seq<Action>, c: CallId, k: int, fid: Option<Id>) {
    && Legal(cfg, s, acts) && OwnAdvance(acts, k, c)
    && var m := StateAt(cfg, s, acts, k);
    && c in m.calls && m.calls[c].pc.RevokeRows? && m.calls[c].pc.session.familyId == fid
  }

  lemma StateAtPrefix(cfg: Config, s: State, acts: seq<Action>, k: nat)
    requires Legal(cfg, s, acts) && k < |acts|
    ensures Legal(cfg, s, acts[..|acts|-1]) && StateAt(cfg, s, acts, k) == StateAt(cfg, s, acts[..|acts|-1], k)
    ensures k == |acts| - 1 ==> StateAt(cfg, s, acts, k) == Exec(cfg, s, acts[..|acts|-1])
  {
    assert acts[..|acts|-1][..k] == acts[..k];
  }

  // ---------- The deadline check ----------

  /** The last step is late, or an earlier one was. */
  lemma ChecksLateSnoc(cfg: Config, s: State, acts: seq<Action>, d: CallId)
    requires Legal(cfg, s, acts) && acts != []
    ensures Legal(cfg, s, acts[..|acts|-1])
    ensures ChecksLate(cfg, s, acts, d) <==> ChecksLate(cfg, s, acts[..|acts|-1], d) || LateCheck(cfg, s, acts, d, |acts| - 1)
  {
    var front := acts[..|acts|-1];
    if k :| LateCheck(cfg, s, acts, d, k) && k < |acts| - 1 {
      StateAtPrefix(cfg, s, acts, k);
      assert LateCheck(cfg, s, front, d, k);
    }
    if k :| LateCheck(cfg, s, front, d, k) {
      StateAtPrefix(cfg, s, acts, k);
      assert LateCheck(cfg, s, acts, d, k);
    }
  }

  /** A step of the call ends it as expired exactly when it is a late check. */
  lemma ExpiringStep(cfg: Config, s: State, d: CallId, choice: Choice)
    requires Enabled(s, Advance(d, choice)) && CallOk(s, s.calls[d])
    ensures NextPc(cfg, s, d, choice) == Done(ExpiredRefreshToken) <==>
      s.calls[d].pc.RefreshCheck? && PastDeadline(s.calls[d].pc.session, s.now)
  {
    if s.calls[d].pc.RevokeRows? { assert !s.calls[d].pc.outcome.ExpiredRefreshToken?; }
  }

  /** The last step of a run ends the call as expired if and only if it is a late check. */
  lemma ExpiringLastStep(cfg: Config, s: State, acts: seq<Action>, d: CallId)
    requires Reachable(cfg, s) && Legal(cfg, s, acts) && acts != [] && OwnAdvance(acts, |acts| - 1, d)
    ensures Legal(cfg, s, acts[..|acts|-1]) && d in Exec(cfg, s, acts[..|acts|-1]).calls && d in Exec(cfg, s, acts).calls
    ensures !Exec(cfg, s, acts[..|acts|-1]).calls[d].pc.Done?
    ensures Exec(cfg, s, acts).calls[d].pc == Done(ExpiredRefreshToken) <==> LateCheck(cfg, s, acts, d, |acts| - 1)
  {
    var front, a := acts[..|acts|-1], acts[|acts|-1];
    var m := Exec(cfg, s, front);
    StateAtPrefix(cfg, s, acts, |acts| - 1);
    var fams := ReachableInv(cfg, s);
    RunInv(cfg, s, fams, front);
    assert CallOk(m, m.calls[d]);
    ExpiringStep(cfg, m, d, a.choice);
  }

  /** A call stands at the expired end of a run if and only if it checked late in it. */
  lemma {:induction false} ExpiredIffChecksLate(cfg: Config, s: State, acts: seq<Action>, d: CallId)
    requires Reachable(cfg, s) && Legal(cfg, s, acts) && d !in s.calls && d in Exec(cfg, s, acts).calls
    ensures Exec(cfg, s, acts).calls[d].pc == Done(ExpiredRefreshToken) <==> ChecksLate(cfg, s, acts, d)
  {
    var front, n := acts[..|acts|-1], |acts| - 1;
    var m := Exec(cfg, s, front);
    ChecksLateSnoc(cfg, s, acts, d);
    CallHistory(cfg, m, acts[n], d);
    if d in m.calls {
      ExpiredIffChecksLate(cfg, s, front, d);
      if OwnAdvance(acts, n, d) { ExpiringLastStep(cfg, s, acts, d); }
    } else {
      NoStepBeforeBegin(cfg, s, front, d);
    }
  }

  lemma {:induction false} NoStepBeforeBegin(cfg: Config, s: State, acts: seq<Action>, d: CallId)
    requires Legal(cfg, s, acts) && d !in Exec(cfg, s, acts).calls
    ensures !ChecksLate(cfg, s, acts, d)
  {
    if acts != [] {
      StateAtPrefix(cfg, s, acts, |acts| - 1);
      ChecksLateSnoc(cfg, s, acts, d);
      NoStepBeforeBegin(cfg, s, acts[..|acts|-1], d);
    }
  }

  // ---------- The revoking step ----------

  ghost predicate EverRevokes(cfg: Config, s: State, acts: seq<Action>, fid: Option<Id>) {
    exists c, k :: RevokesAt(cfg, s, acts, c, k, fid)
  }

  ghost predicate LastRevokes(cfg: Config, s: State, acts: seq<Action>, fid: Option<Id>) {
    acts != [] && acts[|acts|-1].Advance? && RevokesAt(cfg, s, acts, acts[|acts|-1].c, |acts| - 1, fid)
  }

  lemma RevokesAtSnoc(cfg: Config, s: State, acts: seq<Action>, c: CallId, k: int, fid: Option<Id>)
    requires Legal(cfg, s, acts) && acts != []
    ensures Legal(cfg, s, acts[..|acts|-1])
    ensures k != |acts| - 1 ==> (RevokesAt(cfg, s, acts, c, k, fid) <==> RevokesAt(cfg, s, acts[..|acts|-1], c, k, fid))
  {
    if 0 <= k < |acts| { StateAtPrefix(cfg, s, acts, k); }
  }

  /** A stored row turns revoked exactly in a revoking step on its family. */
  lemma RevokingStepExactly(cfg: Config, s: State, a: Action, id: Id)
    requires Enabled(s, a) && CallsOk(s) && id in s.db && s.db[id].revokedAt.None?
    ensures id in Next(cfg, s, a).db
    ensures Next(cfg, s, a).db[id].revokedAt.Some? <==>
      a.Advance? && s.calls[a.c].pc.RevokeRows? && s.calls[a.c].pc.session.familyId == s.db[id].familyId
  {
    if a.Advance? { assert CallOk(s, s.calls[a.c]); }
  }

  lemma EverRevokesSnoc(cfg: Config, s: State, acts: seq<Action>, fid: Option<Id>)
    requires Legal(cfg, s, acts) && acts != []
    ensures Legal(cfg, s, acts[..|acts|-1])
    ensures EverRevokes(cfg, s, acts, fid) <==>
      EverRevokes(cfg, s, acts[..|acts|-1], fid) || LastRevokes(cfg, s, acts, fid)
  {
    var front := acts[..|acts|-1];
    if c, k :| RevokesAt(cfg, s, acts, c, k, fid) && k != |acts| - 1 { RevokesAtSnoc(cfg, s, acts, c, k, fid); }
    if c, k :| RevokesAt(cfg, s, front, c, k, fid) { RevokesAtSnoc(cfg, s, acts, c, k, fid); }
  }

  /** The last step of a run revokes a row if and only if it is a revoking step on its family. */
  lemma RevokingLastStep(cfg: Config, s: State, acts: seq<Action>, id: Id)
    requires Reachable(cfg, s) && Legal(cfg, s, acts) && acts != [] && id in s.db
    ensures Legal(cfg, s, acts[..|acts|-1])
    ensures id in Exec(cfg, s, acts[..|acts|-1]).db && id in Exec(cfg, s, acts).db
    ensures Exec(cfg, s, acts).db[id].revokedAt.Some? <==>
      || Exec(cfg, s, acts[..|acts|-1]).db[id].revokedAt.Some?
      || LastRevokes(cfg, s, acts, s.db[id].familyId)
  {
    var a := acts[|acts|-1];
    var m := Exec(cfg, s, acts[..|acts|-1]);
    var fams := LastStep(cfg, s, acts, id);
    StateAtPrefix(cfg, s, acts, |acts| - 1);
    NextEvolves(cfg, m, a);
    assert RowEvolves(m.db[id], Next(cfg, m, a).db[id]);
    if m.db[id].revokedAt.None? { RevokingStepExactly(cfg, m, a, id); }
  }

  /** A row unrevoked before a run is revoked after it if and only if some step revoked its family. */
  lemma {:induction false} RevokedIffRevokesAt(cfg: Config, s: State, acts: seq<Action>, id: Id)
    requires Reachable(cfg, s) && Legal(cfg, s, acts) && id in s.db && s.db[id].revokedAt.None?
    ensures id in Exec(cfg, s, acts).db
    ensures Exec(cfg, s, acts).db[id].revokedAt.Some? <==> EverRevokes(cfg, s, acts, s.db[id].familyId)
  {
    if acts != [] {
      RevokingLastStep(cfg, s, acts, id);
      RevokedIffRevokesAt(cfg, s, acts[..|acts|-1], id);
      EverRevokesSnoc(cfg, s, acts, s.db[id].familyId);
    }
  }

  /** A call that has revoked rows is finished, and not as expired. */
  lemma {:induction false} RevokersDoNotExpire(cfg: Config, s: State, acts: seq<Action>, c: CallId, k: int, fid: Option<Id>)
    requires Reachable(cfg, s) && RevokesAt(cfg, s, acts, c, k, fid)
    ensures c in Exec(cfg, s, acts).calls && Exec(cfg, s, acts).calls[c].pc.Done?
    ensures !Exec(cfg, s, acts).calls[c].pc.outcome.ExpiredRefreshToken?
    decreases |acts|
  {
    var front, a, n := acts[..|acts|-1], acts[|acts|-1], |acts| - 1;
    var m := Exec(cfg, s, front);
    var fams := ReachableInv(cfg, s);
    RunInv(cfg, s, fams, front);
    StateAtPrefix(cfg, s, acts, n);
    if k == n {
      assert CallOk(m, m.calls[c]);
    } else {
      RevokesAtSnoc(cfg, s, acts, c, k, fid);
      RevokersDoNotExpire(cfg, s, front, c, k, fid);
      CallHistory(cfg, m, a, c);
    }
  }

  // ---------- The race ----------

  /** A call other than `d` revokes the family of row `id` during the run. */
  ghost predicate RevokedByOther(cfg: Config, s: State, acts: seq<Action>, d: CallId, id: Id)
    requires id in s.db
  {
    exists c, k :: c != d && RevokesAt(cfg, s, acts, c, k, s.db[id].familyId)
  }

  /**
   The exact outcome of a race between `c`, which obtained credentials, and
   `d`: the family ends revoked if and only if the loser's deadline check came
   in time, or some other call revoked the family besides.
   */
  lemma RaceRevokesIffInTime(cfg: Config, s: State, acts: seq<Action>, c: CallId, d: CallId, id: Id)
    requires Race(cfg, s, acts, c, d, id)
    ensures id in Exec(cfg, s, acts).db
    ensures FamilyRevoked(Exec(cfg, s, acts).db, id) <==> !ChecksLate(cfg, s, acts, d) || RevokedByOther(cfg, s, acts, d, id)
  {
    var e := Exec(cfg, s, acts);
    if s.db[id].revokedAt.Some? { RevokedTokenIsInvalid(cfg, s, acts, c, id); }
    LoserRevokesOrExpires(cfg, s, acts, c, d, id);
    RevokedIffRevokesAt(cfg, s, acts, id);
    ExpiredIffChecksLate(cfg, s, acts, d);
    if e.db[id].revokedAt.Some? {
      ReachableLater(cfg, s, acts);
      RevokedRowRevokesFamily(cfg, e, id);
      var x, k :| RevokesAt(cfg, s, acts, x, k, s.db[id].familyId);
      RevokersDoNotExpire(cfg, s, acts, x, k, s.db[id].familyId);
    }
  }
}
