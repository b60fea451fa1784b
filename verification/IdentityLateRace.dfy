/**
 The race that revokes nothing: a loser that looked the row up before it was
 replaced, but reads the clock only after the deadline, reports the deadline
 and leaves the family as it is.
 */
module IdentityLateRace {
  import opened Wrappers
  import opened Tokens
  import opened IdentityMachine
  import opened IdentityRuns
  import opened IdentityRaces

  ghost predicate Leads(cfg: Config, s: State, e: State) {
    exists acts :: Legal(cfg, s, acts) && Exec(cfg, s, acts) == e
  }

  lemma LeadsTransitive(cfg: Config, s: State, m: State, e: State)
    requires Leads(cfg, s, m) && Leads(cfg, m, e)
    ensures Leads(cfg, s, e)
  {
    var xs :| Legal(cfg, s, xs) && Exec(cfg, s, xs) == m;
    var ys :| Legal(cfg, m, ys) && Exec(cfg, m, ys) == e;
    ExecConcat(cfg, s, xs, ys);
  }

  lemma LeadsStep(cfg: Config, s: State, a: Action)
    requires Enabled(s, a)
    ensures Leads(cfg, s, Next(cfg, s, a))
  {
    ExecSnoc(cfg, s, [], a);
  }

  // ---------- The states of the race ----------

  // A family is issued as row 7 with tokens `a` and `r`. Calls 1 and 2 both refresh `r`; call 2 looks the row
  // up first, call 1 replaces it by row 8, and the deadline passes before call 2 reads the clock.

  datatype Scene = Scene(cfg: Config, start: int, a: Token, r: Token, a': Token, r': Token)

  ghost predicate Playable(x: Scene) {
    && 0 < x.cfg.refreshLifetime
    && Encodable(x.a) && Encodable(x.r) && Encodable(x.a') && Encodable(x.r')
    && x.a != x.r && x.a' != x.a && x.a' != x.r && x.r' != x.a && x.r' != x.r && x.a' != x.r'
  }

  ghost const CLAIMS: Claims := Claims(0, [], None)

  ghost function FirstDraft(x: Scene): Session {
    CreateSession(x.cfg, x.start, CLAIMS, None, None, x.a, Some(x.r))
  }

  ghost function Root(x: Scene): Session { Stored(FirstDraft(x), 7) }

  ghost function NewCredentials(x: Scene): Credentials {
    Credentials(x.a', Some(x.r'),
      CreateSession(x.cfg, x.start, ClaimsOf(Root(x)), Root(x).refreshExpiresAt, Root(x).familyId, x.a', Some(x.r')))
  }

  ghost function IssueCall(pc: Pc): Call { Call(Issue(CLAIMS, true), pc) }

  ghost function RefreshCall(x: Scene, pc: Pc): Call { Call(Refresh(x.r, true), pc) }

  ghost function IssuedCall(x: Scene): Call {
    IssueCall(Done(Issued(Credentials(x.a, Some(x.r), FirstDraft(x).(id := Some(7), familyId := Some(7))))))
  }

  ghost function LookupPc(x: Scene): Pc { RefreshLookup(Hash(x.r), false) }

  ghost function CheckPc(x: Scene): Pc { RefreshCheck(Hash(x.r), Root(x), false) }

  ghost function WonPc(x: Scene): Pc {
    Done(Issued(NewCredentials(x).(session := NewCredentials(x).session.(id := Some(8)))))
  }

  ghost function Table(x: Scene, one: Pc, two: Pc): map<CallId, Call> {
    map[0 := IssuedCall(x), 1 := RefreshCall(x, one), 2 := RefreshCall(x, two)]
  }

  /** Before the replacement. */
  ghost function Early(x: Scene, one: Pc, two: Pc, drawn: set<Token>): State {
    State(map[7 := Root(x)], x.start, Table(x, one, two), drawn)
  }

  /** After it. */
  ghost function Late(x: Scene, now: int, two: Pc): State {
    State(map[7 := Root(x).(replacedBy := Some(8)), 8 := Stored(NewCredentials(x).session, 8)],
          now, Table(x, WonPc(x), two), {x.a, x.r, x.a', x.r'})
  }

  ghost function AfterIssue(x: Scene): State {
    State(map[7 := Root(x)], x.start, map[0 := IssuedCall(x)], {x.a, x.r})
  }

  lemma TableMoves(x: Scene, one: Pc, two: Pc, pc: Pc)
    ensures Table(x, one, two)[1 := Table(x, one, two)[1].(pc := pc)] == Table(x, pc, two)
    ensures Table(x, one, two)[2 := Table(x, one, two)[2].(pc := pc)] == Table(x, one, pc)
  {
  }

  // ---------- The steps of the race ----------

  lemma IssueSteps(x: Scene)
    requires Playable(x)
    ensures Leads(x.cfg, Init(x.start), AfterIssue(x))
  {
    var s0 := Init(x.start);
    var s1 := s0.(calls := map[0 := IssueCall(IssueCreate)]);
    var creds := Credentials(x.a, Some(x.r), FirstDraft(x));
    var s2 := State(map[], x.start, map[0 := IssueCall(IssueInsert(creds))], {x.a, x.r});
    IssueBegin(x, s0, s1);
    IssueDraw(x, s1, s2);
    IssueStore(x, s2);
    LeadsTransitive(x.cfg, s0, s1, s2);
    LeadsTransitive(x.cfg, s0, s2, AfterIssue(x));
  }

  lemma IssueBegin(x: Scene, s: State, e: State)
    requires s == Init(x.start) && e == s.(calls := map[0 := IssueCall(IssueCreate)])
    ensures Leads(x.cfg, s, e)
  {
    var a := Begin(0, Issue(CLAIMS, true));
    LeadsStep(x.cfg, s, a);
    assert Next(x.cfg, s, a).calls == e.calls;
  }

  lemma IssueDraw(x: Scene, s: State, e: State)
    requires Playable(x) && s == Init(x.start).(calls := map[0 := IssueCall(IssueCreate)])
    requires e == State(map[], x.start, map[0 := IssueCall(IssueInsert(Credentials(x.a, Some(x.r), FirstDraft(x))))], {x.a, x.r})
    ensures Leads(x.cfg, s, e)
  {
    var a := Advance(0, Draw(x.a, Some(x.r)));
    LeadsStep(x.cfg, s, a);
    assert Next(x.cfg, s, a).calls == e.calls && Next(x.cfg, s, a).drawn == e.drawn;
  }

  lemma IssueStore(x: Scene, s: State)
    requires s == State(map[], x.start, map[0 := IssueCall(IssueInsert(Credentials(x.a, Some(x.r), FirstDraft(x))))], {x.a, x.r})
    ensures Leads(x.cfg, s, AfterIssue(x))
  {
    var a := Advance(0, NewId(7));
    LeadsStep(x.cfg, s, a);
    assert Next(x.cfg, s, a).calls == AfterIssue(x).calls && Next(x.cfg, s, a).drawn == s.drawn;
  }

  lemma BeginSteps(x: Scene)
    requires Playable(x)
    ensures Leads(x.cfg, AfterIssue(x), Early(x, LookupPc(x), LookupPc(x), {x.a, x.r}))
  {
    var s := AfterIssue(x);
    var m := s.(calls := s.calls[1 := RefreshCall(x, LookupPc(x))]);
    LeadsStep(x.cfg, s, Begin(1, Refresh(x.r, true)));
    LeadsStep(x.cfg, m, Begin(2, Refresh(x.r, true)));
    assert m.calls[2 := RefreshCall(x, LookupPc(x))] == Table(x, LookupPc(x), LookupPc(x));
    LeadsTransitive(x.cfg, s, m, Early(x, LookupPc(x), LookupPc(x), {x.a, x.r}));
  }

  /** Either call's lookup finds row 7 usable. */
  lemma LookupStep(x: Scene, two: Pc)
    requires Playable(x)
    ensures Leads(x.cfg, Early(x, LookupPc(x), LookupPc(x), {x.a, x.r}), Early(x, LookupPc(x), CheckPc(x), {x.a, x.r}))
    ensures Leads(x.cfg, Early(x, LookupPc(x), two, {x.a, x.r}), Early(x, CheckPc(x), two, {x.a, x.r}))
  {
    var s, t := Early(x, LookupPc(x), LookupPc(x), {x.a, x.r}), Early(x, LookupPc(x), two, {x.a, x.r});
    LeadsStep(x.cfg, s, Advance(2, Found(Some(7))));
    TableMoves(x, LookupPc(x), LookupPc(x), CheckPc(x));
    LeadsStep(x.cfg, t, Advance(1, Found(Some(7))));
    TableMoves(x, LookupPc(x), two, CheckPc(x));
    assert s.drawn + {} == s.drawn;
  }

  lemma CheckStep(x: Scene, two: Pc)
    requires Playable(x)
    ensures Leads(x.cfg, Early(x, CheckPc(x), two, {x.a, x.r}), Early(x, RefreshCreate(Hash(x.r), Root(x)), two, {x.a, x.r}))
  {
    var s := Early(x, CheckPc(x), two, {x.a, x.r});
    LeadsStep(x.cfg, s, Advance(1, Nothing));
    TableMoves(x, CheckPc(x), two, RefreshCreate(Hash(x.r), Root(x)));
    assert s.drawn + {} == s.drawn;
  }

  lemma DrawStep(x: Scene, two: Pc)
    requires Playable(x)
    ensures Leads(x.cfg, Early(x, RefreshCreate(Hash(x.r), Root(x)), two, {x.a, x.r}),
                         Early(x, RefreshReplace(Hash(x.r), Root(x), NewCredentials(x)), two, {x.a, x.r, x.a', x.r'}))
  {
    var s := Early(x, RefreshCreate(Hash(x.r), Root(x)), two, {x.a, x.r});
    var a := Advance(1, Draw(x.a', Some(x.r')));
    LeadsStep(x.cfg, s, a);
    TableMoves(x, RefreshCreate(Hash(x.r), Root(x)), two, RefreshReplace(Hash(x.r), Root(x), NewCredentials(x)));
    assert Next(x.cfg, s, a).drawn == {x.a, x.r, x.a', x.r'};
  }

  lemma ReplacedStore(x: Scene)
    requires Playable(x)
    ensures Replaceable(map[7 := Root(x)], x.start, Root(x))
    ensures Replace(map[7 := Root(x)], Root(x), NewCredentials(x).session, 8)
      == map[7 := Root(x).(replacedBy := Some(8)), 8 := Stored(NewCredentials(x).session, 8)]
  {
  }

  lemma ReplaceStep(x: Scene, two: Pc)
    requires Playable(x)
    ensures Leads(x.cfg, Early(x, RefreshReplace(Hash(x.r), Root(x), NewCredentials(x)), two, {x.a, x.r, x.a', x.r'}),
                         Late(x, x.start, two))
  {
    var s := Early(x, RefreshReplace(Hash(x.r), Root(x), NewCredentials(x)), two, {x.a, x.r, x.a', x.r'});
    var a := Advance(1, NewId(8));
    LeadsStep(x.cfg, s, a);
    TableMoves(x, RefreshReplace(Hash(x.r), Root(x), NewCredentials(x)), two, WonPc(x));
    assert Next(x.cfg, s, a).drawn == s.drawn;
    ReplacedStore(x);
    assert Next(x.cfg, s, a) == Late(x, x.start, two);
  }

  lemma LoseSteps(x: Scene)
    requires Playable(x)
    ensures Leads(x.cfg, Late(x, x.start, CheckPc(x)), Late(x, x.start + x.cfg.refreshLifetime, Done(ExpiredRefreshToken)))
  {
    var s, m := Late(x, x.start, CheckPc(x)), Late(x, x.start + x.cfg.refreshLifetime, CheckPc(x));
    LeadsStep(x.cfg, s, Tick(x.cfg.refreshLifetime));
    LeadsStep(x.cfg, m, Advance(2, Nothing));
    TableMoves(x, WonPc(x), CheckPc(x), Done(ExpiredRefreshToken));
    assert m.drawn + {} == m.drawn;
    LeadsTransitive(x.cfg, s, m, Late(x, x.start + x.cfg.refreshLifetime, Done(ExpiredRefreshToken)));
  }

  lemma RaceSteps(x: Scene)
    requires Playable(x)
    ensures Leads(x.cfg, AfterIssue(x), Late(x, x.start + x.cfg.refreshLifetime, Done(ExpiredRefreshToken)))
  {
    var s, two, drawn := AfterIssue(x), CheckPc(x), {x.a, x.r};
    BeginSteps(x);
    LookupStep(x, two);
    LeadsTransitive(x.cfg, s, Early(x, LookupPc(x), LookupPc(x), drawn), Early(x, LookupPc(x), two, drawn));
    LeadsTransitive(x.cfg, s, Early(x, LookupPc(x), two, drawn), Early(x, two, two, drawn));
    CheckStep(x, two);
    LeadsTransitive(x.cfg, s, Early(x, two, two, drawn), Early(x, RefreshCreate(Hash(x.r), Root(x)), two, drawn));
    DrawStep(x, two);
    var replace := Early(x, RefreshReplace(Hash(x.r), Root(x), NewCredentials(x)), two, {x.a, x.r, x.a', x.r'});
    LeadsTransitive(x.cfg, s, Early(x, RefreshCreate(Hash(x.r), Root(x)), two, drawn), replace);
    ReplaceStep(x, two);
    LeadsTransitive(x.cfg, s, replace, Late(x, x.start, two));
    LoseSteps(x);
    LeadsTransitive(x.cfg, s, Late(x, x.start, two), Late(x, x.start + x.cfg.refreshLifetime, Done(ExpiredRefreshToken)));
  }

  /**
   From `now` until the very moment of the deadline of row 7, calls 1 and 2
   race for its token, and its family ends unrevoked.
   */
  ghost predicate Escapes(cfg: Config, now: int, s: State, acts: seq<Action>) {
    && Race(cfg, s, acts, 1, 2, 7) && 7 in Exec(cfg, s, acts).db && !FamilyRevoked(Exec(cfg, s, acts).db, 7)
    && s.now == now && s.db[7].refreshExpiresAt == Some(now + cfg.refreshLifetime)
    && Exec(cfg, s, acts).now == now + cfg.refreshLifetime
  }

  lemma SceneEscapes(x: Scene, acts: seq<Action>)
    requires Playable(x) && Leads(x.cfg, Init(x.start), AfterIssue(x)) && Legal(x.cfg, AfterIssue(x), acts)
    requires Exec(x.cfg, AfterIssue(x), acts) == Late(x, x.start + x.cfg.refreshLifetime, Done(ExpiredRefreshToken))
    ensures Escapes(x.cfg, x.start, AfterIssue(x), acts)
  {
    var e := Late(x, x.start + x.cfg.refreshLifetime, Done(ExpiredRefreshToken));
    assert LaterRefresh(x.cfg, AfterIssue(x), acts, 1, 7) && LaterRefresh(x.cfg, AfterIssue(x), acts, 2, 7);
    assert e.db[7].revokedAt.None? && AfterIssue(x).db[7] == Root(x);
  }

  /** For every service whose refresh tokens live at all, at any time, some race that ends with the deadline revokes nothing. */
  lemma LateLoserRevokesNothing(cfg: Config, now: int)
    requires 0 < cfg.refreshLifetime
    ensures exists s, acts :: Escapes(cfg, now, s, acts)
  {
    var x := Scene(cfg, now, [], [1], [1, 1], [1, 1, 1]);
    IssueSteps(x);
    RaceSteps(x);
    var e := Late(x, x.start + x.cfg.refreshLifetime, Done(ExpiredRefreshToken));
    var acts :| Legal(cfg, AfterIssue(x), acts) && Exec(cfg, AfterIssue(x), acts) == e;
    SceneEscapes(x, acts);
  }
}
