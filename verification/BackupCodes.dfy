/** Backup codes: a set of hashes of which each can be used once. */
module BackupCodes {
  import opened Wrappers
  import Sets
  import opened Tokens

  type Identity = nat

  datatype Enrollment = Enrollment(identity: Identity, hashes: seq<TokenHash>, used: seq<TokenHash>)

  datatype Error = NotEnrolled | UnencodableCode | InvalidCode | AlreadyUsed

  /** What presenting a code does to an enrollment. */
  function Verified(e: Enrollment, code: Token): Result<Enrollment, Error> {
    if !Encodable(code) then Err(UnencodableCode)
    else if Hash(code) !in e.hashes then Err(InvalidCode)
    else if Hash(code) in e.used then Err(AlreadyUsed)
    else Ok(e.(used := e.used + [Hash(code)]))
  }

  // ---------- The factor ----------

  class BackupCodesFactor {
    var store: map<Identity, Enrollment>

    constructor ()
      ensures store == map[]
    {
      store := map[];
    }

    method GetEnrollment(identity: Identity) returns (r: Option<Enrollment>)
      ensures r == if identity in store then Some(store[identity]) else None
    {
      if identity in store { r := Some(store[identity]); } else { r := None; }
    }

    /**
     `codes` are the newly drawn codes; they need not differ. An earlier set is
     discarded, used or not, even when a drawn code turns out to have no hash.
     */
    method Enroll(identity: Identity, codes: seq<Token>) returns (r: Result<Enrollment, Error>)
      modifies this`store
      ensures r.Ok? <==> forall i | 0 <= i < |codes| :: Encodable(codes[i])
      ensures r.Err? ==> r.error == UnencodableCode && store == old(store) - {identity}
      ensures r.Ok? ==>
        r.value.identity == identity && HoldsCodes(r.value, codes) && r.value.used == [] && store == old(store)[identity := r.value]
    {
      if identity in store { store := store - {identity}; }
      assert store == old(store) - {identity};
      var hashes := [];
      for i := 0 to |codes|
        invariant |hashes| == i && store == old(store) - {identity}
        invariant forall j | 0 <= j < i :: Encodable(codes[j]) && hashes[j] == Hash(codes[j])
      {
        var hash := GetTokenHash(codes[i]);
        if hash.None? { return Err(UnencodableCode); }
        hashes := hashes + [hash.value];
      }
      var e := Enrollment(identity, hashes, []);
      store := store[identity := e];
      return Ok(e);
    }

    method Verify(identity: Identity, code: Token) returns (r: Result<Enrollment, Error>)
      modifies this`store
      ensures identity !in old(store) ==> r == Err(NotEnrolled)
      ensures identity in old(store) ==> r == Verified(old(store)[identity], code)
      ensures store == if r.Ok? then old(store)[identity := r.value] else old(store)
    {
      if identity !in store { return Err(NotEnrolled); }
      var enrollment := store[identity];
      var hash := GetTokenHash(code);
      if hash.None? { return Err(UnencodableCode); }
      if hash.value !in enrollment.hashes { return Err(InvalidCode); }
      if hash.value in enrollment.used { return Err(AlreadyUsed); }
      enrollment := enrollment.(used := enrollment.used + [hash.value]);
      store := store[identity := enrollment];
      return Ok(enrollment);
    }
  }

  /** The enrollment's hashes are those of the codes, in order. */
  ghost predicate HoldsCodes(e: Enrollment, codes: seq<Token>) {
    |e.hashes| == |codes| && forall i | 0 <= i < |codes| :: e.hashes[i] == Hash(codes[i])
  }

  // ---------- Runs between two enrollments ----------

  function Step(e: Enrollment, code: Token): Enrollment {
    var r := Verified(e, code);
    if r.Ok? then r.value else e
  }

  ghost function After(e: Enrollment, codes: seq<Token>): Enrollment {
    if codes == [] then e else Step(After(e, codes[..|codes|-1]), codes[|codes|-1])
  }

  /** The presentation at position `i` succeeded. */
  ghost predicate Succeeds(e: Enrollment, codes: seq<Token>, i: int) {
    0 <= i < |codes| && Verified(After(e, codes[..i]), codes[i]).Ok?
  }

  ghost function Successes(e: Enrollment, codes: seq<Token>): nat {
    if codes == [] then 0
    else Successes(e, codes[..|codes|-1]) + (if Succeeds(e, codes, |codes| - 1) then 1 else 0)
  }

  ghost function Distinct(s: seq<TokenHash>): set<TokenHash> { set h | h in s }

  ghost predicate NoDuplicates(s: seq<TokenHash>) {
    forall i, j | 0 <= i < j < |s| :: s[i] != s[j]
  }

  /** The used hashes are distinct enrolled hashes. */
  ghost predicate Sound(e: Enrollment) {
    NoDuplicates(e.used) && forall h | h in e.used :: h in e.hashes
  }

  lemma {:induction false} RunKeepsSound(e: Enrollment, codes: seq<Token>)
    requires Sound(e)
    ensures Sound(After(e, codes)) && After(e, codes).hashes == e.hashes && e.used <= After(e, codes).used
    ensures |After(e, codes).used| == |e.used| + Successes(e, codes)
  {
    if codes != [] {
      var front := codes[..|codes|-1];
      RunKeepsSound(e, front);
      assert codes[..|codes|-1] == front;
    }
  }

  /** After a run the used hashes are those used before and those of the enrolled codes presented in it. */
  lemma {:induction false} UsedAfter(e: Enrollment, codes: seq<Token>, code: Token)
    requires Encodable(code)
    ensures After(e, codes).hashes == e.hashes
    ensures Hash(code) in After(e, codes).used <==> Hash(code) in e.used || (Hash(code) in e.hashes && code in codes)
    decreases |codes|
  {
    if codes != [] {
      var front, last := codes[..|codes|-1], codes[|codes|-1];
      UsedAfter(e, front, code);
      assert codes == front + [last];
    }
  }

  /** After any presentations a code succeeds if and only if it is enrolled, was not used before, and is not among them. */
  lemma {:induction false} UnusedCodesStillWork(e: Enrollment, codes: seq<Token>, code: Token)
    ensures Verified(After(e, codes), code).Ok? <==>
      Encodable(code) && Hash(code) in e.hashes && Hash(code) !in e.used && code !in codes
  {
    if Encodable(code) { UsedAfter(e, codes, code); }
  }

  /**
   What a presented code comes to, told by the codes that were drawn and those
   presented since: it succeeds if and only if it was drawn and not presented,
   is used if and only if it was drawn and presented, and is invalid otherwise.
   */
  lemma CodeOutcome(e: Enrollment, drawn: seq<Token>, codes: seq<Token>, code: Token)
    requires HoldsCodes(e, drawn) && e.used == [] && forall i | 0 <= i < |drawn| :: Encodable(drawn[i])
    ensures match Verified(After(e, codes), code)
      case Ok(e') => code in drawn && code !in codes && e' == After(e, codes + [code])
      case Err(AlreadyUsed) => code in drawn && code in codes
      case Err(InvalidCode) => code !in drawn && Encodable(code)
      case Err(UnencodableCode) => !Encodable(code)
      case Err(NotEnrolled) => false
  {
    assert (codes + [code])[..|codes|] == codes;
    assert Hash(code) in e.hashes <==> code in drawn by {
      if i :| 0 <= i < |drawn| && drawn[i] == code { assert e.hashes[i] == Hash(code); }
    }
    if Encodable(code) { UsedAfter(e, codes, code); }
  }

  lemma {:induction false} SuccessIsRecorded(e: Enrollment, codes: seq<Token>, i: nat)
    requires Sound(e) && Succeeds(e, codes, i)
    ensures Hash(codes[i]) in After(e, codes).used
    decreases |codes|
  {
    var front := codes[..|codes|-1];
    if i < |front| {
      assert front[..i] == codes[..i];
      SuccessIsRecorded(e, front, i);
    }
  }

  /** Each code succeeds at most once. */
  lemma CodesAreSingleUse(e: Enrollment, codes: seq<Token>, i: nat, j: nat)
    requires Sound(e) && i < j && Succeeds(e, codes, i) && Succeeds(e, codes, j)
    ensures codes[i] != codes[j]
  {
    var before := codes[..j];
    assert before[..i] == codes[..i];
    SuccessIsRecorded(e, before, i);
  }

  lemma {:induction false} DistinctCount(s: seq<TokenHash>)
    requires NoDuplicates(s)
    ensures |Distinct(s)| == |s|
  {
    if s != [] {
      var front := s[..|s|-1];
      DistinctCount(front);
      assert Distinct(s) == Distinct(front) + {s[|s|-1]};
      assert s[|s|-1] !in Distinct(front);
    }
  }

  lemma {:induction false} DistinctAtMost(s: seq<TokenHash>)
    ensures |Distinct(s)| <= |s|
  {
    if s != [] {
      DistinctAtMost(s[..|s|-1]);
      assert Distinct(s) == Distinct(s[..|s|-1]) + {s[|s|-1]};
    }
  }

  /** A set of codes yields at most as many successes as it has distinct hashes, and so at most one per code drawn. */
  lemma SuccessesAreBounded(e: Enrollment, codes: seq<Token>)
    requires e.used == []
    ensures Successes(e, codes) <= |Distinct(e.hashes)| <= |e.hashes|
  {
    RunKeepsSound(e, codes);
    var used := After(e, codes).used;
    DistinctCount(used);
    Sets.SubsetSize(Distinct(used), Distinct(e.hashes));
    DistinctAtMost(e.hashes);
  }
}
