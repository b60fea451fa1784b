/**
 The atomic specification: families instead of rows.

 A family is the chain of its members from the first issuance to the live head,
 with one revocation time, one absolute deadline and one set of claims. The
 store's rows are the families spelled out row by row.
 */
module IdentityFamilies {
  import opened Wrappers
  import opened Tokens
  import opened IdentityMachine

  datatype Member = Member(id: Id, tokenHash: TokenHash, expiresAt: int, refreshHash: Option<TokenHash>)

  datatype Family = Family(chain: seq<Member>, revokedAt: Option<int>, deadline: Option<int>, claims: Claims)

  /** Families by the id of their first session. */
  type Families = map<Id, Family>

  ghost predicate InChain(f: Family, i: int) { 0 <= i < |f.chain| }

  /** The row of the i-th member. */
  ghost function RowOf(fid: Id, f: Family, i: int): Session
    requires InChain(f, i)
  {
    var m := f.chain[i];
    Session(Some(m.id), m.tokenHash, m.expiresAt, f.claims.identity, f.claims.amr, f.claims.context, m.refreshHash,
            if m.refreshHash.Some? then f.deadline else None,
            Some(fid),
            if i + 1 < |f.chain| then Some(f.chain[i + 1].id) else None,
            f.revokedAt)
  }

  /** Only the head of a refreshable family may lack a refresh token, and no access outlives the deadline. */
  ghost predicate FamilyShape(fid: Id, f: Family) {
    && 0 < |f.chain| && f.chain[0].id == fid && CopyContext(f.claims.context) == f.claims.context
    && (forall i | InChain(f, i) && i + 1 < |f.chain| :: f.chain[i].refreshHash.Some?)
    && (forall i | InChain(f, i) :: f.chain[i].refreshHash.Some? ==> f.deadline.Some?)
    && (forall i | InChain(f, i) :: f.deadline.Some? ==> f.chain[i].expiresAt <= f.deadline.value)
    && (f.deadline.Some? ==> f.chain[0].refreshHash.Some?)
    && (forall i, j | InChain(f, i) && InChain(f, j) && f.chain[i].id == f.chain[j].id :: i == j)
  }

  ghost predicate FamilyStored(db: Store, fid: Id, f: Family) {
    forall i | InChain(f, i) :: f.chain[i].id in db && db[f.chain[i].id] == RowOf(fid, f, i)
  }

  ghost predicate MemberOf(fams: Families, fid: Id, id: Id) {
    fid in fams && exists i :: InChain(fams[fid], i) && fams[fid].chain[i].id == id
  }

  ghost predicate FamiliesStored(db: Store, fams: Families) {
    forall fid | fid in fams :: FamilyShape(fid, fams[fid]) && FamilyStored(db, fid, fams[fid])
  }

  ghost predicate RowsBelong(db: Store, fams: Families) {
    forall id | id in db :: db[id].familyId.Some? && MemberOf(fams, db[id].familyId.value, id)
  }

  /** The rows are exactly the members of the families. */
  ghost predicate Represents(db: Store, fams: Families) {
    FamiliesStored(db, fams) && RowsBelong(db, fams)
  }

  /** The position of a row in its family. */
  lemma Locate(db: Store, fams: Families, id: Id) returns (fid: Id, i: nat)
    requires Represents(db, fams) && id in db
    ensures db[id].familyId == Some(fid) && fid in fams && i < |fams[fid].chain| && fams[fid].chain[i].id == id
    ensures db[id] == RowOf(fid, fams[fid], i)
    ensures fid in db && db[fid] == RowOf(fid, fams[fid], 0)
  {
    fid := db[id].familyId.value;
    assert MemberOf(fams, fid, id);
    i :| InChain(fams[fid], i) && fams[fid].chain[i].id == id;
    assert FamilyStored(db, fid, fams[fid]) && FamilyShape(fid, fams[fid]);
    assert InChain(fams[fid], 0);
  }

  // ---------- Atomic operations on families ----------

  ghost function MemberFrom(session: Session, id: Id): Member {
    Member(id, session.tokenHash, session.expiresAt, session.refreshHash)
  }

  ghost function NewFamily(session: Session, id: Id): Family {
    Family([MemberFrom(session, id)], None, session.refreshExpiresAt, ClaimsOf(session))
  }

  ghost function Rotated(f: Family, session: Session, id: Id): Family {
    f.(chain := f.chain + [MemberFrom(session, id)])
  }

  ghost function RevokedFamily(f: Family, at: Option<int>): Family {
    if f.revokedAt.None? then f.(revokedAt := at) else f
  }

  /** A draft that may open a family. */
  ghost predicate OpensFamily(draft: Session) {
    && draft.familyId.None? && draft.replacedBy.None? && draft.revokedAt.None?
    && CopyContext(draft.context) == draft.context
    && (draft.refreshHash.Some? <==> draft.refreshExpiresAt.Some?)
    && (draft.refreshExpiresAt.Some? ==> draft.expiresAt <= draft.refreshExpiresAt.value)
  }

  /** A draft that may follow `previous` in its family. */
  ghost predicate Continues(draft: Session, previous: Session) {
    && draft.familyId == previous.familyId && draft.replacedBy.None? && draft.revokedAt.None?
    && ClaimsOf(draft) == ClaimsOf(previous)
    && previous.refreshExpiresAt.Some? && draft.expiresAt <= previous.refreshExpiresAt.value
    && draft.refreshExpiresAt == (if draft.refreshHash.Some? then previous.refreshExpiresAt else None)
  }

  lemma FamilyIdsStored(db: Store, fams: Families, fid: Id)
    requires Represents(db, fams) && fid in fams
    ensures fid in db && db[fid] == RowOf(fid, fams[fid], 0)
  {
    assert InChain(fams[fid], 0);
  }

  lemma InsertKeepsFamily(db: Store, fid: Id, f: Family, draft: Session, id: Id)
    requires FamilyStored(db, fid, f) && id !in db
    ensures FamilyStored(Insert(db, draft, id), fid, f)
  {
    forall i | InChain(f, i)
      ensures f.chain[i].id in Insert(db, draft, id) && Insert(db, draft, id)[f.chain[i].id] == RowOf(fid, f, i)
    {
      assert db[f.chain[i].id] == RowOf(fid, f, i);
    }
  }

  lemma NewFamilyStored(db: Store, draft: Session, id: Id)
    requires OpensFamily(draft)
    ensures FamilyShape(id, NewFamily(draft, id)) && FamilyStored(Insert(db, draft, id), id, NewFamily(draft, id))
  {
  }

  /** A member stays a member when chains only grow. */
  lemma MemberKept(fams: Families, fams': Families, fid: Id, id: Id)
    requires MemberOf(fams, fid, id) && fid in fams' && fams[fid].chain <= fams'[fid].chain
    ensures MemberOf(fams', fid, id)
  {
    var i :| InChain(fams[fid], i) && fams[fid].chain[i].id == id;
    assert InChain(fams'[fid], i) && fams'[fid].chain[i] == fams[fid].chain[i];
  }

  lemma InsertStoresFamilies(db: Store, fams: Families, draft: Session, id: Id)
    requires FamiliesStored(db, fams) && id !in db && OpensFamily(draft)
    ensures FamiliesStored(Insert(db, draft, id), fams[id := NewFamily(draft, id)])
  {
    var fams' := fams[id := NewFamily(draft, id)];
    NewFamilyStored(db, draft, id);
    forall fid | fid in fams' ensures FamilyShape(fid, fams'[fid]) && FamilyStored(Insert(db, draft, id), fid, fams'[fid]) {
      if fid != id { InsertKeepsFamily(db, fid, fams[fid], draft, id); }
    }
  }

  lemma InsertRepresents(db: Store, fams: Families, draft: Session, id: Id)
    requires Represents(db, fams) && id !in db && OpensFamily(draft)
    ensures id !in fams
    ensures Represents(Insert(db, draft, id), fams[id := NewFamily(draft, id)])
  {
    if id in fams { FamilyIdsStored(db, fams, id); }
    var db', fams' := Insert(db, draft, id), fams[id := NewFamily(draft, id)];
    InsertStoresFamilies(db, fams, draft, id);
    forall x | x in db' ensures db'[x].familyId.Some? && MemberOf(fams', db'[x].familyId.value, x) {
      if x == id {
        assert InChain(fams'[id], 0) && fams'[id].chain[0].id == id;
      } else {
        MemberKept(fams, fams', db[x].familyId.value, x);
      }
    }
  }

  ghost function Head(f: Family): Member
    requires 0 < |f.chain|
  {
    f.chain[|f.chain| - 1]
  }

  /** The head's refresh token may still be exchanged. */
  ghost predicate Rotatable(f: Family, now: int) {
    && 0 < |f.chain| && f.revokedAt.None?
    && Head(f).refreshHash.Some? && f.deadline.Some? && now < f.deadline.value
  }

  /** The row that `replace` accepts is the live head of an unrevoked family before its deadline. */
  lemma ReplaceableIsHead(db: Store, fams: Families, now: int, previous: Session) returns (fid: Id)
    requires Represents(db, fams) && Replaceable(db, now, previous)
    ensures db[previous.id.value].familyId == Some(fid) && fid in fams && FamilyShape(fid, fams[fid])
    ensures Rotatable(fams[fid], now)
    ensures Head(fams[fid]).id == previous.id.value && Head(fams[fid]).refreshHash == previous.refreshHash
    ensures db[previous.id.value] == RowOf(fid, fams[fid], |fams[fid].chain| - 1)
  {
    var i;
    fid, i := Locate(db, fams, previous.id.value);
  }

  lemma RotatedShape(fid: Id, f: Family, draft: Session, id: Id)
    requires FamilyShape(fid, f) && f.deadline.Some? && Head(f).refreshHash.Some?
    requires draft.expiresAt <= f.deadline.value
    requires forall i | InChain(f, i) :: f.chain[i].id != id
    ensures FamilyShape(fid, Rotated(f, draft, id))
  {
    var g := Rotated(f, draft, id);
    assert forall i | InChain(f, i) :: g.chain[i] == f.chain[i];
    assert forall i | InChain(g, i) :: InChain(f, i) || i == |f.chain|;
  }

  /** Appending a member changes only the row of the old head. */
  lemma RotatedRow(fid: Id, f: Family, draft: Session, id: Id, i: nat)
    requires FamilyShape(fid, f) && i < |f.chain|
    ensures var g := Rotated(f, draft, id);
      RowOf(fid, g, i) == (if i + 1 == |f.chain| then RowOf(fid, f, i).(replacedBy := Some(id)) else RowOf(fid, f, i))
  {
    var g := Rotated(f, draft, id);
    assert g.chain[i] == f.chain[i];
    if i + 1 < |f.chain| { assert g.chain[i + 1] == f.chain[i + 1]; }
  }

  lemma ReplaceStoresFamily(db: Store, fid: Id, f: Family, previous: Session, draft: Session, id: Id)
    requires FamilyShape(fid, f) && FamilyStored(db, fid, f) && id !in db
    requires previous.id == Some(Head(f).id) && f.revokedAt.None?
    requires Stored(draft, id) == RowOf(fid, Rotated(f, draft, id), |f.chain|)
    ensures FamilyStored(Replace(db, previous, draft, id), fid, Rotated(f, draft, id))
  {
    var g := Rotated(f, draft, id);
    var db' := Replace(db, previous, draft, id);
    var last := |f.chain| - 1;
    assert InChain(f, last);
    forall i | InChain(g, i) ensures g.chain[i].id in db' && db'[g.chain[i].id] == RowOf(fid, g, i) {
      if i <= last {
        RotatedRow(fid, f, draft, id, i);
        assert InChain(f, i) && g.chain[i] == f.chain[i];
        assert db[f.chain[i].id] == RowOf(fid, f, i);
      }
    }
  }

  lemma ReplaceKeepsFamily(db: Store, fid: Id, f: Family, previous: Session, draft: Session, id: Id)
    requires FamilyStored(db, fid, f) && id !in db
    requires previous.id.Some? && previous.id.value in db && db[previous.id.value].familyId != Some(fid)
    ensures FamilyStored(Replace(db, previous, draft, id), fid, f)
  {
    var db' := Replace(db, previous, draft, id);
    forall i | InChain(f, i) ensures f.chain[i].id in db' && db'[f.chain[i].id] == RowOf(fid, f, i) {
      assert db[f.chain[i].id] == RowOf(fid, f, i);
    }
  }

  lemma ReplaceStoresFamilies(db: Store, fams: Families, fid: Id, previous: Session, draft: Session, id: Id)
    requires FamiliesStored(db, fams) && id !in db && fid in fams && 0 < |fams[fid].chain|
    requires previous.id == Some(Head(fams[fid]).id) && previous.id.value in db && db[previous.id.value].familyId == Some(fid)
    requires fams[fid].revokedAt.None? && FamilyShape(fid, Rotated(fams[fid], draft, id))
    requires Stored(draft, id) == RowOf(fid, Rotated(fams[fid], draft, id), |fams[fid].chain|)
    ensures FamiliesStored(Replace(db, previous, draft, id), fams[fid := Rotated(fams[fid], draft, id)])
  {
    var fams' := fams[fid := Rotated(fams[fid], draft, id)];
    forall x | x in fams' ensures FamilyShape(x, fams'[x]) && FamilyStored(Replace(db, previous, draft, id), x, fams'[x]) {
      if x == fid {
        ReplaceStoresFamily(db, fid, fams[fid], previous, draft, id);
      } else {
        ReplaceKeepsFamily(db, x, fams[x], previous, draft, id);
      }
    }
  }

  lemma ReplaceRowsBelong(db: Store, fams: Families, fid: Id, previous: Session, draft: Session, id: Id)
    requires RowsBelong(db, fams) && id !in db && fid in fams && draft.familyId == Some(fid)
    requires previous.id.Some? && previous.id.value in db
    ensures RowsBelong(Replace(db, previous, draft, id), fams[fid := Rotated(fams[fid], draft, id)])
  {
    var f, g := fams[fid], Rotated(fams[fid], draft, id);
    var db', fams' := Replace(db, previous, draft, id), fams[fid := g];
    forall x | x in db' ensures db'[x].familyId.Some? && MemberOf(fams', db'[x].familyId.value, x) {
      if x == id {
        assert InChain(g, |f.chain|) && g.chain[|f.chain|].id == id;
      } else {
        MemberKept(fams, fams', db[x].familyId.value, x);
      }
    }
  }

  lemma ReplaceRepresents(db: Store, fams: Families, now: int, previous: Session, draft: Session, id: Id)
    requires Represents(db, fams) && id !in db && Replaceable(db, now, previous)
    requires previous.familyId == db[previous.id.value].familyId && ClaimsOf(previous) == ClaimsOf(db[previous.id.value])
    requires previous.refreshExpiresAt == db[previous.id.value].refreshExpiresAt
    requires Continues(draft, previous)
    ensures previous.familyId.Some? && previous.familyId.value in fams
    ensures var fid := previous.familyId.value;
      Represents(Replace(db, previous, draft, id), fams[fid := Rotated(fams[fid], draft, id)])
  {
    var fid := ReplaceableIsHead(db, fams, now, previous);
    RotatedShape(fid, fams[fid], draft, id);
    ReplaceStoresFamilies(db, fams, fid, previous, draft, id);
    ReplaceRowsBelong(db, fams, fid, previous, draft, id);
  }

  lemma RevokeStoresFamily(db: Store, fid: Id, f: Family, session: Session)
    requires FamilyShape(fid, f) && FamilyStored(db, fid, f) && session.revokedAt.Some?
    ensures var g := if session.familyId == Some(fid) then RevokedFamily(f, session.revokedAt) else f;
      FamilyShape(fid, g) && FamilyStored(RevokeFamily(db, session), fid, g)
  {
    var g := if session.familyId == Some(fid) then RevokedFamily(f, session.revokedAt) else f;
    assert forall i :: InChain(g, i) <==> InChain(f, i);
    forall i | InChain(g, i)
      ensures g.chain[i].id in RevokeFamily(db, session) && RevokeFamily(db, session)[g.chain[i].id] == RowOf(fid, g, i)
    {
      assert db[f.chain[i].id] == RowOf(fid, f, i);
    }
  }

  lemma RevokeRowsBelong(db: Store, fams: Families, fid: Id, session: Session)
    requires RowsBelong(db, fams) && fid in fams
    ensures RowsBelong(RevokeFamily(db, session), fams[fid := RevokedFamily(fams[fid], session.revokedAt)])
  {
    var db', fams' := RevokeFamily(db, session), fams[fid := RevokedFamily(fams[fid], session.revokedAt)];
    forall x | x in db' ensures db'[x].familyId.Some? && MemberOf(fams', db'[x].familyId.value, x) {
      MemberKept(fams, fams', db[x].familyId.value, x);
    }
  }

  lemma RevokeRepresents(db: Store, fams: Families, session: Session)
    requires Represents(db, fams) && session.familyId.Some? && session.familyId.value in fams && session.revokedAt.Some?
    ensures var fid := session.familyId.value;
      Represents(RevokeFamily(db, session), fams[fid := RevokedFamily(fams[fid], session.revokedAt)])
  {
    var fid := session.familyId.value;
    var db', fams' := RevokeFamily(db, session), fams[fid := RevokedFamily(fams[fid], session.revokedAt)];
    forall x | x in fams' ensures FamilyShape(x, fams'[x]) && FamilyStored(db', x, fams'[x]) {
      RevokeStoresFamily(db, x, fams[x], session);
    }
    RevokeRowsBelong(db, fams, fid, session);
  }
}
