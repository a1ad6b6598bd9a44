/** When the reuse of a rotated token is noticed: as long as pruning has not removed its row. */
module TokenReuse {
  import opened Primitives
  import opened TokenStore
  import opened TokenFamilies

  // ----- How long a row is stored -----

  /** The raw token a step draws. */
  function Drawn(s: Step): Option<string> {
    match s
    case Issue(_, _, raw, _, _, _, _) => Some(raw)
    case Rotate(_, _, rawNew, _, _) => Some(rawNew)
    case _ => None
  }

  /** Tokens are random: no two steps draw tokens with the same hash. */
  ghost predicate FreshTokens(h: Hash, steps: seq<Step>) {
    forall i, j :: 0 <= i < j < |steps| && Drawn(steps[i]).Some? && Drawn(steps[j]).Some? ==>
      h(Drawn(steps[i]).value) != h(Drawn(steps[j]).value)
  }

  /** Step `i` creates a token. */
  ghost predicate CreatesAt(h: Hash, steps: seq<Step>, i: nat) {
    i < |steps| && Created(h, Run(h, steps[..i]), steps[i]).Some?
  }

  /** The row that step `i` appends. */
  function RowOf(h: Hash, steps: seq<Step>, i: nat): Row
    requires CreatesAt(h, steps, i)
  {
    CreatedIsLast(h, Run(h, steps[..i]), steps[i]);
    Next(h, Run(h, steps[..i]), steps[i]).rows[|Run(h, steps[..i]).rows|]
  }

  /** Same token, family and deadlines. */
  ghost predicate SameToken(x: Row, r: Row) {
    && x.tokenHash == r.tokenHash && x.familyId == r.familyId
    && x.absoluteExpiresAt == r.absoluteExpiresAt && x.slidingExpiresAt == r.slidingExpiresAt
  }

  ghost predicate Stored(rows: seq<Row>, r: Row) {
    exists x :: x in rows && SameToken(x, r)
  }

  /** No stored row has the hash of `r` unless it is the row of that token. */
  ghost predicate OnlyAs(rows: seq<Row>, r: Row) {
    forall x :: x in rows && x.tokenHash == r.tokenHash ==> SameToken(x, r)
  }

  /** Rows as they were up to revocation, and at most one more. */
  ghost predicate Stays(rows: seq<Row>, out: seq<Row>, tokenHash: string) {
    && |rows| <= |out| <= |rows| + 1
    && OnlyRevoked(rows, out[..|rows|])
    && (|out| > |rows| ==> out[|rows|].tokenHash == tokenHash)
  }

  lemma OneRevokedStays(rows: seq<Row>, i: nat, reason: Reason, more: seq<Row>, tokenHash: string)
    requires i < |rows| && |more| <= 1 && (more != [] ==> more[0].tokenHash == tokenHash)
    ensures Stays(rows, rows[i := RevokeRow(rows[i], reason)] + more, tokenHash)
  {
    var out := rows[i := RevokeRow(rows[i], reason)];
    assert (out + more)[..|rows|] == out;
  }

  lemma RevokeStays(db: Db, f: string, now: int, up: bool, tokenHash: string)
    ensures Stays(db.rows, RevokeFamily(db, f, now, up).rows, tokenHash)
  {
    RevokeFamilyKills(db, f, now, up);
    var out := RevokeFamily(db, f, now, up).rows;
    assert out[..|db.rows|] == out;
  }

  lemma NothingStays(rows: seq<Row>, tokenHash: string)
    ensures Stays(rows, rows, tokenHash)
  {
    assert rows[..|rows|] == rows;
  }

  lemma LiveStays(db: Db, i: nat, next: Row)
    requires i < |db.rows|
    ensures var d := Create(Retired(db, i), next); d.Some? ==> Stays(db.rows, d.value.rows, next.tokenHash)
    ensures Stays(db.rows, db.rows[i := RevokeRow(db.rows[i], Expired)], next.tokenHash)
  {
    OneRevokedStays(db.rows, i, Expired, [], next.tokenHash);
    assert db.rows[i := RevokeRow(db.rows[i], Expired)] + [] == db.rows[i := RevokeRow(db.rows[i], Expired)];
    OneRevokedStays(db.rows, i, Rotated, [next.(id := db.nextId)], next.tokenHash);
  }

  lemma RotateStays(h: Hash, db: Db, s: Step)
    requires s.Rotate?
    ensures Stays(db.rows, Next(h, db, s).rows, h(s.rawNew))
  {
    var found := IndexOfHash(db.rows, h(s.raw));
    NothingStays(db.rows, h(s.rawNew));
    if found.Some? {
      var i := found.value;
      RevokeStays(db, db.rows[i].familyId, s.now, s.redisUp, h(s.rawNew));
      var next := db.rows[i].(tokenHash := h(s.rawNew), slidingExpiresAt := s.now + s.slidingTtl, lastUsedAt := s.now,
                                  reason := None);
      LiveStays(db, i, next);
    }
  }

  /** A step other than a prune keeps every row up to its revocation, and appends at most the token it draws. */
  lemma RowsStay(h: Hash, db: Db, s: Step)
    requires !s.Prune?
    ensures |Next(h, db, s).rows| > |db.rows| ==> Drawn(s).Some?
    ensures Stays(db.rows, Next(h, db, s).rows, if Drawn(s).Some? then h(Drawn(s).value) else "")
  {
    match s
    case RevokeAll(now, u, t, up) =>
      var fs := LiveFamilies(db.rows, u, t);
      RevokeFamiliesOnlyRevokes(db, fs, now, up);
      var d := RevokeFamilies(db, fs, now, up);
      var out := RevokeUserRows(d.rows, u, t);
      assert out[..|db.rows|] == out;
    case Rotate(now, raw, rawNew, slide, up) => RotateStays(h, db, s);
    case _ =>
  }

  lemma StoredStays(rows: seq<Row>, out: seq<Row>, tokenHash: string, r: Row)
    requires Stays(rows, out, tokenHash) && OnlyAs(rows, r) && (|out| > |rows| ==> tokenHash != r.tokenHash)
    ensures Stored(out, r) <==> Stored(rows, r)
    ensures OnlyAs(out, r)
  {
    forall i | 0 <= i < |rows| ensures SameToken(out[i], rows[i]) && rows[i] in rows && out[i] in out {
      assert out[..|rows|][i] == out[i];
    }
    forall x | x in out && x.tokenHash == r.tokenHash ensures SameToken(x, r) && Stored(rows, r) {
      var i :| 0 <= i < |out| && out[i] == x;
      assert SameToken(rows[i], r);
    }
    if x :| x in rows && SameToken(x, r) {
      var i :| 0 <= i < |rows| && rows[i] == x;
      assert SameToken(out[i], r);
    }
  }

  lemma StoredAfterPrune(h: Hash, db: Db, s: Step, r: Row)
    requires s.Prune? && OnlyAs(db.rows, r)
    ensures Stored(Next(h, db, s).rows, r)
            <==> Stored(db.rows, r) && s.now <= r.absoluteExpiresAt && s.now <= r.slidingExpiresAt
    ensures OnlyAs(Next(h, db, s).rows, r)
  {
    if x :| x in db.rows && SameToken(x, r) && s.now <= r.absoluteExpiresAt && s.now <= r.slidingExpiresAt {
      assert x in Next(h, db, s).rows;
    }
  }

  /** The unique index keeps a drawn token from having the hash of a stored one. */
  lemma NoneTaken(h: Hash, db: Db, s: Step)
    requires Created(h, db, s).Some?
    ensures Drawn(s).Some? && forall k :: 0 <= k < |db.rows| ==> db.rows[k].tokenHash != h(Drawn(s).value)
  {
    if s.Rotate? {
      var i := IndexOfHash(db.rows, h(s.raw)).value;
      var retired := Retired(db, i).rows;
      assert forall k :: 0 <= k < |retired| ==> retired[k].tokenHash == db.rows[k].tokenHash;
    }
  }

  lemma CreationIsNew(h: Hash, db: Db, s: Step)
    requires Created(h, db, s).Some?
    ensures var d := Next(h, db, s);
            && |d.rows| == |db.rows| + 1 && Stored(d.rows, d.rows[|db.rows|]) && OnlyAs(d.rows, d.rows[|db.rows|])
            && Drawn(s).Some? && d.rows[|db.rows|].tokenHash == h(Drawn(s).value)
  {
    CreatedIsLast(h, db, s);
    NoneTaken(h, db, s);
    RowsStay(h, db, s);
    var d := Next(h, db, s);
    var r := d.rows[|db.rows|];
    forall i | 0 <= i < |db.rows| ensures d.rows[i].tokenHash != r.tokenHash {
      assert d.rows[..|db.rows|][i] == d.rows[i];
    }
    assert r in d.rows && SameToken(r, r);
  }

  /** Step `s` does not prune row `r`. */
  predicate Spares(s: Step, r: Row) {
    s.Prune? ==> s.now <= r.absoluteExpiresAt && s.now <= r.slidingExpiresAt
  }

  lemma StoredNext(h: Hash, db: Db, s: Step, r: Row)
    requires (Drawn(s).Some? ==> h(Drawn(s).value) != r.tokenHash) && OnlyAs(db.rows, r)
    ensures Stored(Next(h, db, s).rows, r) <==> Stored(db.rows, r) && Spares(s, r)
    ensures OnlyAs(Next(h, db, s).rows, r)
  {
    if s.Prune? {
      StoredAfterPrune(h, db, s, r);
    } else {
      RowsStay(h, db, s);
      StoredStays(db.rows, Next(h, db, s).rows, if Drawn(s).Some? then h(Drawn(s).value) else "", r);
    }
  }

  /** No step after `i` prunes the row created by step `i`. */
  ghost predicate Unpruned(h: Hash, steps: seq<Step>, i: nat)
    requires CreatesAt(h, steps, i)
  {
    forall j :: i < j < |steps| ==> Spares(steps[j], RowOf(h, steps, i))
  }

  lemma Shorter(h: Hash, steps: seq<Step>, i: nat)
    requires CreatesAt(h, steps, i) && i + 1 < |steps|
    ensures var before := steps[..|steps| - 1];
            && CreatesAt(h, before, i) && RowOf(h, before, i) == RowOf(h, steps, i)
            && (Unpruned(h, steps, i) <==> Unpruned(h, before, i) && Spares(steps[|steps| - 1], RowOf(h, steps, i)))
  {
    var before := steps[..|steps| - 1];
    assert before[..i] == steps[..i];
    assert forall j :: i <= j < |before| ==> before[j] == steps[j];
  }

  /** A created row is still stored exactly if no later prune ran past one of its deadlines. */
  lemma {:induction false} StoredExactly(h: Hash, steps: seq<Step>, i: nat)
    requires FreshTokens(h, steps) && CreatesAt(h, steps, i)
    ensures Stored(Run(h, steps).rows, RowOf(h, steps, i)) <==> Unpruned(h, steps, i)
    ensures OnlyAs(Run(h, steps).rows, RowOf(h, steps, i))
  {
    var before, last := steps[..|steps| - 1], steps[|steps| - 1];
    var r := RowOf(h, steps, i);
    CreationIsNew(h, Run(h, steps[..i]), steps[i]);
    if i + 1 == |steps| {
      assert before == steps[..i];
    } else {
      Shorter(h, steps, i);
      StoredExactly(h, before, i);
      StoredNext(h, Run(h, before), last, r);
    }
  }

  // ----- Reuse -----

  /** The token created by step `i` is no longer the newest of its family. */
  ghost predicate Superseded(h: Hash, steps: seq<Step>, i: nat)
    requires CreatesAt(h, steps, i)
  {
    var r := RowOf(h, steps, i);
    NewestOf(h, steps, r.familyId) != Some(r.tokenHash)
  }

  lemma StoredIsFound(rows: seq<Row>, r: Row)
    requires OnlyAs(rows, r)
    ensures IndexOfHash(rows, r.tokenHash).Some? <==> Stored(rows, r)
    ensures Stored(rows, r) ==> SameToken(rows[IndexOfHash(rows, r.tokenHash).value], r)
  {
    var i := IndexOfHash(rows, r.tokenHash);
    if i.Some? {
      assert rows[i.value] in rows;
    }
    if x :| x in rows && SameToken(x, r) {
      var k :| 0 <= k < |rows| && rows[k] == x;
    }
  }

  /**
   * Presenting a token that was rotated away revokes its family if and only if its row is still stored, that is, if no
   * prune since its creation ran past one of its deadlines. Otherwise nothing happens, and a live family lives on.
   */
  lemma ReuseEndsFamilyExactly(h: Hash, steps: seq<Step>, i: nat, s: Step)
    requires FreshFamilies(steps) && FreshTokens(h, steps) && CreatesAt(h, steps, i) && Superseded(h, steps, i)
    requires s.Rotate? && h(s.raw) == RowOf(h, steps, i).tokenHash
    ensures var db, f := Run(h, steps), RowOf(h, steps, i).familyId;
            var (d, answer) := ApplyRotate(h, db, s.now, s.raw, s.rawNew, s.slidingTtl, s.redisUp);
            && (if Unpruned(h, steps, i) then answer == FamilyCompromised && NoLive(d.rows, f)
                else answer == NotFound && d == db)
            && (NoLive(d.rows, f) <==> Unpruned(h, steps, i) || NoLive(db.rows, f))
  {
    var db, r := Run(h, steps), RowOf(h, steps, i);
    StoredExactly(h, steps, i);
    StoredIsFound(db.rows, r);
    if Stored(db.rows, r) {
      var x := db.rows[IndexOfHash(db.rows, r.tokenHash).value];
      if !x.revoked {
        LiveIsNewest(h, steps, x);
      }
      RevokeFamilyKills(db, x.familyId, s.now, s.redisUp);
    }
  }

  /** The deadlines of a created row: sliding by the call that created it, absolute by the issue of its family. */
  lemma RowDeadlines(h: Hash, steps: seq<Step>, i: nat)
    requires FreshFamilies(steps) && CreatesAt(h, steps, i)
    ensures var r := RowOf(h, steps, i);
            && r.slidingExpiresAt == steps[i].now + steps[i].slidingTtl
            && Deadline(steps[..i + 1], r.familyId) == Some(r.absoluteExpiresAt)
  {
    var db := Run(h, steps[..i]);
    CreatedIsLast(h, db, steps[i]);
    assert steps[..i + 1][..i] == steps[..i];
    assert FreshFamilies(steps[..i + 1]);
    RowsKeepDeadline(h, steps[..i + 1], RowOf(h, steps, i));
  }

  // ----- Pruning forgets -----

  /** A token is rotated, its row is pruned once its sliding time is past, and then it is presented again. */
  function ForgottenRun(): seq<Step> {
    [Issue(0, "f", "a", "u", "t", 100, 10), Rotate(5, "a", "b", 10, true), Prune(12)]
  }

  function ForgottenA(h: Hash): Row {
    Row(0, h("a"), "f", "u", "t", 100, 10, 0, false, None)
  }

  function ForgottenB(h: Hash): Row {
    Row(1, h("b"), "f", "u", "t", 100, 15, 5, false, None)
  }

  lemma ForgottenRotation(h: Hash, db: Db)
    requires h("a") != h("b") && db.rows == [ForgottenA(h)] && db.nextId == 1 && db.blacklist == map[]
    ensures Next(h, db, ForgottenRun()[1]).rows == [RevokeRow(ForgottenA(h), Rotated), ForgottenB(h)]
  {
    var a := ForgottenA(h);
    assert IndexOfHash([a], h("a")) == Some(0) && [a][0 := RevokeRow(a, Rotated)] == [RevokeRow(a, Rotated)];
    assert [RevokeRow(a, Rotated)][..0] == [] && IndexOfHash([RevokeRow(a, Rotated)], h("b")) == None;
  }

  lemma ForgottenPrune(h: Hash, db: Db)
    requires db.rows == [RevokeRow(ForgottenA(h), Rotated), ForgottenB(h)]
    ensures Next(h, db, ForgottenRun()[2]).rows == [ForgottenB(h)]
  {
    var a := RevokeRow(ForgottenA(h), Rotated);
    assert [a, ForgottenB(h)][..1] == [a] && [a][..0] == [];
    assert Fresh([a], 12) == [];
  }

  /**
   * That reuse of a rotated token revokes its family holds only while the rotated row is stored: after pruning the
   * reuse is answered NotFound and the family's current token stays usable.
   */
  lemma PrunedReplayGoesUnnoticed(h: Hash)
    requires h("a") != h("b")
    ensures var db := Run(h, ForgottenRun());
            && ApplyRotate(h, db, 13, "a", "c", 10, true) == (db, NotFound)
            && exists r :: r in db.rows && r.familyId == "f" && r.tokenHash == h("b") && !r.revoked
  {
    var steps := ForgottenRun();
    RunOfThree(h, steps);
    var d1 := Next(h, EMPTY, steps[0]);
    assert d1.rows == [ForgottenA(h)] && d1.nextId == 1 && d1.blacklist == map[];
    ForgottenRotation(h, d1);
    var d2 := Next(h, d1, steps[1]);
    ForgottenPrune(h, d2);
    var db := Run(h, steps);
    assert db.rows == [ForgottenB(h)] && db.rows[..0] == [];
    assert IndexOfHash(db.rows, h("a")) == None;
    assert ForgottenB(h) in db.rows;
  }

  lemma RunOfThree(h: Hash, s: seq<Step>)
    requires |s| == 3
    ensures Run(h, s) == Next(h, Next(h, Next(h, EMPTY, s[0]), s[1]), s[2])
  {
    assert s[..2][..1] == s[..1] && s[..1][..0] == [];
    assert Run(h, s[..1]) == Next(h, EMPTY, s[0]);
    assert Run(h, s[..2]) == Next(h, Run(h, s[..1]), s[1]);
  }
}
