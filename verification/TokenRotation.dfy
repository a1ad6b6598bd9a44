/** When a presented token is rotated, what it is answered otherwise, and what each call does to the table. */
module TokenRotation {
  import opened Primitives
  import opened TokenStore
  import opened TokenFamilies
  import opened TokenReuse

  /** The token created by step `i` is stored and not revoked. */
  ghost predicate Usable(h: Hash, steps: seq<Step>, i: nat)
    requires CreatesAt(h, steps, i)
  {
    exists x :: x in Run(h, steps).rows && SameToken(x, RowOf(h, steps, i)) && !x.revoked
  }

  /** Neither the sliding nor the absolute deadline of the token created by step `i` has passed. */
  ghost predicate InTime(h: Hash, steps: seq<Step>, i: nat, now: int)
    requires CreatesAt(h, steps, i)
  {
    && now <= steps[i].now + steps[i].slidingTtl
    && Deadline(steps[..i + 1], RowOf(h, steps, i).familyId).Some?
    && now <= Deadline(steps[..i + 1], RowOf(h, steps, i).familyId).value
  }

  ghost predicate HashTaken(rows: seq<Row>, tokenHash: string) {
    exists x :: x in rows && x.tokenHash == tokenHash
  }

  lemma TakenIsFound(rows: seq<Row>, tokenHash: string)
    ensures IndexOfHash(rows, tokenHash).Some? <==> HashTaken(rows, tokenHash)
  {
    var i := IndexOfHash(rows, tokenHash);
    if i.Some? {
      assert rows[i.value] in rows;
    }
    if x :| x in rows && x.tokenHash == tokenHash {
      var k :| 0 <= k < |rows| && rows[k] == x;
    }
  }

  lemma RetiredTaken(db: Db, i: nat, tokenHash: string)
    requires i < |db.rows|
    ensures HashTaken(Retired(db, i).rows, tokenHash) <==> HashTaken(db.rows, tokenHash)
  {
    var out := Retired(db, i).rows;
    if x :| x in db.rows && x.tokenHash == tokenHash {
      var k :| 0 <= k < |db.rows| && db.rows[k] == x;
      assert out[k] in out && out[k].tokenHash == tokenHash;
    }
    if x :| x in out && x.tokenHash == tokenHash {
      var k :| 0 <= k < |out| && out[k] == x;
      assert db.rows[k] in db.rows;
    }
  }

  /** The stored row of a token that is found, if there is one. */
  lemma FoundRow(h: Hash, steps: seq<Step>, i: nat, s: Step) returns (k: nat)
    requires FreshTokens(h, steps) && CreatesAt(h, steps, i)
    requires s.Rotate? && h(s.raw) == RowOf(h, steps, i).tokenHash && Unpruned(h, steps, i)
    ensures var rows := Run(h, steps).rows;
            && IndexOfHash(rows, h(s.raw)) == Some(k) && k < |rows| && SameToken(rows[k], RowOf(h, steps, i))
  {
    StoredExactly(h, steps, i);
    StoredIsFound(Run(h, steps).rows, RowOf(h, steps, i));
    k := IndexOfHash(Run(h, steps).rows, h(s.raw)).value;
  }

  lemma OneRowPerHash(rows: seq<Row>, k: nat)
    requires Line(rows) && k < |rows|
    ensures forall x :: x in rows && x.tokenHash == rows[k].tokenHash ==> x == rows[k]
  {
    forall p, q | 0 <= p < q < |rows| ensures rows[p].tokenHash != rows[q].tokenHash {
      assert Precedes(rows[p], rows[q]);
    }
  }

  lemma UsableIsLive(h: Hash, steps: seq<Step>, i: nat, k: nat)
    requires FreshFamilies(steps) && FreshTokens(h, steps) && CreatesAt(h, steps, i) && k < |Run(h, steps).rows|
    requires SameToken(Run(h, steps).rows[k], RowOf(h, steps, i))
    ensures Usable(h, steps, i) <==> !Run(h, steps).rows[k].revoked
  {
    var rows := Run(h, steps).rows;
    FamiliesAreLines(h, steps);
    OneRowPerHash(rows, k);
    assert rows[k] in rows;
  }

  /** What is answered for a stored row, told from the row alone. */
  lemma RowAnswer(h: Hash, db: Db, k: nat, s: Step)
    requires s.Rotate? && k < |db.rows| && IndexOfHash(db.rows, h(s.raw)) == Some(k)
    requires !db.rows[k].revoked ==> !ReportedRevoked(db, db.rows[k].familyId, s.now, s.redisUp)
    ensures var answer := ApplyRotate(h, db, s.now, s.raw, s.rawNew, s.slidingTtl, s.redisUp).1;
            var r := db.rows[k];
            answer == if r.revoked then FamilyCompromised
                      else if s.now > r.absoluteExpiresAt || s.now > r.slidingExpiresAt then TokenExpired
                      else if HashTaken(db.rows, h(s.rawNew)) then DuplicateToken
                      else Rotation(s.rawNew, s.now + s.slidingTtl)
  {
    TakenIsFound(Retired(db, k).rows, h(s.rawNew));
    RetiredTaken(db, k, h(s.rawNew));
  }

  lemma InTimeIsRowTime(h: Hash, steps: seq<Step>, i: nat, now: int)
    requires FreshFamilies(steps) && CreatesAt(h, steps, i)
    ensures var r := RowOf(h, steps, i);
            InTime(h, steps, i, now) <==> now <= r.absoluteExpiresAt && now <= r.slidingExpiresAt
  {
    RowDeadlines(h, steps, i);
  }

  lemma PrunedAnswer(h: Hash, steps: seq<Step>, i: nat, s: Step)
    requires FreshTokens(h, steps) && CreatesAt(h, steps, i) && !Unpruned(h, steps, i)
    requires s.Rotate? && h(s.raw) == RowOf(h, steps, i).tokenHash
    ensures ApplyRotate(h, Run(h, steps), s.now, s.raw, s.rawNew, s.slidingTtl, s.redisUp).1 == NotFound
    ensures !Usable(h, steps, i)
  {
    StoredExactly(h, steps, i);
    StoredIsFound(Run(h, steps).rows, RowOf(h, steps, i));
  }

  /**
   * What a presented token is answered, for the token created by any step of any run: it is rotated exactly if it is
   * stored and unrevoked, neither of its two deadlines has passed, and the drawn hash is free.
   */
  lemma AnswerExactly(h: Hash, steps: seq<Step>, i: nat, s: Step)
    requires FreshFamilies(steps) && FreshTokens(h, steps) && CreatesAt(h, steps, i)
    requires s.Rotate? && h(s.raw) == RowOf(h, steps, i).tokenHash
    ensures var db := Run(h, steps);
            var answer := ApplyRotate(h, db, s.now, s.raw, s.rawNew, s.slidingTtl, s.redisUp).1;
            var free := !HashTaken(db.rows, h(s.rawNew));
            && (answer == NotFound <==> !Unpruned(h, steps, i))
            && (answer == FamilyCompromised <==> Unpruned(h, steps, i) && !Usable(h, steps, i))
            && (answer == TokenExpired <==> Usable(h, steps, i) && !InTime(h, steps, i, s.now))
            && (answer == DuplicateToken <==> Usable(h, steps, i) && InTime(h, steps, i, s.now) && !free)
            && (answer == Rotation(s.rawNew, s.now + s.slidingTtl)
                <==> Usable(h, steps, i) && InTime(h, steps, i, s.now) && free)
  {
    if Unpruned(h, steps, i) {
      var k := FoundRow(h, steps, i, s);
      UsableIsLive(h, steps, i, k);
      InTimeIsRowTime(h, steps, i, s.now);
      if !Run(h, steps).rows[k].revoked {
        LiveIsUnreportedNow(h, steps, k, s);
      }
      RowAnswer(h, Run(h, steps), k, s);
    } else {
      PrunedAnswer(h, steps, i, s);
    }
  }

  lemma LiveIsUnreportedNow(h: Hash, steps: seq<Step>, k: nat, s: Step)
    requires FreshFamilies(steps) && k < |Run(h, steps).rows| && !Run(h, steps).rows[k].revoked && s.Rotate?
    ensures !ReportedRevoked(Run(h, steps), Run(h, steps).rows[k].familyId, s.now, s.redisUp)
  {
    BlacklistNeverDecides(h, steps, s.now, s.raw, s.rawNew, s.slidingTtl);
    assert Run(h, steps).rows[k] in Run(h, steps).rows;
  }

  /** A usable token is the newest of its family. */
  lemma UsableIsNewest(h: Hash, steps: seq<Step>, i: nat)
    requires FreshFamilies(steps) && CreatesAt(h, steps, i) && Usable(h, steps, i)
    ensures var r := RowOf(h, steps, i); NewestOf(h, steps, r.familyId) == Some(r.tokenHash)
  {
    var x :| x in Run(h, steps).rows && SameToken(x, RowOf(h, steps, i)) && !x.revoked;
    LiveIsNewest(h, steps, x);
  }

  /** No token is ever rotated after its sliding lifetime, nor after the absolute lifetime of its family. */
  lemma NoRotationWhenIdle(h: Hash, steps: seq<Step>, i: nat, m: nat)
    requires FreshFamilies(steps) && FreshTokens(h, steps) && i < m < |steps| && steps[m].Rotate?
    requires CreatesAt(h, steps, i) && h(steps[m].raw) == RowOf(h, steps, i).tokenHash
    requires Created(h, Run(h, steps[..m]), steps[m]).Some?
    ensures steps[m].now <= steps[i].now + steps[i].slidingTtl
    ensures var deadline := Deadline(steps[..i + 1], RowOf(h, steps, i).familyId);
            deadline.Some? && steps[m].now <= deadline.value
  {
    var before, s := steps[..m], steps[m];
    assert before[..i] == steps[..i] && before[i] == steps[i] && before[..i + 1] == steps[..i + 1];
    assert FreshFamilies(before) && FreshTokens(h, before);
    AnswerExactly(h, before, i, s);
  }

  // ----- What the calls do -----

  /** A rotation revokes the presented row as rotated and appends one of the same owner, family and absolute end. */
  lemma RotationReplaces(h: Hash, db: Db, s: Step) returns (k: nat)
    requires s.Rotate?
    requires ApplyRotate(h, db, s.now, s.raw, s.rawNew, s.slidingTtl, s.redisUp).1.Rotation?
    ensures k < |db.rows| && db.rows[k].tokenHash == h(s.raw)
    ensures Next(h, db, s).blacklist == db.blacklist
    ensures var r := db.rows[k];
            Next(h, db, s).rows
            == db.rows[k := r.(revoked := true, reason := Some(Rotated))]
               + [Row(db.nextId, h(s.rawNew), r.familyId, r.userId, r.tenantId, r.absoluteExpiresAt,
                      s.now + s.slidingTtl, s.now, false, None)]
  {
    k := IndexOfHash(db.rows, h(s.raw)).value;
  }

  /** An expired token is revoked as expired, and nothing else happens. */
  lemma ExpiryRevokes(h: Hash, db: Db, s: Step) returns (k: nat)
    requires s.Rotate?
    requires ApplyRotate(h, db, s.now, s.raw, s.rawNew, s.slidingTtl, s.redisUp).1.TokenExpired?
    ensures k < |db.rows| && db.rows[k].tokenHash == h(s.raw) && Next(h, db, s).blacklist == db.blacklist
    ensures Next(h, db, s).rows == db.rows[k := db.rows[k].(revoked := true, reason := Some(Expired))]
  {
    k := IndexOfHash(db.rows, h(s.raw)).value;
  }

  /** A revoked family is reported revoked for thirty days if Redis took the entry, and by its rows if it did not. */
  lemma RevokedIsReported(db: Db, f: string, now: int, later: int, up: bool)
    requires later < now + 2_592_000_000
    requires !up ==> exists r :: r in db.rows && r.familyId == f && !r.revoked
    ensures ReportedRevoked(RevokeFamily(db, f, now, up), f, later, up)
  {
    var d := RevokeFamily(db, f, now, up);
    if r :| r in db.rows && r.familyId == f && !r.revoked {
      var k :| 0 <= k < |db.rows| && db.rows[k] == r;
      assert d.rows[k] in d.rows;
    }
  }

  /** Signing out one token revokes its row as manual and says so; unknown and revoked tokens change nothing. */
  lemma RevokingIsExact(h: Hash, db: Db, raw: string) returns (k: nat)
    ensures var (d, done) := ApplyRevoke(h, db, raw);
            && (!done ==> d == db)
            && (done ==> k < |db.rows| && db.rows[k].tokenHash == h(raw) && !db.rows[k].revoked
                         && var r := db.rows[k].(revoked := true, reason := Some(ManualRevocation));
                            d == db.(rows := db.rows[k := r]))
            && (Line(db.rows) ==> (done <==> exists r :: r in db.rows && r.tokenHash == h(raw) && !r.revoked))
  {
    var found := IndexOfHash(db.rows, h(raw));
    TakenIsFound(db.rows, h(raw));
    k := 0;
    if found.Some? {
      k := found.value;
      assert db.rows[k] in db.rows;
      if Line(db.rows) {
        OneRowPerHash(db.rows, k);
      }
    }
  }

  /** An issue adds one unrevoked row for its user, with both deadlines counted from now. */
  lemma IssueAdds(h: Hash, db: Db, s: Step)
    requires s.Issue? && !HashTaken(db.rows, h(s.raw))
    ensures Next(h, db, s).blacklist == db.blacklist
    ensures Next(h, db, s).rows
            == db.rows + [Row(db.nextId, h(s.raw), s.familyId, s.userId, s.tenantId, s.now + s.absoluteTtl,
                              s.now + s.slidingTtl, s.now, false, None)]
  {
    TakenIsFound(db.rows, h(s.raw));
  }

  // ----- The session list -----

  ghost predicate LastUsedFirst(s: seq<Row>) {
    forall i, j :: 0 <= i < j < |s| ==> s[i].lastUsedAt >= s[j].lastUsedAt
  }

  lemma {:induction false} InsertOrders(s: seq<Row>, r: Row)
    requires LastUsedFirst(s)
    ensures LastUsedFirst(InsertByUse(s, r))
  {
    if s != [] && s[|s| - 1].lastUsedAt < r.lastUsedAt {
      var init, last := s[..|s| - 1], s[|s| - 1];
      InsertOrders(init, r);
      var out := InsertByUse(init, r);
      forall i | 0 <= i < |out| ensures out[i].lastUsedAt >= last.lastUsedAt {
        assert out[i] in init || out[i] == r;
      }
    }
  }

  lemma {:induction false} InsertKeepsAll(s: seq<Row>, r: Row)
    ensures multiset(InsertByUse(s, r)) == multiset(s) + multiset{r}
  {
    if s != [] && s[|s| - 1].lastUsedAt < r.lastUsedAt {
      InsertKeepsAll(s[..|s| - 1], r);
      assert s == s[..|s| - 1] + [s[|s| - 1]];
    }
  }

  /** The session list has every live token of the user once, last used first. */
  lemma {:induction false} ListIsOrdered(s: seq<Row>)
    ensures LastUsedFirst(ByLastUse(s)) && multiset(ByLastUse(s)) == multiset(s)
  {
    if s != [] {
      ListIsOrdered(s[..|s| - 1]);
      InsertOrders(ByLastUse(s[..|s| - 1]), s[|s| - 1]);
      InsertKeepsAll(ByLastUse(s[..|s| - 1]), s[|s| - 1]);
      assert s == s[..|s| - 1] + [s[|s| - 1]];
    }
  }
}
