/** What every run of the token table keeps: a family is one line of tokens, and a dead family stays dead. */
module TokenFamilies {
  import opened Primitives
  import opened TokenStore

  datatype Step =
    | Issue(now: int, familyId: string, raw: string, userId: string, tenantId: string, absoluteTtl: int,
            slidingTtl: int)
    | Rotate(now: int, raw: string, rawNew: string, slidingTtl: int, redisUp: bool)
    | RevokeOne(raw: string)
    | RevokeAll(now: int, userId: string, tenantId: string, redisUp: bool)
    | Prune(now: int)

  function Next(h: Hash, db: Db, s: Step): Db {
    match s
    case Issue(now, f, raw, u, t, abs, slide) =>
      (match Create(db, FirstRow(h, now, f, raw, u, t, abs, slide))
       case None => db
       case Some(d) => d)
    case Rotate(now, raw, rawNew, slide, up) => ApplyRotate(h, db, now, raw, rawNew, slide, up).0
    case RevokeOne(raw) => ApplyRevoke(h, db, raw).0
    case RevokeAll(now, u, t, up) => ApplyRevokeAll(db, now, u, t, up)
    case Prune(now) => db.(rows := Fresh(db.rows, now))
  }

  function Run(h: Hash, steps: seq<Step>): Db {
    if steps == [] then EMPTY else Next(h, Run(h, steps[..|steps| - 1]), steps[|steps| - 1])
  }

  /** Family ids are random: no two issues ever draw the same one. */
  ghost predicate FreshFamilies(steps: seq<Step>) {
    forall i, j :: 0 <= i < j < |steps| && steps[i].Issue? && steps[j].Issue? ==> steps[i].familyId != steps[j].familyId
  }

  function Issued(steps: seq<Step>): set<string> {
    set i | 0 <= i < |steps| && steps[i].Issue? :: steps[i].familyId
  }

  ghost predicate NoLive(rows: seq<Row>, f: string) {
    forall r :: r in rows && r.familyId == f ==> r.revoked
  }

  /** How an earlier row stands to a later one: within a family only the newest can be unrevoked. */
  ghost predicate Precedes(a: Row, b: Row) {
    && a.id < b.id && a.tokenHash != b.tokenHash
    && (a.familyId == b.familyId ==>
          a.revoked && a.absoluteExpiresAt == b.absoluteExpiresAt && a.userId == b.userId && a.tenantId == b.tenantId)
  }

  ghost predicate Line(rows: seq<Row>) {
    forall i, j :: 0 <= i < j < |rows| ==> Precedes(rows[i], rows[j])
  }

  /** A family that the blacklist or the table calls revoked has no unrevoked token. */
  ghost predicate RevokedIsDead(db: Db) {
    && (forall f :: f in db.blacklist ==> NoLive(db.rows, f))
    && (forall r :: r in db.rows && r.reason == Some(FamilyRevoked) ==> NoLive(db.rows, r.familyId))
  }

  ghost predicate Inv(db: Db, issued: set<string>) {
    && Line(db.rows)
    && RevokedIsDead(db)
    && (forall r :: r in db.rows ==> r.id < db.nextId && r.familyId in issued)
    && db.blacklist.Keys <= issued
  }

  // ----- Revoking -----

  /** Rows may only have become revoked. */
  ghost predicate OnlyRevoked(rows: seq<Row>, out: seq<Row>) {
    && |out| == |rows|
    && forall i :: 0 <= i < |rows| ==>
         out[i] == rows[i] || (out[i] == rows[i].(revoked := true, reason := out[i].reason) && out[i].reason.Some?)
  }

  lemma OnlyRevokedKeepsLine(rows: seq<Row>, out: seq<Row>)
    requires Line(rows) && OnlyRevoked(rows, out)
    ensures Line(out)
  {
    forall i, j | 0 <= i < j < |out| ensures Precedes(out[i], out[j]) {
      assert Precedes(rows[i], rows[j]);
    }
  }

  lemma OnlyRevokedKeepsDead(rows: seq<Row>, out: seq<Row>, f: string)
    requires NoLive(rows, f) && OnlyRevoked(rows, out)
    ensures NoLive(out, f)
  {
    forall r | r in out && r.familyId == f ensures r.revoked {
      var i :| 0 <= i < |out| && out[i] == r;
      assert rows[i] in rows;
    }
  }

  lemma OnlyRevokedKeepsRows(db: Db, out: seq<Row>, issued: set<string>)
    requires OnlyRevoked(db.rows, out) && forall r :: r in db.rows ==> r.id < db.nextId && r.familyId in issued
    ensures forall r :: r in out ==> r.id < db.nextId && r.familyId in issued
  {
    forall r | r in out ensures r.id < db.nextId && r.familyId in issued {
      var i :| 0 <= i < |out| && out[i] == r;
      assert db.rows[i] in db.rows;
    }
  }

  lemma RevokeFamilyKills(db: Db, f: string, now: int, up: bool)
    ensures var d := RevokeFamily(db, f, now, up);
            OnlyRevoked(db.rows, d.rows) && NoLive(d.rows, f)
            && forall i :: 0 <= i < |d.rows| && d.rows[i] != db.rows[i] ==> d.rows[i].familyId == f
  {
  }

  lemma RevokeFamilyKeepsInv(db: Db, f: string, now: int, up: bool, issued: set<string>)
    requires Inv(db, issued) && f in issued
    ensures Inv(RevokeFamily(db, f, now, up), issued)
  {
    var d := RevokeFamily(db, f, now, up);
    RevokeFamilyKills(db, f, now, up);
    OnlyRevokedKeepsLine(db.rows, d.rows);
    OnlyRevokedKeepsRows(db, d.rows, issued);
    forall g | g in d.blacklist ensures NoLive(d.rows, g) {
      if g != f { OnlyRevokedKeepsDead(db.rows, d.rows, g); }
    }
    forall r | r in d.rows && r.reason == Some(FamilyRevoked) ensures NoLive(d.rows, r.familyId) {
      if r.familyId != f {
        var i :| 0 <= i < |d.rows| && d.rows[i] == r;
        assert db.rows[i] in db.rows;
        OnlyRevokedKeepsDead(db.rows, d.rows, r.familyId);
      }
    }
  }

  lemma {:induction false} RevokeFamiliesKeepsInv(db: Db, fs: seq<string>, now: int, up: bool, issued: set<string>)
    requires Inv(db, issued) && forall f :: f in fs ==> f in issued
    ensures Inv(RevokeFamilies(db, fs, now, up), issued)
  {
    if fs != [] {
      RevokeFamiliesKeepsInv(db, fs[..|fs| - 1], now, up, issued);
      RevokeFamilyKeepsInv(RevokeFamilies(db, fs[..|fs| - 1], now, up), fs[|fs| - 1], now, up, issued);
    }
  }

  /** Revoking rows for a reason other than `FamilyRevoked` keeps the table well formed. */
  lemma PlainRevokeKeepsInv(db: Db, out: seq<Row>, issued: set<string>)
    requires Inv(db, issued) && OnlyRevoked(db.rows, out)
    requires forall i :: 0 <= i < |out| && out[i] != db.rows[i] ==> out[i].reason != Some(FamilyRevoked)
    ensures Inv(db.(rows := out), issued)
  {
    OnlyRevokedKeepsLine(db.rows, out);
    OnlyRevokedKeepsRows(db, out, issued);
    forall g | g in db.blacklist ensures NoLive(out, g) {
      OnlyRevokedKeepsDead(db.rows, out, g);
    }
    forall r | r in out && r.reason == Some(FamilyRevoked) ensures NoLive(out, r.familyId) {
      var i :| 0 <= i < |out| && out[i] == r;
      assert db.rows[i] in db.rows;
      OnlyRevokedKeepsDead(db.rows, out, r.familyId);
    }
  }

  // ----- Pruning and creating -----

  lemma {:induction false} FreshKeepsLine(rows: seq<Row>, now: int)
    requires Line(rows)
    ensures Line(Fresh(rows, now))
  {
    if rows != [] {
      var before, last := rows[..|rows| - 1], rows[|rows| - 1];
      FreshKeepsLine(before, now);
      var out := Fresh(before, now);
      forall i | 0 <= i < |out| ensures Precedes(out[i], last) {
        assert out[i] in before;
        var j :| 0 <= j < |before| && before[j] == out[i];
        assert Precedes(rows[j], last);
      }
    }
  }

  /** A new row may follow once its family holds no unrevoked row and agrees on owner and deadline. */
  lemma CreateKeepsInv(db: Db, r: Row, issued: set<string>)
    requires Inv(db, issued) && Create(db, r).Some? && !r.revoked && r.familyId in issued
    requires NoLive(db.rows, r.familyId) && r.familyId !in db.blacklist && r.reason != Some(FamilyRevoked)
    requires forall x :: x in db.rows && x.familyId == r.familyId ==>
               && x.absoluteExpiresAt == r.absoluteExpiresAt && x.userId == r.userId && x.tenantId == r.tenantId
               && x.reason != Some(FamilyRevoked)
    ensures Inv(Create(db, r).value, issued)
  {
    var d := Create(db, r).value;
    var n := |db.rows|;
    forall i, j | 0 <= i < j < |d.rows| ensures Precedes(d.rows[i], d.rows[j]) {
      if j == n {
        assert db.rows[i] in db.rows;
      } else {
        assert Precedes(db.rows[i], db.rows[j]);
      }
    }
    forall f | f in d.blacklist ensures NoLive(d.rows, f) {
      assert NoLive(db.rows, f);
    }
    forall x | x in d.rows && x.reason == Some(FamilyRevoked) ensures NoLive(d.rows, x.familyId) {
      assert x in db.rows && NoLive(db.rows, x.familyId);
    }
  }

  lemma LiveIsUnreported(db: Db, issued: set<string>, i: nat)
    requires Inv(db, issued) && i < |db.rows| && !db.rows[i].revoked
    ensures db.rows[i].familyId !in db.blacklist
    ensures forall x :: x in db.rows && x.familyId == db.rows[i].familyId ==> x.reason != Some(FamilyRevoked)
    ensures forall j :: 0 <= j < |db.rows| && j != i && db.rows[j].familyId == db.rows[i].familyId ==>
              db.rows[j].revoked
    ensures forall j :: 0 <= j < |db.rows| && db.rows[j].familyId == db.rows[i].familyId ==>
              && db.rows[j].absoluteExpiresAt == db.rows[i].absoluteExpiresAt
              && db.rows[j].userId == db.rows[i].userId && db.rows[j].tenantId == db.rows[i].tenantId
  {
    var r := db.rows[i];
    assert r in db.rows;
    forall j | i < j < |db.rows| ensures db.rows[j].familyId != r.familyId {
      assert Precedes(db.rows[i], db.rows[j]);
    }
    forall j | 0 <= j < |db.rows| && j != i && db.rows[j].familyId == r.familyId
      ensures db.rows[j].revoked && db.rows[j].absoluteExpiresAt == r.absoluteExpiresAt
              && db.rows[j].userId == r.userId && db.rows[j].tenantId == r.tenantId
    {
      if j < i {
        assert Precedes(db.rows[j], db.rows[i]);
      }
    }
  }

  // ----- Steps -----

  /** The table after the presented token of row `i` was marked rotated. */
  function Retired(db: Db, i: nat): Db
    requires i < |db.rows|
  {
    db.(rows := db.rows[i := RevokeRow(db.rows[i], Rotated)])
  }

  lemma RetiredKeepsInv(db: Db, i: nat, issued: set<string>)
    requires Inv(db, issued) && i < |db.rows| && !db.rows[i].revoked
    ensures Inv(Retired(db, i), issued) && NoLive(Retired(db, i).rows, db.rows[i].familyId)
    ensures forall x :: x in Retired(db, i).rows && x.familyId == db.rows[i].familyId ==>
              && x.absoluteExpiresAt == db.rows[i].absoluteExpiresAt && x.userId == db.rows[i].userId
              && x.tenantId == db.rows[i].tenantId && x.reason != Some(FamilyRevoked)
    ensures db.rows[i].familyId !in db.blacklist
  {
    var d := Retired(db, i);
    LiveIsUnreported(db, issued, i);
    PlainRevokeKeepsInv(db, d.rows, issued);
    forall x | x in d.rows && x.familyId == db.rows[i].familyId
      ensures x.revoked && x.absoluteExpiresAt == db.rows[i].absoluteExpiresAt && x.userId == db.rows[i].userId
              && x.tenantId == db.rows[i].tenantId && x.reason != Some(FamilyRevoked)
    {
      var j :| 0 <= j < |d.rows| && d.rows[j] == x;
      assert db.rows[j] in db.rows;
    }
  }

  lemma RotateKeepsInv(h: Hash, db: Db, now: int, raw: string, rawNew: string, slide: int, up: bool,
                       issued: set<string>)
    requires Inv(db, issued)
    ensures Inv(ApplyRotate(h, db, now, raw, rawNew, slide, up).0, issued)
  {
    var found := IndexOfHash(db.rows, h(raw));
    if found.Some? {
      var i := found.value;
      var r := db.rows[i];
      assert r in db.rows;
      if r.revoked {
        RevokeFamilyKeepsInv(db, r.familyId, now, up, issued);
      } else {
        PlainRevokeKeepsInv(db, db.rows[i := RevokeRow(r, Expired)], issued);
        RetiredKeepsInv(db, i, issued);
        var next := r.(tokenHash := h(rawNew), slidingExpiresAt := now + slide, lastUsedAt := now, reason := None);
        LiveIsUnreported(db, issued, i);
        if Create(Retired(db, i), next).Some? {
          CreateKeepsInv(Retired(db, i), next, issued);
        }
      }
    }
  }

  lemma StepKeepsInv(h: Hash, db: Db, s: Step, issued: set<string>)
    requires Inv(db, issued) && (s.Issue? ==> s.familyId !in issued)
    ensures Inv(Next(h, db, s), issued + if s.Issue? then {s.familyId} else {})
  {
    match s
    case Issue(now, f, raw, u, t, abs, slide) =>
      var r := FirstRow(h, now, f, raw, u, t, abs, slide);
      if Create(db, r).Some? {
        CreateKeepsInv(db, r, issued + {f});
      }
    case Rotate(now, raw, rawNew, slide, up) =>
      RotateKeepsInv(h, db, now, raw, rawNew, slide, up, issued);
    case RevokeOne(raw) =>
      var found := IndexOfHash(db.rows, h(raw));
      if found.Some? && !db.rows[found.value].revoked {
        PlainRevokeKeepsInv(db, Next(h, db, s).rows, issued);
      }
    case RevokeAll(now, u, t, up) =>
      var fs := LiveFamilies(db.rows, u, t);
      RevokeFamiliesKeepsInv(db, fs, now, up, issued);
      var d := RevokeFamilies(db, fs, now, up);
      PlainRevokeKeepsInv(d, RevokeUserRows(d.rows, u, t), issued);
    case Prune(now) =>
      FreshKeepsLine(db.rows, now);
  }

  lemma IssuedGrows(steps: seq<Step>)
    requires steps != [] && FreshFamilies(steps)
    ensures var before, last := steps[..|steps| - 1], steps[|steps| - 1];
            && FreshFamilies(before)
            && Issued(steps) == Issued(before) + (if last.Issue? then {last.familyId} else {})
            && (last.Issue? ==> last.familyId !in Issued(before))
  {
    var before, last := steps[..|steps| - 1], steps[|steps| - 1];
    forall f ensures f in Issued(steps) <==> f in Issued(before) || (last.Issue? && f == last.familyId) {
      if f in Issued(steps) {
        var i :| 0 <= i < |steps| && steps[i].Issue? && steps[i].familyId == f;
        assert i < |before| ==> before[i].familyId == f;
      }
      if f in Issued(before) {
        var i :| 0 <= i < |before| && before[i].Issue? && before[i].familyId == f;
        assert steps[i].familyId == f;
      }
    }
  }

  /** In every reachable table a family has at most one unrevoked token, its newest, and a revoked family has none. */
  lemma {:induction false} FamiliesAreLines(h: Hash, steps: seq<Step>)
    requires FreshFamilies(steps)
    ensures Inv(Run(h, steps), Issued(steps))
  {
    if steps != [] {
      IssuedGrows(steps);
      FamiliesAreLines(h, steps[..|steps| - 1]);
      StepKeepsInv(h, Run(h, steps[..|steps| - 1]), steps[|steps| - 1], Issued(steps[..|steps| - 1]));
    }
  }

  /** So the session list's family filter never drops a token. */
  lemma LineHasOneLive(rows: seq<Row>)
    requires Line(rows)
    ensures OneLivePerFamily(rows)
  {
    forall i, j | 0 <= i < j < |rows| && rows[i].familyId == rows[j].familyId ensures rows[i].revoked {
      assert Precedes(rows[i], rows[j]);
    }
  }

  // ----- The live token is the last one issued -----

  /** The token a step creates: its family and its hash. */
  function Created(h: Hash, db: Db, s: Step): Option<(string, string)> {
    match s
    case Issue(now, f, raw, u, t, abs, slide) =>
      if Create(db, FirstRow(h, now, f, raw, u, t, abs, slide)).Some? then Some((f, h(raw))) else None
    case Rotate(now, raw, rawNew, slide, up) =>
      if ApplyRotate(h, db, now, raw, rawNew, slide, up).1.Rotation?
      then Some((db.rows[IndexOfHash(db.rows, h(raw)).value].familyId, h(rawNew))) else None
    case _ => None
  }

  /** The hash of the newest token ever created in family `f`. */
  function NewestOf(h: Hash, steps: seq<Step>, f: string): Option<string> {
    if steps == [] then None
    else
      var before := steps[..|steps| - 1];
      var c := Created(h, Run(h, before), steps[|steps| - 1]);
      if c.Some? && c.value.0 == f then Some(c.value.1) else NewestOf(h, before, f)
  }

  lemma {:induction false} RevokeFamiliesOnlyRevokes(db: Db, fs: seq<string>, now: int, up: bool)
    ensures OnlyRevoked(db.rows, RevokeFamilies(db, fs, now, up).rows)
  {
    if fs != [] {
      RevokeFamiliesOnlyRevokes(db, fs[..|fs| - 1], now, up);
      RevokeFamilyKills(RevokeFamilies(db, fs[..|fs| - 1], now, up), fs[|fs| - 1], now, up);
    }
  }

  /** A step that creates no token leaves no unrevoked row that was not there before. */
  lemma LiveWasThere(h: Hash, db: Db, s: Step, r: Row)
    requires r in Next(h, db, s).rows && !r.revoked
    ensures r in db.rows
            || (Created(h, db, s) == Some((r.familyId, r.tokenHash)) && r == Next(h, db, s).rows[|db.rows|])
    ensures Created(h, db, s).Some? ==> |Next(h, db, s).rows| == |db.rows| + 1
  {
    if s.RevokeAll? {
      var fs := LiveFamilies(db.rows, s.userId, s.tenantId);
      RevokeFamiliesOnlyRevokes(db, fs, s.now, s.redisUp);
    }
    var i :| 0 <= i < |Next(h, db, s).rows| && Next(h, db, s).rows[i] == r;
    if !s.Prune? && i < |db.rows| {
      assert db.rows[i] in db.rows;
    }
  }

  /** The unrevoked token of a family is the newest one ever created in it. */
  lemma {:induction false} LiveIsNewest(h: Hash, steps: seq<Step>, r: Row)
    requires FreshFamilies(steps) && r in Run(h, steps).rows && !r.revoked
    ensures NewestOf(h, steps, r.familyId) == Some(r.tokenHash)
  {
    if steps != [] {
      var before, last := steps[..|steps| - 1], steps[|steps| - 1];
      var db, d := Run(h, before), Run(h, steps);
      IssuedGrows(steps);
      LiveWasThere(h, db, last, r);
      if r in db.rows {
        LiveIsNewest(h, before, r);
        var c := Created(h, db, last);
        if c.Some? && c.value.0 == r.familyId {
          FamiliesAreLines(h, steps);
          NoOlderLive(h, db, last, r);
        }
      }
    }
  }

  lemma CreatedIsLast(h: Hash, db: Db, s: Step)
    requires Created(h, db, s).Some?
    ensures var d := Next(h, db, s);
            && |d.rows| == |db.rows| + 1
            && d.rows[|db.rows|].familyId == Created(h, db, s).value.0
            && d.rows[|db.rows|].tokenHash == Created(h, db, s).value.1
  {
  }

  lemma NoOlderLive(h: Hash, db: Db, s: Step, r: Row)
    requires Created(h, db, s).Some? && Created(h, db, s).value.0 == r.familyId
    requires Line(Next(h, db, s).rows) && r in Next(h, db, s).rows && !r.revoked
    ensures r.tokenHash == Created(h, db, s).value.1
  {
    CreatedIsLast(h, db, s);
    var rows := Next(h, db, s).rows;
    forall i | 0 <= i < |db.rows| && rows[i].familyId == r.familyId ensures rows[i].revoked {
      assert Precedes(rows[i], rows[|db.rows|]);
    }
  }

  // ----- Dead families -----

  lemma StepKeepsDead(h: Hash, db: Db, s: Step, f: string)
    requires NoLive(db.rows, f) && !(s.Issue? && s.familyId == f)
    ensures NoLive(Next(h, db, s).rows, f)
  {
    DeadCreatesNothing(h, db, s, f);
    forall r | r in Next(h, db, s).rows && r.familyId == f ensures r.revoked {
      if !r.revoked {
        LiveWasThere(h, db, s, r);
      }
    }
  }

  lemma DeadCreatesNothing(h: Hash, db: Db, s: Step, f: string)
    requires NoLive(db.rows, f) && !(s.Issue? && s.familyId == f)
    ensures Created(h, db, s).Some? ==> Created(h, db, s).value.0 != f
  {
    if s.Rotate? {
      var i := IndexOfHash(db.rows, h(s.raw));
      assert i.Some? ==> db.rows[i.value] in db.rows;
    }
  }

  /** A family without an unrevoked token never gets one again. */
  lemma {:induction false} DeadForever(h: Hash, steps: seq<Step>, n: nat, f: string)
    requires FreshFamilies(steps) && n <= |steps|
    requires f in Issued(steps[..n]) && NoLive(Run(h, steps[..n]).rows, f)
    ensures NoLive(Run(h, steps).rows, f)
  {
    if n == |steps| {
      assert steps[..n] == steps;
    } else {
      var before, last := steps[..|steps| - 1], steps[|steps| - 1];
      assert before[..n] == steps[..n];
      IssuedGrows(steps);
      DeadForever(h, before, n, f);
      assert f in Issued(before) by {
        var i :| 0 <= i < n && steps[..n][i].Issue? && steps[..n][i].familyId == f;
        assert before[i] == steps[i];
      }
      StepKeepsDead(h, Run(h, before), last, f);
    }
  }

  /** Step `n` presents a stored token of family `f` that is already revoked. */
  ghost predicate Replays(h: Hash, steps: seq<Step>, n: nat, f: string) {
    && n < |steps| && steps[n].Rotate?
    && var rows := Run(h, steps[..n]).rows;
    && var i := IndexOfHash(rows, h(steps[n].raw));
    && i.Some? && rows[i.value].revoked && rows[i.value].familyId == f
  }

  /** Step `m` rotates a token of family `f` successfully. */
  ghost predicate Rotates(h: Hash, steps: seq<Step>, m: nat, f: string) {
    && m < |steps| && steps[m].Rotate?
    && var c := Created(h, Run(h, steps[..m]), steps[m]);
    && c.Some? && c.value.0 == f
  }

  /** After a revoked token is presented, no token of its family is ever rotated again. */
  lemma ReplayEndsFamily(h: Hash, steps: seq<Step>, n: nat, m: nat, f: string)
    requires FreshFamilies(steps) && n < m && Replays(h, steps, n, f)
    ensures !Rotates(h, steps, m, f)
  {
    if m < |steps| && steps[m].Rotate? {
      ReplayKills(h, steps, n, f);
      assert FreshFamilies(steps[..m]) && steps[..m][..n + 1] == steps[..n + 1];
      DeadForever(h, steps[..m], n + 1, f);
      DeadCreatesNothing(h, Run(h, steps[..m]), steps[m], f);
    }
  }

  lemma ReplayStep(h: Hash, db: Db, s: Step, i: nat, issued: set<string>)
    requires Inv(db, issued) && s.Rotate?
    requires IndexOfHash(db.rows, h(s.raw)) == Some(i) && db.rows[i].revoked
    ensures NoLive(Next(h, db, s).rows, db.rows[i].familyId) && db.rows[i].familyId in issued
  {
    assert db.rows[i] in db.rows;
    RevokeFamilyKills(db, db.rows[i].familyId, s.now, s.redisUp);
  }

  lemma FreshPrefix(steps: seq<Step>, n: nat)
    requires FreshFamilies(steps) && n <= |steps|
    ensures FreshFamilies(steps[..n])
  {
  }

  lemma ReplayKills(h: Hash, steps: seq<Step>, n: nat, f: string)
    requires FreshFamilies(steps) && Replays(h, steps, n, f)
    ensures NoLive(Run(h, steps[..n + 1]).rows, f) && f in Issued(steps[..n + 1])
  {
    var before := steps[..n];
    FreshPrefix(steps, n);
    FamiliesAreLines(h, before);
    var db := Run(h, before);
    ReplayStep(h, db, steps[n], IndexOfHash(db.rows, h(steps[n].raw)).value, Issued(before));
    IssuedEarlier(steps, n, n + 1, f);
    assert steps[..n + 1][..n] == before;
  }

  lemma IssuedEarlier(steps: seq<Step>, n: nat, m: nat, f: string)
    requires n <= m <= |steps| && f in Issued(steps[..n])
    ensures f in Issued(steps[..m])
  {
    var i :| 0 <= i < n && steps[..n][i].Issue? && steps[..n][i].familyId == f;
    assert steps[..m][i] == steps[..n][i];
  }

  // ----- The absolute lifetime -----

  /** The deadline set when family `f` was issued. */
  function Deadline(steps: seq<Step>, f: string): Option<int> {
    if steps == [] then None
    else
      var last := steps[|steps| - 1];
      if last.Issue? && last.familyId == f then Some(last.now + last.absoluteTtl)
      else Deadline(steps[..|steps| - 1], f)
  }

  ghost predicate SameDeadline(x: Row, r: Row) {
    && x.familyId == r.familyId && x.absoluteExpiresAt == r.absoluteExpiresAt
    && x.userId == r.userId && x.tenantId == r.tenantId
  }

  lemma RotateKeepsDeadlines(h: Hash, db: Db, s: Step, r: Row) returns (x: Row)
    requires s.Rotate? && r in Next(h, db, s).rows
    ensures x in db.rows && SameDeadline(x, r)
  {
    var d := Next(h, db, s);
    var i :| 0 <= i < |d.rows| && d.rows[i] == r;
    x := if i < |db.rows| then db.rows[i] else db.rows[IndexOfHash(db.rows, h(s.raw)).value];
  }

  lemma RevokesKeepDeadlines(rows: seq<Row>, out: seq<Row>, r: Row) returns (x: Row)
    requires OnlyRevoked(rows, out) && r in out
    ensures x in rows && SameDeadline(x, r)
  {
    var i :| 0 <= i < |out| && out[i] == r;
    x := rows[i];
  }

  /** Every row of the next table has its deadline from a row of its family, unless it is being issued now. */
  lemma DeadlineComesFrom(h: Hash, db: Db, s: Step, r: Row) returns (x: Row)
    requires r in Next(h, db, s).rows
    ensures (x in db.rows && SameDeadline(x, r))
            || (s.Issue? && s.familyId == r.familyId && r.absoluteExpiresAt == s.now + s.absoluteTtl
                && s.userId == r.userId && s.tenantId == r.tenantId)
  {
    x := r;
    match s
    case Issue(_, _, _, _, _, _, _) =>
    case Rotate(_, _, _, _, _) => x := RotateKeepsDeadlines(h, db, s, r);
    case RevokeOne(_) => x := RevokesKeepDeadlines(db.rows, Next(h, db, s).rows, r);
    case RevokeAll(now, u, t, up) =>
      var fs := LiveFamilies(db.rows, u, t);
      RevokeFamiliesOnlyRevokes(db, fs, now, up);
      var d := RevokeFamilies(db, fs, now, up);
      x := RevokesKeepDeadlines(d.rows, RevokeUserRows(d.rows, u, t), r);
      x := RevokesKeepDeadlines(db.rows, d.rows, x);
    case Prune(_) =>
  }

  lemma RowIsIssued(h: Hash, steps: seq<Step>, x: Row)
    requires FreshFamilies(steps) && x in Run(h, steps).rows
    ensures x.familyId in Issued(steps)
  {
    FamiliesAreLines(h, steps);
  }

  lemma NotIssuedAgain(h: Hash, steps: seq<Step>, x: Row)
    requires steps != [] && FreshFamilies(steps) && x in Run(h, steps[..|steps| - 1]).rows
    ensures !(steps[|steps| - 1].Issue? && steps[|steps| - 1].familyId == x.familyId)
  {
    IssuedGrows(steps);
    RowIsIssued(h, steps[..|steps| - 1], x);
  }

  lemma DeadlineStays(steps: seq<Step>, f: string)
    requires steps != [] && !(steps[|steps| - 1].Issue? && steps[|steps| - 1].familyId == f)
    ensures Deadline(steps, f) == Deadline(steps[..|steps| - 1], f)
  {
  }

  /** However often a family rotates, its tokens keep the deadline of its issue. */
  lemma {:induction false} RowsKeepDeadline(h: Hash, steps: seq<Step>, r: Row)
    requires FreshFamilies(steps) && r in Run(h, steps).rows
    ensures Deadline(steps, r.familyId) == Some(r.absoluteExpiresAt)
  {
    if steps != [] {
      var before, last := steps[..|steps| - 1], steps[|steps| - 1];
      FreshPrefix(steps, |before|);
      var x := DeadlineComesFrom(h, Run(h, before), last, r);
      if x in Run(h, before).rows && SameDeadline(x, r) {
        RowsKeepDeadline(h, before, x);
        NotIssuedAgain(h, steps, x);
        DeadlineStays(steps, r.familyId);
      }
    }
  }

  /** The user and tenant that family `f` was issued to. */
  function Owner(steps: seq<Step>, f: string): Option<(string, string)> {
    if steps == [] then None
    else
      var last := steps[|steps| - 1];
      if last.Issue? && last.familyId == f then Some((last.userId, last.tenantId))
      else Owner(steps[..|steps| - 1], f)
  }

  /** However often a family rotates, its tokens belong to the user and tenant it was issued to. */
  lemma {:induction false} RowsKeepOwner(h: Hash, steps: seq<Step>, r: Row)
    requires FreshFamilies(steps) && r in Run(h, steps).rows
    ensures Owner(steps, r.familyId) == Some((r.userId, r.tenantId))
  {
    if steps != [] {
      var before, last := steps[..|steps| - 1], steps[|steps| - 1];
      FreshPrefix(steps, |before|);
      var x := DeadlineComesFrom(h, Run(h, before), last, r);
      if x in Run(h, before).rows && SameDeadline(x, r) {
        RowsKeepOwner(h, before, x);
        NotIssuedAgain(h, steps, x);
      }
    }
  }

  /** No rotation of a family succeeds after its issue time plus its absolute lifetime. */
  lemma NoRotationAfterDeadline(h: Hash, steps: seq<Step>, m: nat, f: string)
    requires FreshFamilies(steps) && Rotates(h, steps, m, f)
    ensures Deadline(steps[..m], f).Some? && steps[m].now <= Deadline(steps[..m], f).value
  {
    var rows := Run(h, steps[..m]).rows;
    var i := IndexOfHash(rows, h(steps[m].raw)).value;
    assert FreshFamilies(steps[..m]);
    RowsKeepDeadline(h, steps[..m], rows[i]);
  }

  // ----- The blacklist check -----

  /** In a sequential run the revoked-family check never fires, so Redis being up or down never changes a rotation. */
  lemma BlacklistNeverDecides(h: Hash, steps: seq<Step>, now: int, raw: string, rawNew: string, slide: int)
    requires FreshFamilies(steps)
    ensures var db := Run(h, steps);
            && (forall r, up :: r in db.rows && !r.revoked ==> !ReportedRevoked(db, r.familyId, now, up))
            && ApplyRotate(h, db, now, raw, rawNew, slide, true).1
               == ApplyRotate(h, db, now, raw, rawNew, slide, false).1
            && ApplyRotate(h, db, now, raw, rawNew, slide, true).0.rows
               == ApplyRotate(h, db, now, raw, rawNew, slide, false).0.rows
  {
    var db := Run(h, steps);
    FamiliesAreLines(h, steps);
    forall r, up: bool | r in db.rows && !r.revoked ensures !ReportedRevoked(db, r.familyId, now, up) {
      assert r.familyId in db.blacklist ==> NoLive(db.rows, r.familyId);
    }
    var i := IndexOfHash(db.rows, h(raw));
    assert i.Some? ==> db.rows[i.value] in db.rows;
  }

  // ----- Sign out everywhere -----

  /** After sign-out the user has no unrevoked token, and no other user's token has changed. */
  lemma SignOutIsExact(h: Hash, steps: seq<Step>, now: int, u: string, t: string, up: bool)
    requires FreshFamilies(steps)
    ensures var db := Run(h, steps);
            var d := ApplyRevokeAll(db, now, u, t, up);
            && |d.rows| == |db.rows|
            && forall i :: 0 <= i < |db.rows| ==>
                 && !OwnedLive(d.rows[i], u, t)
                 && (db.rows[i].userId != u || db.rows[i].tenantId != t ==> d.rows[i] == db.rows[i])
  {
    var db := Run(h, steps);
    FamiliesAreLines(h, steps);
    var fs := LiveFamilies(db.rows, u, t);
    OtherFamiliesStay(db, fs, now, up);
    forall i | 0 <= i < |db.rows| && db.rows[i].familyId in fs
      ensures db.rows[i].userId == u && db.rows[i].tenantId == t
    {
      var r :| r in db.rows && OwnedLive(r, u, t) && r.familyId == db.rows[i].familyId;
      var k :| 0 <= k < |db.rows| && db.rows[k] == r;
      LiveIsUnreported(db, Issued(steps), k);
    }
  }

  lemma {:induction false} RevokedFamiliesAreDead(db: Db, fs: seq<string>, now: int, up: bool, f: string)
    requires f in fs
    ensures NoLive(RevokeFamilies(db, fs, now, up).rows, f)
  {
    var d := RevokeFamilies(db, fs[..|fs| - 1], now, up);
    RevokeFamilyKills(d, fs[|fs| - 1], now, up);
    if f != fs[|fs| - 1] {
      assert f in fs[..|fs| - 1];
      RevokedFamiliesAreDead(db, fs[..|fs| - 1], now, up, f);
      OnlyRevokedKeepsDead(d.rows, RevokeFamilies(db, fs, now, up).rows, f);
    }
  }

  /** Revoking the families leaves nothing to count, so signing out always reports zero tokens. */
  lemma SignOutReportsZero(db: Db, now: int, u: string, t: string, up: bool)
    ensures SignOutCount(db, now, u, t, up) == 0
  {
    var fs := LiveFamilies(db.rows, u, t);
    var d := RevokeFamilies(db, fs, now, up);
    RevokeFamiliesOnlyRevokes(db, fs, now, up);
    forall r | r in d.rows ensures !OwnedLive(r, u, t) {
      if OwnedLive(r, u, t) {
        var i :| 0 <= i < |d.rows| && d.rows[i] == r;
        assert db.rows[i] in db.rows;
        RevokedFamiliesAreDead(db, fs, now, up, r.familyId);
      }
    }
    NoneOwned(d.rows, u, t);
  }

  lemma {:induction false} NoneOwned(rows: seq<Row>, u: string, t: string)
    requires forall r :: r in rows ==> !OwnedLive(r, u, t)
    ensures LiveRows(rows, u, t) == []
  {
    if rows != [] {
      NoneOwned(rows[..|rows| - 1], u, t);
    }
  }

  lemma {:induction false} OtherFamiliesStay(db: Db, fs: seq<string>, now: int, up: bool)
    ensures var rows := RevokeFamilies(db, fs, now, up).rows;
            && OnlyRevoked(db.rows, rows)
            && forall i :: 0 <= i < |rows| && db.rows[i].familyId !in fs ==> rows[i] == db.rows[i]
  {
    if fs != [] {
      OtherFamiliesStay(db, fs[..|fs| - 1], now, up);
      RevokeFamilyKills(RevokeFamilies(db, fs[..|fs| - 1], now, up), fs[|fs| - 1], now, up);
    }
  }
}
