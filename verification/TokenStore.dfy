/** Refresh-token families: the token table, the family blacklist, and one atomic step for each entry point. */
module TokenStore {
  import opened Primitives

  const DEFAULT_ABSOLUTE_TTL_MS: int := 30 * 24 * 60 * 60 * 1000

  datatype Reason = FamilyRevoked | Rotated | Expired | ManualRevocation | SignOutAll

  datatype Row = Row(
    id: nat, tokenHash: string, familyId: string, userId: string, tenantId: string,
    absoluteExpiresAt: int, slidingExpiresAt: int, lastUsedAt: int, revoked: bool, reason: Option<Reason>)

  /** The table in order of creation, the next row id, and the blacklist with the time each entry lapses. */
  datatype Db = Db(rows: seq<Row>, nextId: nat, blacklist: map<string, int>)

  const EMPTY := Db([], 0, map[])

  type Hash = string -> string

  function RevokeRow(r: Row, reason: Reason): Row {
    r.(revoked := true, reason := Some(reason))
  }

  /** The row with this token hash. */
  function IndexOfHash(rows: seq<Row>, tokenHash: string): (i: Option<nat>)
    ensures i.Some? ==> i.value < |rows| && rows[i.value].tokenHash == tokenHash
    ensures i == None ==> forall j :: 0 <= j < |rows| ==> rows[j].tokenHash != tokenHash
  {
    if rows == [] then None
    else if rows[|rows| - 1].tokenHash == tokenHash then Some(|rows| - 1)
    else IndexOfHash(rows[..|rows| - 1], tokenHash)
  }

  /** `updateMany` over the unrevoked rows of a family. */
  function RevokeFamilyRows(rows: seq<Row>, familyId: string): (out: seq<Row>)
    ensures |out| == |rows|
  {
    seq(|rows|, i requires 0 <= i < |rows| =>
      if rows[i].familyId == familyId && !rows[i].revoked then RevokeRow(rows[i], FamilyRevoked) else rows[i])
  }

  predicate OwnedLive(r: Row, userId: string, tenantId: string) {
    r.userId == userId && r.tenantId == tenantId && !r.revoked
  }

  function RevokeUserRows(rows: seq<Row>, userId: string, tenantId: string): (out: seq<Row>)
    ensures |out| == |rows|
  {
    seq(|rows|, i requires 0 <= i < |rows| =>
      if OwnedLive(rows[i], userId, tenantId) then RevokeRow(rows[i], SignOutAll) else rows[i])
  }

  /** Blacklists the family if Redis answers, and revokes its rows. */
  function RevokeFamily(db: Db, familyId: string, now: int, redisUp: bool): Db {
    var blacklist := if redisUp then db.blacklist[familyId := now + DEFAULT_ABSOLUTE_TTL_MS] else db.blacklist;
    db.(blacklist := blacklist, rows := RevokeFamilyRows(db.rows, familyId))
  }

  function RevokeFamilies(db: Db, families: seq<string>, now: int, redisUp: bool): Db {
    if families == [] then db
    else
      var d := RevokeFamilies(db, families[..|families| - 1], now, redisUp);
      RevokeFamily(d, families[|families| - 1], now, redisUp)
  }

  /** What `isRevokedFamily` answers: the blacklist if Redis answers, else a family-revoked row. */
  predicate ReportedRevoked(db: Db, familyId: string, now: int, redisUp: bool) {
    if redisUp then familyId in db.blacklist && now < db.blacklist[familyId]
    else exists r :: r in db.rows && r.familyId == familyId && r.reason == Some(FamilyRevoked) && r.revoked
  }

  datatype RotateResult =
    | NotFound | FamilyCompromised | TokenExpired | DuplicateToken
    | Rotation(refreshToken: string, expiresAt: int)

  /** Adds a row unless its hash is taken, as the unique index demands. */
  function Create(db: Db, r: Row): Option<Db> {
    if IndexOfHash(db.rows, r.tokenHash).Some? then None
    else Some(db.(rows := db.rows + [r.(id := db.nextId)], nextId := db.nextId + 1))
  }

  function FirstRow(h: Hash, now: int, familyId: string, raw: string, userId: string, tenantId: string,
                    absoluteTtl: int, slidingTtl: int): Row
  {
    Row(0, h(raw), familyId, userId, tenantId, now + absoluteTtl, now + slidingTtl, now, false, None)
  }

  function ApplyRotate(h: Hash, db: Db, now: int, raw: string, rawNew: string, slidingTtl: int, redisUp: bool)
    : (Db, RotateResult)
  {
    match IndexOfHash(db.rows, h(raw))
    case None => (db, NotFound)
    case Some(i) =>
      var r := db.rows[i];
      if r.revoked then (RevokeFamily(db, r.familyId, now, redisUp), FamilyCompromised)
      else if ReportedRevoked(db, r.familyId, now, redisUp) then (db, FamilyCompromised)
      else if now > r.absoluteExpiresAt || now > r.slidingExpiresAt then
        (db.(rows := db.rows[i := RevokeRow(r, Expired)]), TokenExpired)
      else
        var next := r.(tokenHash := h(rawNew), slidingExpiresAt := now + slidingTtl, lastUsedAt := now, reason := None);
        match Create(db.(rows := db.rows[i := RevokeRow(r, Rotated)]), next)
        case None => (db, DuplicateToken)
        case Some(db') => (db', Rotation(rawNew, now + slidingTtl))
  }

  function ApplyRevoke(h: Hash, db: Db, raw: string): (Db, bool) {
    match IndexOfHash(db.rows, h(raw))
    case None => (db, false)
    case Some(i) =>
      if db.rows[i].revoked then (db, false)
      else (db.(rows := db.rows[i := RevokeRow(db.rows[i], ManualRevocation)]), true)
  }

  /** The families with an unrevoked token of this user, each once. */
  function LiveFamilies(rows: seq<Row>, userId: string, tenantId: string): (fs: seq<string>)
    ensures forall f :: f in fs <==> exists r :: r in rows && OwnedLive(r, userId, tenantId) && r.familyId == f
  {
    if rows == [] then []
    else
      var fs := LiveFamilies(rows[..|rows| - 1], userId, tenantId);
      var r := rows[|rows| - 1];
      assert forall x :: x in rows <==> x in rows[..|rows| - 1] || x == r;
      if OwnedLive(r, userId, tenantId) && r.familyId !in fs then fs + [r.familyId] else fs
  }

  function ApplyRevokeAll(db: Db, now: int, userId: string, tenantId: string, redisUp: bool): Db {
    var d := RevokeFamilies(db, LiveFamilies(db.rows, userId, tenantId), now, redisUp);
    d.(rows := RevokeUserRows(d.rows, userId, tenantId))
  }

  /** What the last update of a sign-out counts: the user's rows still unrevoked after their families were. */
  function SignOutCount(db: Db, now: int, userId: string, tenantId: string, redisUp: bool): nat {
    |LiveRows(RevokeFamilies(db, LiveFamilies(db.rows, userId, tenantId), now, redisUp).rows, userId, tenantId)|
  }

  predicate Stale(r: Row, now: int) {
    r.absoluteExpiresAt < now || r.slidingExpiresAt < now
  }

  function Fresh(rows: seq<Row>, now: int): (out: seq<Row>)
    ensures forall r :: r in out <==> r in rows && !Stale(r, now)
    ensures |out| <= |rows|
  {
    if rows == [] then []
    else
      var r := rows[|rows| - 1];
      assert forall x :: x in rows <==> x in rows[..|rows| - 1] || x == r;
      Fresh(rows[..|rows| - 1], now) + if Stale(r, now) then [] else [r]
  }

  /** The user's unrevoked rows. */
  function LiveRows(rows: seq<Row>, userId: string, tenantId: string): (out: seq<Row>)
    ensures forall r :: r in out <==> r in rows && OwnedLive(r, userId, tenantId)
  {
    if rows == [] then []
    else
      var r := rows[|rows| - 1];
      assert forall x :: x in rows <==> x in rows[..|rows| - 1] || x == r;
      LiveRows(rows[..|rows| - 1], userId, tenantId) + if OwnedLive(r, userId, tenantId) then [r] else []
  }

  function InsertByUse(s: seq<Row>, r: Row): (out: seq<Row>)
    ensures forall x :: x in out <==> x in s || x == r
  {
    if s == [] || s[|s| - 1].lastUsedAt >= r.lastUsedAt then s + [r]
    else
      assert forall x :: x in s <==> x in s[..|s| - 1] || x == s[|s| - 1];
      InsertByUse(s[..|s| - 1], r) + [s[|s| - 1]]
  }

  /** Stable sort, last used first. */
  function ByLastUse(s: seq<Row>): (out: seq<Row>)
    ensures forall x :: x in out <==> x in s
  {
    if s == [] then []
    else
      assert forall x :: x in s <==> x in s[..|s| - 1] || x == s[|s| - 1];
      InsertByUse(ByLastUse(s[..|s| - 1]), s[|s| - 1])
  }

  /** No family occurs twice. */
  predicate Apart(s: seq<Row>) {
    forall i, j :: 0 <= i < j < |s| ==> s[i].familyId != s[j].familyId
  }

  predicate OneLivePerFamily(rows: seq<Row>) {
    forall i, j :: 0 <= i < j < |rows| && rows[i].familyId == rows[j].familyId ==> rows[i].revoked || rows[j].revoked
  }

  lemma {:induction false} LiveRowsApart(rows: seq<Row>, userId: string, tenantId: string)
    requires OneLivePerFamily(rows)
    ensures Apart(LiveRows(rows, userId, tenantId))
  {
    if rows != [] {
      var before, last := rows[..|rows| - 1], rows[|rows| - 1];
      LiveRowsApart(before, userId, tenantId);
      var out := LiveRows(before, userId, tenantId);
      if OwnedLive(last, userId, tenantId) {
        forall i | 0 <= i < |out| ensures out[i].familyId != last.familyId {
          assert out[i] in before;
          var j :| 0 <= j < |before| && rows[j] == out[i];
        }
      }
    }
  }

  lemma {:induction false} InsertKeepsApart(s: seq<Row>, r: Row)
    requires Apart(s) && forall x :: x in s ==> x.familyId != r.familyId
    ensures Apart(InsertByUse(s, r))
  {
    if s != [] && s[|s| - 1].lastUsedAt < r.lastUsedAt {
      InsertKeepsApart(s[..|s| - 1], r);
      var out := InsertByUse(s[..|s| - 1], r);
      forall i | 0 <= i < |out| ensures out[i].familyId != s[|s| - 1].familyId {
        assert out[i] in s[..|s| - 1] || out[i] == r;
        assert s[|s| - 1] in s;
      }
    }
  }

  lemma {:induction false} SortKeepsApart(s: seq<Row>)
    requires Apart(s)
    ensures Apart(ByLastUse(s))
  {
    if s != [] {
      SortKeepsApart(s[..|s| - 1]);
      forall x | x in ByLastUse(s[..|s| - 1]) ensures x.familyId != s[|s| - 1].familyId {
        assert x in s[..|s| - 1];
        var i :| 0 <= i < |s| - 1 && s[i] == x;
      }
      InsertKeepsApart(ByLastUse(s[..|s| - 1]), s[|s| - 1]);
    }
  }

  function FamiliesOf(s: seq<Row>): set<string> {
    set r | r in s :: r.familyId
  }

  /** The first token of every family. */
  function FirstOfEach(tokens: seq<Row>): seq<Row> {
    if tokens == [] then []
    else
      var kept := FirstOfEach(tokens[..|tokens| - 1]);
      if tokens[|tokens| - 1].familyId in FamiliesOf(kept) then kept else kept + [tokens[|tokens| - 1]]
  }

  lemma {:induction false} FirstOfEachCovers(tokens: seq<Row>)
    ensures FamiliesOf(FirstOfEach(tokens)) == FamiliesOf(tokens) && Apart(FirstOfEach(tokens))
    ensures forall r :: r in FirstOfEach(tokens) ==> r in tokens
  {
    if tokens != [] {
      var before, last := tokens[..|tokens| - 1], tokens[|tokens| - 1];
      FirstOfEachCovers(before);
      var kept := FirstOfEach(before);
      assert FamiliesOf(tokens) == FamiliesOf(before) + {last.familyId};
      assert FamiliesOf(kept + [last]) == FamiliesOf(kept) + {last.familyId};
      if last.familyId !in FamiliesOf(kept) {
        forall i | 0 <= i < |kept| ensures kept[i].familyId != last.familyId {
          assert kept[i] in kept;
        }
      }
    }
  }

  /** Among tokens of different families nothing is dropped. */
  lemma {:induction false} FirstOfApart(tokens: seq<Row>)
    requires Apart(tokens)
    ensures FirstOfEach(tokens) == tokens
  {
    if tokens != [] {
      FirstOfApart(tokens[..|tokens| - 1]);
    }
  }

  class TokenService {
    const h: Hash
    var rows: seq<Row>
    var nextId: nat
    var blacklist: map<string, int>

    function State(): Db
      reads this
    {
      Db(rows, nextId, blacklist)
    }

    constructor (h: Hash)
      ensures this.h == h && State() == EMPTY
    {
      this.h := h;
      rows, nextId, blacklist := [], 0, map[];
    }

    method RevokeTokenFamily(familyId: string, now: int, redisUp: bool)
      modifies this
      ensures State() == RevokeFamily(old(State()), familyId, now, redisUp)
    {
      if redisUp {
        blacklist := blacklist[familyId := now + DEFAULT_ABSOLUTE_TTL_MS];
      }
      rows := RevokeFamilyRows(rows, familyId);
    }

    method IssueTokenFamily(now: int, familyId: string, raw: string, userId: string, tenantId: string,
                            absoluteTtl: int, slidingTtl: int)
      returns (r: Option<(string, int)>)
      modifies this
      ensures match Create(old(State()), FirstRow(h, now, familyId, raw, userId, tenantId, absoluteTtl, slidingTtl))
              case None => r == None && State() == old(State())
              case Some(db) => r == Some((raw, now + slidingTtl)) && State() == db
    {
      var absoluteExpiresAt := now + absoluteTtl;
      var slidingExpiresAt := now + slidingTtl;
      if IndexOfHash(rows, h(raw)).Some? { return None; }
      rows := rows + [Row(nextId, h(raw), familyId, userId, tenantId, absoluteExpiresAt, slidingExpiresAt, now, false,
                          None)];
      nextId := nextId + 1;
      return Some((raw, slidingExpiresAt));
    }

    method RotateRefreshToken(now: int, raw: string, rawNew: string, slidingTtl: int, redisUp: bool)
      returns (r: RotateResult)
      modifies this
      ensures (State(), r) == ApplyRotate(h, old(State()), now, raw, rawNew, slidingTtl, redisUp)
    {
      var found := IndexOfHash(rows, h(raw));
      if found == None { return NotFound; }
      var existing := rows[found.value];
      if existing.revoked {
        RevokeTokenFamily(existing.familyId, now, redisUp);
        return FamilyCompromised;
      }
      if ReportedRevoked(State(), existing.familyId, now, redisUp) { return FamilyCompromised; }
      if now > existing.absoluteExpiresAt || now > existing.slidingExpiresAt {
        rows := rows[found.value := RevokeRow(existing, Expired)];
        return TokenExpired;
      }
      var slidingExpiresAt := now + slidingTtl;
      var updated := rows[found.value := RevokeRow(existing, Rotated)];
      if IndexOfHash(updated, h(rawNew)).Some? { return DuplicateToken; }
      rows := updated + [existing.(id := nextId, tokenHash := h(rawNew), slidingExpiresAt := slidingExpiresAt,
                                   lastUsedAt := now, reason := None)];
      nextId := nextId + 1;
      return Rotation(rawNew, slidingExpiresAt);
    }

    method RevokeToken(raw: string) returns (done: bool)
      modifies this
      ensures (State(), done) == ApplyRevoke(h, old(State()), raw)
    {
      var found := IndexOfHash(rows, h(raw));
      if found == None || rows[found.value].revoked { return false; }
      rows := rows[found.value := RevokeRow(rows[found.value], ManualRevocation)];
      return true;
    }

    method RevokeAllUserTokens(now: int, userId: string, tenantId: string, redisUp: bool) returns (count: nat)
      modifies this
      ensures count == SignOutCount(old(State()), now, userId, tenantId, redisUp)
      ensures State() == ApplyRevokeAll(old(State()), now, userId, tenantId, redisUp)
    {
      ghost var before := State();
      var families := LiveFamilies(rows, userId, tenantId);
      for i := 0 to |families|
        invariant State() == RevokeFamilies(before, families[..i], now, redisUp)
      {
        assert families[..i + 1][..i] == families[..i];
        RevokeTokenFamily(families[i], now, redisUp);
      }
      assert families[..|families|] == families;
      count := |LiveRows(rows, userId, tenantId)|;
      rows := RevokeUserRows(rows, userId, tenantId);
    }

    /** The session list: unrevoked tokens, last used first, one per family. */
    method ListUserTokenFamilies(userId: string, tenantId: string) returns (list: seq<Row>)
      ensures list == FirstOfEach(ByLastUse(LiveRows(rows, userId, tenantId)))
      ensures OneLivePerFamily(rows) ==> list == ByLastUse(LiveRows(rows, userId, tenantId))
    {
      var tokens := ByLastUse(LiveRows(rows, userId, tenantId));
      var seen := {};
      list := [];
      for i := 0 to |tokens|
        invariant list == FirstOfEach(tokens[..i]) && seen == FamiliesOf(list)
      {
        assert tokens[..i + 1][..i] == tokens[..i];
        if tokens[i].familyId !in seen {
          seen := seen + {tokens[i].familyId};
          list := list + [tokens[i]];
        }
      }
      assert tokens[..|tokens|] == tokens;
      if OneLivePerFamily(rows) {
        LiveRowsApart(rows, userId, tenantId);
        SortKeepsApart(LiveRows(rows, userId, tenantId));
        FirstOfApart(tokens);
      }
    }

    method PruneExpiredTokens(now: int) returns (count: nat)
      modifies this
      ensures State() == old(State()).(rows := Fresh(old(rows), now))
      ensures count == |old(rows)| - |rows|
    {
      var kept := [];
      for i := 0 to |rows|
        invariant kept == Fresh(rows[..i], now)
      {
        assert rows[..i + 1][..i] == rows[..i];
        if !Stale(rows[i], now) {
          kept := kept + [rows[i]];
        }
      }
      assert rows[..|rows|] == rows;
      count := |rows| - |kept|;
      rows := kept;
    }
  }
}
