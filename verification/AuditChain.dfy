/** The append-only audit log, its hash chain, and the chain verifier. */
module AuditChain {
  import opened Primitives
  import opened CanonicalJson

  function Zeros(n: nat): (s: string)
    ensures |s| == n && forall i :: 0 <= i < n ==> s[i] == '0'
  {
    if n == 0 then "" else Zeros(n - 1) + "0"
  }

  /** A SHA-256 digest in hexadecimal. */
  type Digest = s: string | |s| == 64 witness Zeros(64)

  const GENESIS: Digest := Zeros(64)

  datatype Entry = Entry(
    id: string, timestamp: int, actor: string, action: string, resource: string, details: Json,
    previousHash: string, hash: string)

  /**
   * The runtime's primitives: the hash, the ISO text of a timestamp, JSON text, the key order of the sort, the decimal
   * text of a timestamp, an entry as one line of JSON, and the UTF-8 length of a text.
   */
  datatype Runtime = Runtime(
    sha: string -> Digest, stamp: int -> string, stringify: Json -> string, less: KeyOrder,
    epoch: int -> string, line: Entry -> string, octets: string -> nat)

  /** What is hashed: the fields run together without separators. */
  function Payload(rt: Runtime, e: Entry): string {
    e.previousHash + rt.stamp(e.timestamp) + e.actor + e.action + e.resource
    + rt.stringify(SortJson(rt.less, e.details))
  }

  function ComputeAuditHash(rt: Runtime, e: Entry): Digest {
    rt.sha(Payload(rt, e))
  }

  // ----- The chain -----

  function Head(start: string, entries: seq<Entry>): string {
    if entries == [] then start else entries[|entries| - 1].hash
  }

  predicate Links(rt: Runtime, previous: string, e: Entry) {
    e.previousHash == previous && e.hash == ComputeAuditHash(rt, e)
  }

  /** Every entry names its predecessor's hash, the first one names `start`, and every hash is recomputable. */
  predicate Chain(rt: Runtime, start: string, entries: seq<Entry>) {
    entries == [] ||
    (Chain(rt, start, entries[..|entries| - 1])
     && Links(rt, Head(start, entries[..|entries| - 1]), entries[|entries| - 1]))
  }

  /** A chain can be cut anywhere and resumed from the last hash before the cut. */
  lemma {:induction false} ChainSplits(rt: Runtime, start: string, a: seq<Entry>, b: seq<Entry>)
    ensures Chain(rt, start, a + b) <==> Chain(rt, start, a) && Chain(rt, Head(start, a), b)
    ensures Head(start, a + b) == Head(Head(start, a), b)
  {
    if b == [] {
      assert a + b == a;
    } else {
      var b' := b[..|b| - 1];
      ChainSplits(rt, start, a, b');
      assert (a + b)[..|a + b| - 1] == a + b';
    }
  }

  lemma ChainPrefix(rt: Runtime, start: string, entries: seq<Entry>, n: nat)
    requires n <= |entries| && Chain(rt, start, entries)
    ensures Chain(rt, start, entries[..n])
  {
    ChainSplits(rt, start, entries[..n], entries[n..]);
    assert entries[..n] + entries[n..] == entries;
  }

  // ----- The verifier -----

  datatype IntegrityResult = IntegrityResult(
    valid: bool, checked: nat, brokenAt: Option<string>, expectedPreviousHash: Option<string>,
    expectedHash: Option<string>, actualHash: Option<string>)

  /** An entry as an object: two objects with the same fields are still two. */
  class EntryObject {
    const entry: Entry

    constructor (entry: Entry)
      ensures this.entry == entry
    {
      this.entry := entry;
    }
  }

  function Values(objects: seq<EntryObject>): (entries: seq<Entry>)
    ensures |entries| == |objects| && forall i :: 0 <= i < |objects| ==> entries[i] == objects[i].entry
  {
    seq(|objects|, i requires 0 <= i < |objects| => objects[i].entry)
  }

  /** `Array.indexOf`, which compares references. */
  function IndexOf(objects: seq<EntryObject>, o: EntryObject): (k: nat)
    requires o in objects
    ensures k < |objects| && objects[k] == o && o !in objects[..k]
  {
    if objects[0] == o then 0
    else 1 + IndexOf(objects[1..], o)
  }

  /** Entry `k` is the first that does not link, and the result reports it. */
  ghost predicate Reports(rt: Runtime, objects: seq<EntryObject>, k: nat, r: IntegrityResult) {
    && k < |objects|
    && var entries := Values(objects);
    && Chain(rt, GENESIS, entries[..k]) && !Chain(rt, GENESIS, entries[..k + 1])
    && !r.valid && r.brokenAt == Some(entries[k].id) && r.checked == IndexOf(objects, objects[k])
    && (if entries[k].previousHash != Head(GENESIS, entries[..k])
        then r.expectedPreviousHash == Some(Head(GENESIS, entries[..k])) && r.expectedHash == None
             && r.actualHash == Some(entries[k].previousHash)
        else r.expectedPreviousHash == None && r.actualHash == Some(entries[k].hash)
             && r.expectedHash == Some(ComputeAuditHash(rt, entries[k])))
  }

  method VerifyAuditChain(rt: Runtime, objects: seq<EntryObject>) returns (r: IntegrityResult, ghost at: nat)
    ensures r.valid <==> Chain(rt, GENESIS, Values(objects))
    ensures r.valid ==> r == IntegrityResult(true, |objects|, None, None, None, None)
    ensures !r.valid ==> Reports(rt, objects, at, r)
  {
    ghost var entries := Values(objects);
    var previousHash: string := GENESIS;
    for i := 0 to |objects|
      invariant Chain(rt, GENESIS, entries[..i]) && previousHash == Head(GENESIS, entries[..i])
    {
      var entry := objects[i].entry;
      assert entries[..i + 1][..i] == entries[..i];
      if entry.previousHash != previousHash {
        BrokenStaysBroken(rt, entries, i);
        return IntegrityResult(false, IndexOf(objects, objects[i]), Some(entry.id), Some(previousHash), None,
                               Some(entry.previousHash)), i;
      }
      var expectedHash := ComputeAuditHash(rt, entry);
      if expectedHash != entry.hash {
        BrokenStaysBroken(rt, entries, i);
        return IntegrityResult(false, IndexOf(objects, objects[i]), Some(entry.id), None, Some(expectedHash),
                               Some(entry.hash)), i;
      }
      previousHash := entry.hash;
    }
    assert entries[..|objects|] == entries;
    return IntegrityResult(true, |objects|, None, None, None, None), |objects|;
  }

  lemma BrokenStaysBroken(rt: Runtime, entries: seq<Entry>, k: nat)
    requires k < |entries| && !Chain(rt, GENESIS, entries[..k + 1])
    ensures !Chain(rt, GENESIS, entries)
  {
    if Chain(rt, GENESIS, entries) {
      ChainPrefix(rt, GENESIS, entries, k + 1);
    }
  }

  /** `checked` is the number of entries that linked unless the broken object is listed before; then it is less. */
  lemma CheckedCountsLinks(rt: Runtime, objects: seq<EntryObject>, k: nat, r: IntegrityResult)
    requires Reports(rt, objects, k, r)
    ensures r.checked <= k
    ensures r.checked == k <==> objects[k] !in objects[..k]
  {
    var c := IndexOf(objects, objects[k]);
    if c < k {
      assert objects[..k][c] == objects[k];
    }
  }

  // ----- One head hash, one history -----

  ghost predicate Collision(rt: Runtime, x: string, y: string) {
    x != y && rt.sha(x) == rt.sha(y)
  }

  /** The chains exhibit two payloads with one digest, or a payload that hashes to the genesis value. */
  ghost predicate Forged(rt: Runtime, a: seq<Entry>, b: seq<Entry>) {
    || (exists i, j :: 0 <= i < |a| && 0 <= j < |b| && Collision(rt, Payload(rt, a[i]), Payload(rt, b[j])))
    || (exists i :: 0 <= i < |a| && ComputeAuditHash(rt, a[i]) == GENESIS)
    || (exists j :: 0 <= j < |b| && ComputeAuditHash(rt, b[j]) == GENESIS)
  }

  ghost predicate SameHistory(rt: Runtime, a: seq<Entry>, b: seq<Entry>) {
    && |a| == |b|
    && forall i :: 0 <= i < |a| ==>
         Payload(rt, a[i]) == Payload(rt, b[i]) && a[i].hash == b[i].hash && a[i].previousHash == b[i].previousHash
  }

  lemma HashLength(rt: Runtime, entries: seq<Entry>)
    requires Chain(rt, GENESIS, entries)
    ensures |Head(GENESIS, entries)| == 64
  {
  }

  /** The previous hash is the first 64 characters of what is hashed. */
  lemma PayloadNamesPrevious(rt: Runtime, x: Entry, y: Entry)
    requires |x.previousHash| == 64 == |y.previousHash| && Payload(rt, x) == Payload(rt, y)
    ensures x.previousHash == y.previousHash
  {
    assert Payload(rt, x)[..64] == x.previousHash && Payload(rt, y)[..64] == y.previousHash;
  }

  lemma LastLinks(rt: Runtime, entries: seq<Entry>)
    requires Chain(rt, GENESIS, entries) && entries != []
    ensures var e := entries[|entries| - 1];
            && Chain(rt, GENESIS, entries[..|entries| - 1])
            && e.previousHash == Head(GENESIS, entries[..|entries| - 1]) && |e.previousHash| == 64
            && Head(GENESIS, entries) == e.hash == rt.sha(Payload(rt, e))
  {
    HashLength(rt, entries[..|entries| - 1]);
  }

  lemma SameHistoryExtends(rt: Runtime, a: seq<Entry>, b: seq<Entry>)
    requires a != [] && b != [] && SameHistory(rt, a[..|a| - 1], b[..|b| - 1])
    requires Payload(rt, a[|a| - 1]) == Payload(rt, b[|b| - 1]) && a[|a| - 1].hash == b[|b| - 1].hash
    requires a[|a| - 1].previousHash == b[|b| - 1].previousHash
    ensures SameHistory(rt, a, b)
  {
    var a', b' := a[..|a| - 1], b[..|b| - 1];
    forall i | 0 <= i < |a'|
      ensures Payload(rt, a[i]) == Payload(rt, b[i]) && a[i].hash == b[i].hash && a[i].previousHash == b[i].previousHash
    {
      assert a'[i] == a[i] && b'[i] == b[i];
    }
  }

  lemma EmptyHeadForges(rt: Runtime, a: seq<Entry>)
    requires Chain(rt, GENESIS, a) && a != [] && Head(GENESIS, a) == GENESIS
    ensures Forged(rt, a, []) && Forged(rt, [], a)
  {
    LastLinks(rt, a);
    assert ComputeAuditHash(rt, a[|a| - 1]) == GENESIS;
  }

  lemma CollisionForges(rt: Runtime, a: seq<Entry>, b: seq<Entry>)
    requires a != [] && b != [] && Collision(rt, Payload(rt, a[|a| - 1]), Payload(rt, b[|b| - 1]))
    ensures Forged(rt, a, b)
  {
  }

  /** Two verified chains with the same last hash are the same history, or they exhibit a break of the hash. */
  lemma {:induction false} HeadFixesHistory(rt: Runtime, a: seq<Entry>, b: seq<Entry>)
    requires Chain(rt, GENESIS, a) && Chain(rt, GENESIS, b) && Head(GENESIS, a) == Head(GENESIS, b)
    ensures SameHistory(rt, a, b) || Forged(rt, a, b)
  {
    if a == [] && b == [] {
    } else if b == [] {
      EmptyHeadForges(rt, a);
    } else if a == [] {
      EmptyHeadForges(rt, b);
    } else {
      LastLinks(rt, a);
      LastLinks(rt, b);
      if Payload(rt, a[|a| - 1]) != Payload(rt, b[|b| - 1]) {
        CollisionForges(rt, a, b);
      } else {
        PayloadNamesPrevious(rt, a[|a| - 1], b[|b| - 1]);
        HeadFixesHistory(rt, a[..|a| - 1], b[..|b| - 1]);
        if Forged(rt, a[..|a| - 1], b[..|b| - 1]) {
          ForgedExtends(rt, a, b);
        } else {
          SameHistoryExtends(rt, a, b);
        }
      }
    }
  }

  lemma ForgedExtends(rt: Runtime, a: seq<Entry>, b: seq<Entry>)
    requires a != [] && b != [] && Forged(rt, a[..|a| - 1], b[..|b| - 1])
    ensures Forged(rt, a, b)
  {
    var a', b' := a[..|a| - 1], b[..|b| - 1];
    if i, j :| 0 <= i < |a'| && 0 <= j < |b'| && Collision(rt, Payload(rt, a'[i]), Payload(rt, b'[j])) {
      assert a[i] == a'[i] && b[j] == b'[j];
    } else if i :| 0 <= i < |a'| && ComputeAuditHash(rt, a'[i]) == GENESIS {
      assert a[i] == a'[i];
    } else {
      var j :| 0 <= j < |b'| && ComputeAuditHash(rt, b'[j]) == GENESIS;
      assert b[j] == b'[j];
    }
  }

  // ----- The logger -----

  /** The hash the next entry chains to: the store's latest, else the last entry in memory, else genesis. */
  function PreviousHash(latest: Option<string>, memory: seq<Entry>): string {
    if latest.Some? then latest.value else Head(GENESIS, memory)
  }

  datatype LogInput = LogInput(
    id: string, actor: Option<string>, action: string, resource: string, details: Option<Json>)

  /** The entry for `input` that follows `previous`; it links, whatever the input. */
  function Logged(rt: Runtime, previous: string, now: int, input: LogInput): (e: Entry)
    ensures Links(rt, previous, e) && e.timestamp == now
  {
    var draft := Entry(input.id, now, if input.actor.Some? then input.actor.value else "system", input.action,
                       input.resource, if input.details.Some? then input.details.value else Obj([]), previous, "");
    draft.(hash := ComputeAuditHash(rt, draft))
  }

  class ImmutableAuditLogger {
    const rt: Runtime
    var inMemoryEntries: seq<Entry>

    constructor (rt: Runtime)
      ensures this.rt == rt && inMemoryEntries == []
    {
      this.rt := rt;
      inMemoryEntries := [];
    }

    /** One serialised write; `latest` is the store's newest hash, if there is a store and it has one. */
    method Log(latest: Option<string>, now: int, input: LogInput) returns (created: Entry)
      modifies this
      ensures created == Logged(rt, PreviousHash(latest, old(inMemoryEntries)), now, input)
      ensures inMemoryEntries == old(inMemoryEntries) + [created]
      ensures old(Chain(rt, GENESIS, inMemoryEntries))
              && (latest == None || latest.value == old(Head(GENESIS, inMemoryEntries)))
              ==> Chain(rt, GENESIS, inMemoryEntries)
    {
      var previousHash: string := GENESIS;
      if latest.Some? {
        previousHash := latest.value;
      } else if inMemoryEntries != [] {
        previousHash := inMemoryEntries[|inMemoryEntries| - 1].hash;
      }
      var actor := if input.actor.Some? then input.actor.value else "system";
      var details := if input.details.Some? then input.details.value else Obj([]);
      created := Entry(input.id, now, actor, input.action, input.resource, details, previousHash, "");
      created := created.(hash := ComputeAuditHash(rt, created));
      inMemoryEntries := inMemoryEntries + [created];
    }
  }
}
