/** What the hash chain covers: which edits of a logged entry the verifier sees, and which it cannot see. */
module AuditCoverage {
  import opened Primitives
  import opened CanonicalJson
  import opened AuditChain

  /** An edit that leaves both stored hashes as they are. */
  predicate KeepsHashes(e: Entry, x: Entry) {
    x.hash == e.hash && x.previousHash == e.previousHash
  }

  lemma ChainAround(rt: Runtime, a: seq<Entry>, e: Entry, b: seq<Entry>)
    ensures Chain(rt, GENESIS, a + [e] + b)
            <==> Chain(rt, GENESIS, a) && Links(rt, Head(GENESIS, a), e) && Chain(rt, e.hash, b)
  {
    ChainSplits(rt, GENESIS, a + [e], b);
    assert (a + [e])[..|a|] == a;
  }

  lemma Cut(entries: seq<Entry>, k: nat, x: Entry)
    requires k < |entries|
    ensures entries == entries[..k] + [entries[k]] + entries[k + 1..]
    ensures entries[k := x] == entries[..k] + [x] + entries[k + 1..]
  {
  }

  lemma EditedSplits(rt: Runtime, entries: seq<Entry>, k: nat, x: Entry)
    requires k < |entries| && Chain(rt, GENESIS, entries) && x.hash == entries[k].hash
    ensures Links(rt, entries[k].previousHash, entries[k])
    ensures Chain(rt, GENESIS, entries[k := x]) <==> Links(rt, entries[k].previousHash, x)
  {
    Cut(entries, k, x);
    ChainAround(rt, entries[..k], entries[k], entries[k + 1..]);
    ChainAround(rt, entries[..k], x, entries[k + 1..]);
  }

  /**
   * An edit that leaves the stored hashes alone goes unnoticed if the text run together from timestamp, actor, action,
   * resource and sorted details stays the same, and otherwise only by a collision.
   */
  lemma EditsAreSeenExactly(rt: Runtime, entries: seq<Entry>, k: nat, x: Entry)
    requires k < |entries| && Chain(rt, GENESIS, entries) && KeepsHashes(entries[k], x)
    ensures var e := entries[k];
            var was := rt.stamp(e.timestamp) + e.actor + e.action + e.resource
                       + rt.stringify(SortJson(rt.less, e.details));
            var after := rt.stamp(x.timestamp) + x.actor + x.action + x.resource
                         + rt.stringify(SortJson(rt.less, x.details));
            && (was == after ==> Chain(rt, GENESIS, entries[k := x]))
            && (was != after && Chain(rt, GENESIS, entries[k := x])
                ==> Collision(rt, e.previousHash + was, e.previousHash + after))
  {
    var e := entries[k];
    EditedSplits(rt, entries, k, x);
    Together(e.previousHash, rt.stamp(e.timestamp), e.actor, e.action, e.resource,
      rt.stringify(SortJson(rt.less, e.details)));
    Together(x.previousHash, rt.stamp(x.timestamp), x.actor, x.action, x.resource,
      rt.stringify(SortJson(rt.less, x.details)));
    var was := rt.stamp(e.timestamp) + e.actor + e.action + e.resource + rt.stringify(SortJson(rt.less, e.details));
    var after := rt.stamp(x.timestamp) + x.actor + x.action + x.resource + rt.stringify(SortJson(rt.less, x.details));
    CutFront(e.previousHash, was, after);
  }

  lemma Together(p: string, t: string, a: string, b: string, c: string, d: string)
    ensures p + t + a + b + c + d == p + (t + a + b + c + d)
  {
  }

  lemma CutFront(p: string, x: string, y: string)
    ensures p + x == p + y <==> x == y
  {
    assert (p + x)[|p|..] == x && (p + y)[|p|..] == y;
  }

  /** The edit of entry `k` to `x` goes unnoticed only by a collision. */
  ghost predicate OnlyByCollision(rt: Runtime, entries: seq<Entry>, k: nat, x: Entry)
    requires k < |entries|
  {
    Chain(rt, GENESIS, entries[k := x])
    ==> exists p, q :: Collision(rt, p, q) && rt.sha(p) == entries[k].hash
  }

  lemma SeenUnlessCollision(rt: Runtime, entries: seq<Entry>, k: nat, x: Entry)
    requires k < |entries| && Chain(rt, GENESIS, entries) && KeepsHashes(entries[k], x)
    requires Payload(rt, entries[k]) != Payload(rt, x)
    ensures OnlyByCollision(rt, entries, k, x)
  {
    EditedSplits(rt, entries, k, x);
    if Chain(rt, GENESIS, entries[k := x]) {
      assert Collision(rt, Payload(rt, entries[k]), Payload(rt, x));
    }
  }

  lemma MiddleMatters(a: string, x: string, y: string, b: string)
    ensures a + x + b == a + y + b <==> x == y
  {
    if a + x + b == a + y + b {
      assert |x| == |y|;
      assert (a + x + b)[|a|..|a| + |x|] == x && (a + y + b)[|a|..|a| + |y|] == y;
    }
  }

  lemma Around(p: string, t: string, a: string, b: string, c: string, d: string)
    ensures p + t + a + b + c + d == (p + t) + a + (b + c + d)
    ensures p + t + a + b + c + d == (p + t + a) + b + (c + d)
    ensures p + t + a + b + c + d == (p + t + a + b) + c + d
    ensures p + t + a + b + c + d == p + t + (a + b + c + d)
  {
  }

  lemma AroundEntry(rt: Runtime, e: Entry)
    ensures var p, t, j := e.previousHash, rt.stamp(e.timestamp), rt.stringify(SortJson(rt.less, e.details));
            && Payload(rt, e) == (p + t) + e.actor + (e.action + e.resource + j)
            && Payload(rt, e) == (p + t + e.actor) + e.action + (e.resource + j)
            && Payload(rt, e) == (p + t + e.actor + e.action) + e.resource + j
            && Payload(rt, e) == p + t + (e.actor + e.action + e.resource + j)
  {
    Around(e.previousHash, rt.stamp(e.timestamp), e.actor, e.action, e.resource,
      rt.stringify(SortJson(rt.less, e.details)));
  }

  /** Changing one text field alone is seen, unless the hash collides. */
  lemma TextIsCovered(rt: Runtime, entries: seq<Entry>, k: nat, text: string)
    requires k < |entries| && Chain(rt, GENESIS, entries)
    ensures text != entries[k].actor ==> OnlyByCollision(rt, entries, k, entries[k].(actor := text))
    ensures text != entries[k].action ==> OnlyByCollision(rt, entries, k, entries[k].(action := text))
    ensures text != entries[k].resource ==> OnlyByCollision(rt, entries, k, entries[k].(resource := text))
  {
    var e := entries[k];
    if text != e.actor {
      ActorMatters(rt, e, text);
      SeenUnlessCollision(rt, entries, k, e.(actor := text));
    }
    if text != e.action {
      ActionMatters(rt, e, text);
      SeenUnlessCollision(rt, entries, k, e.(action := text));
    }
    if text != e.resource {
      ResourceMatters(rt, e, text);
      SeenUnlessCollision(rt, entries, k, e.(resource := text));
    }
  }

  lemma ActorMatters(rt: Runtime, e: Entry, text: string)
    requires text != e.actor
    ensures Payload(rt, e) != Payload(rt, e.(actor := text))
  {
    AroundEntry(rt, e);
    AroundEntry(rt, e.(actor := text));
    MiddleMatters(e.previousHash + rt.stamp(e.timestamp), e.actor, text,
      e.action + e.resource + rt.stringify(SortJson(rt.less, e.details)));
  }

  lemma ActionMatters(rt: Runtime, e: Entry, text: string)
    requires text != e.action
    ensures Payload(rt, e) != Payload(rt, e.(action := text))
  {
    AroundEntry(rt, e);
    AroundEntry(rt, e.(action := text));
    MiddleMatters(e.previousHash + rt.stamp(e.timestamp) + e.actor, e.action, text,
      e.resource + rt.stringify(SortJson(rt.less, e.details)));
  }

  lemma ResourceMatters(rt: Runtime, e: Entry, text: string)
    requires text != e.resource
    ensures Payload(rt, e) != Payload(rt, e.(resource := text))
  {
    AroundEntry(rt, e);
    AroundEntry(rt, e.(resource := text));
    MiddleMatters(e.previousHash + rt.stamp(e.timestamp) + e.actor + e.action, e.resource, text,
      rt.stringify(SortJson(rt.less, e.details)));
  }

  /** So is another timestamp, if no two have the same text, and so are other details, if no two have the same text. */
  lemma TimeAndDetailsAreCovered(rt: Runtime, entries: seq<Entry>, k: nat, time: int, details: Json)
    requires k < |entries| && Chain(rt, GENESIS, entries)
    requires forall x, y :: rt.stamp(x) == rt.stamp(y) ==> x == y
    requires forall x, y :: rt.stringify(x) == rt.stringify(y) ==> x == y
    requires WellFormed(details) && WellFormed(entries[k].details)
    ensures time != entries[k].timestamp ==> OnlyByCollision(rt, entries, k, entries[k].(timestamp := time))
    ensures !SameDetails(entries[k].details, details)
            ==> OnlyByCollision(rt, entries, k, entries[k].(details := details))
  {
    var e := entries[k];
    if time != e.timestamp {
      TimeMatters(rt, e, time);
      SeenUnlessCollision(rt, entries, k, e.(timestamp := time));
    }
    if !SameDetails(e.details, details) {
      DetailsMatter(rt, e, details);
      SeenUnlessCollision(rt, entries, k, e.(details := details));
    }
  }

  lemma TimeMatters(rt: Runtime, e: Entry, time: int)
    requires rt.stamp(time) != rt.stamp(e.timestamp)
    ensures Payload(rt, e) != Payload(rt, e.(timestamp := time))
  {
    AroundEntry(rt, e);
    AroundEntry(rt, e.(timestamp := time));
    MiddleMatters(e.previousHash, rt.stamp(e.timestamp), rt.stamp(time),
      e.actor + e.action + e.resource + rt.stringify(SortJson(rt.less, e.details)));
  }

  lemma DetailsMatter(rt: Runtime, e: Entry, details: Json)
    requires forall x, y :: rt.stringify(x) == rt.stringify(y) ==> x == y
    requires WellFormed(details) && WellFormed(e.details) && !SameDetails(e.details, details)
    ensures Payload(rt, e) != Payload(rt, e.(details := details))
  {
    if SortJson(rt.less, e.details) == SortJson(rt.less, details) {
      SortAlikeIsSameDetails(rt.less, e.details, details);
    }
    CutFront(e.previousHash + rt.stamp(e.timestamp) + e.actor + e.action + e.resource,
      rt.stringify(SortJson(rt.less, e.details)), rt.stringify(SortJson(rt.less, details)));
  }

  /** A changed hash or link is always seen. */
  lemma LinksAreCovered(rt: Runtime, entries: seq<Entry>, k: nat, text: string)
    requires k < |entries| && Chain(rt, GENESIS, entries)
    ensures text != entries[k].hash ==> !Chain(rt, GENESIS, entries[k := entries[k].(hash := text)])
    ensures text != entries[k].previousHash ==> !Chain(rt, GENESIS, entries[k := entries[k].(previousHash := text)])
  {
    var e := entries[k];
    Cut(entries, k, e.(hash := text));
    Cut(entries, k, e.(previousHash := text));
    ChainAround(rt, entries[..k], e, entries[k + 1..]);
    ChainAround(rt, entries[..k], e.(hash := text), entries[k + 1..]);
    ChainAround(rt, entries[..k], e.(previousHash := text), entries[k + 1..]);
  }

  /** The id is not hashed, and text may move across the border of two neighbouring fields: that is never seen. */
  lemma UnseenEdits(rt: Runtime, entries: seq<Entry>, k: nat, id: string, a: string, b: string)
    requires k < |entries| && Chain(rt, GENESIS, entries)
    ensures Chain(rt, GENESIS, entries[k := entries[k].(id := id)])
    ensures entries[k].actor == a + b ==>
              Chain(rt, GENESIS, entries[k := entries[k].(actor := a, action := b + entries[k].action)])
    ensures entries[k].action == a + b ==>
              Chain(rt, GENESIS, entries[k := entries[k].(action := a, resource := b + entries[k].resource)])
  {
    var e := entries[k];
    EditedSplits(rt, entries, k, e.(id := id));
    var p, t, j := e.previousHash, rt.stamp(e.timestamp), rt.stringify(SortJson(rt.less, e.details));
    if e.actor == a + b {
      BorderMoves(p + t, a, b, e.action);
      EditedSplits(rt, entries, k, e.(actor := a, action := b + e.action));
    }
    if e.action == a + b {
      BorderMoves(p + t + e.actor, a, b, e.resource);
      EditedSplits(rt, entries, k, e.(action := a, resource := b + e.resource));
    }
  }

  lemma BorderMoves(front: string, a: string, b: string, c: string)
    ensures front + (a + b) + c == front + a + (b + c)
  {
  }

  // ----- What the logger writes -----

  /** The chain starts from 64 zeros. */
  lemma GenesisIsZeros()
    ensures |GENESIS| == 64 && forall i :: 0 <= i < 64 ==> GENESIS[i] == '0'
  {
  }

  /** An entry continues from the store's newest hash, or without one from the newest in memory, or from genesis. */
  lemma EntryContinues(latest: Option<string>, memory: seq<Entry>)
    ensures latest.Some? ==> PreviousHash(latest, memory) == latest.value
    ensures latest == None && memory != [] ==> PreviousHash(latest, memory) == memory[|memory| - 1].hash
    ensures latest == None && memory == [] ==> PreviousHash(latest, memory) == GENESIS
  {
  }

  /** A logged entry says what it was given: absent actors are `system`, absent details an empty object. */
  lemma EntryTellsInput(rt: Runtime, previous: string, now: int, input: LogInput)
    ensures var e := Logged(rt, previous, now, input);
            && e.id == input.id && e.timestamp == now && e.action == input.action && e.resource == input.resource
            && e.previousHash == previous
            && (input.actor == None ==> e.actor == "system") && (input.actor.Some? ==> e.actor == input.actor.value)
            && (input.details == None ==> e.details == Obj([]))
            && (input.details.Some? ==> e.details == input.details.value)
  {
  }
}
